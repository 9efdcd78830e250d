/** The guarded dialer: the policy, here `judge`, is asked about the very address that is dialed. */
module Dialer {
  import opened Text
  import opened Cidr
  import opened Egress

  /** What `errors.As` and `errors.Is` find in an error chain that is not an egress denial. */
  datatype NetError = NetError(dns: Option<bool>, certificate: bool, record: bool, timeout: bool, op: bool, text: string)

  datatype DialError = Denied(v: Verdict) | Failed(e: NetError) | NoAddresses

  /** The resolved addresses that pass the policy, in order. */
  function Candidates(judge: Bytes -> Verdict, ips: seq<Bytes>): seq<Bytes> {
    if ips == [] then []
    else (if judge(ips[0]).Allowed? then [ips[0]] else []) + Candidates(judge, ips[1..])
  }

  /**
   * The addresses a dial attempts: the candidates in order, up to the first that connects; all
   * before the last one failed, and if the last one failed there was none left.
   */
  predicate Attempts(judge: Bytes -> Verdict, ips: seq<Bytes>, connects: nat -> Option<NetError>, dialed: seq<Bytes>) {
    && dialed <= Candidates(judge, ips)
    && (forall k :: 0 <= k < |dialed| - 1 ==> connects(k).Some?)
    && ((|dialed| > 0 && connects(|dialed| - 1).None?)
        || (dialed == Candidates(judge, ips) && (|dialed| > 0 ==> connects(|dialed| - 1).Some?)))
  }

  /**
   * Tries the addresses in order. `connects(k)` is how the k-th connection attempt ends, `None`
   * for a connection; `dialed` lists the addresses that were attempted.
   */
  method GuardedDial(judge: Bytes -> Verdict, ips: seq<Bytes>, connects: nat -> Option<NetError>)
    returns (error: Option<DialError>, dialed: seq<Bytes>)
    ensures Attempts(judge, ips, connects, dialed)
    ensures error.None? <==> |dialed| > 0 && connects(|dialed| - 1).None?
    ensures error == DialOutcome(judge, ips, connects)
  {
    dialed := [];
    error := None;
    for i := 0 to |ips|
      invariant Candidates(judge, ips) == dialed + Candidates(judge, ips[i..])
      invariant forall k :: 0 <= k < |dialed| ==> connects(k).Some?
      invariant i == 0 ==> error.None? && dialed == []
      invariant i > 0 ==> error.Some? && error.value == LastError(judge, ips[..i], dialed, connects)
    {
      assert ips[i..][0] == ips[i] && ips[i..][1..] == ips[i + 1..] && ips[..i + 1][i] == ips[i];
      var verdict := judge(ips[i]);
      if verdict != Verdict.Allowed {
        error := Some(Denied(verdict));
        continue;
      }
      dialed := dialed + [ips[i]];
      var e := connects(|dialed| - 1);
      if e.Some? {
        error := Some(Failed(e.value));
        continue;
      }
      assert dialed <= Candidates(judge, ips);
      return None, dialed;
    }
    assert ips[..|ips|] == ips;
    if error.None? {
      error := Some(NoAddresses);
    }
  }

  /** The error of a dial that connected to nothing: it is about the last address of the list. */
  function LastError(judge: Bytes -> Verdict, ips: seq<Bytes>, dialed: seq<Bytes>, connects: nat -> Option<NetError>): DialError {
    if ips == [] then NoAddresses
    else
      var verdict := judge(ips[|ips| - 1]);
      if verdict != Verdict.Allowed then Denied(verdict)
      else if |dialed| > 0 && connects(|dialed| - 1).Some? then Failed(connects(|dialed| - 1).value)
      else NoAddresses
  }

  /** How the dial ends: it fails iff every connection attempt it can make fails. */
  function DialOutcome(judge: Bytes -> Verdict, ips: seq<Bytes>, connects: nat -> Option<NetError>): Option<DialError> {
    var candidates := Candidates(judge, ips);
    if forall k :: 0 <= k < |candidates| ==> connects(k).Some? then Some(LastError(judge, ips, candidates, connects))
    else None
  }

  /**
   * A dial that connects to nothing reports a denial iff the last resolved address is denied,
   * whatever happened to the addresses before it, and then with the verdict on that address.
   */
  lemma DeniedIffLastIsDenied(judge: Bytes -> Verdict, ips: seq<Bytes>, connects: nat -> Option<NetError>)
    requires DialOutcome(judge, ips, connects).Some? && ips != []
    ensures DialOutcome(judge, ips, connects).value.Denied? <==> !judge(ips[|ips| - 1]).Allowed?
    ensures !DialOutcome(judge, ips, connects).value.NoAddresses?
  {
    if judge(ips[|ips| - 1]).Allowed? {
      CandidatesAreThePermitted(judge, ips, ips[|ips| - 1]);
    }
  }

  /** Every candidate passed the policy, and no permitted address is left out. */
  lemma {:induction false} CandidatesAreThePermitted(judge: Bytes -> Verdict, ips: seq<Bytes>, ip: Bytes)
    ensures ip in Candidates(judge, ips) <==> ip in ips && judge(ip).Allowed?
  {
    if ips != [] {
      CandidatesAreThePermitted(judge, ips[1..], ip);
    }
  }
}

/** Executing one request: the redirect loop around the single exchange. */
module Engine {
  import opened Numbers
  import opened Text
  import opened Protocol
  import opened Cidr
  import opened Dialer

  type Body = seq<bv8>

  /** A response whose body breaks off after `arrived` bytes, if it is longer than that. */
  datatype Reply = Reply(status: int, location: string, body: Body, arrived: nat) {
    function Read(): Body {
      if arrived < |body| then body[..arrived] else body
    }
  }

  datatype Answer = Replies(r: Reply) | Breaks(e: NetError)

  /** One hop's environment: the lookup of its host, the connection attempts, the HTTP exchange after one. */
  datatype Hop = Hop(lookup: Option<NetError>, ips: seq<Bytes>, connects: nat -> Option<NetError>, answer: Answer)

  /**
   * A request as the engine starts on it: the method (`verb`) trimmed and in upper case, `url` and `body`
   * `None` when the URL or the base64 text is bad; an empty body and no body are the same.
   */
  datatype Spec = Spec(
    id: string, verb: string, url: Option<string>, body: Option<Body>,
    followRedirects: bool, maxRedirects: int, maxBody: int)

  datatype Sent = Sent(verb: string, url: string, body: Body)

  // ------------------------------------------------------------------------------------------
  // One exchange

  function Classify(e: DialError): ExecError {
    match e
    case Denied(_) => ExecError(Blocked, "egress", false)
    case NoAddresses => ExecError(Http, "no addresses", false)
    case Failed(n) =>
      if n.dns.Some? then ExecError(Dns, n.text, n.dns.value)
      else if n.certificate then ExecError(Tls, n.text, false)
      else if n.record then ExecError(Tls, n.text, false)
      else if n.timeout then ExecError(Timeout, n.text, true)
      else if n.op then ExecError(Connect, n.text, true)
      else ExecError(Http, n.text, false)
  }

  datatype Exchanged = Got(r: Reply) | Broke(e: DialError)

  function Exchange(judge: Bytes -> Egress.Verdict, h: Hop): Exchanged {
    if h.lookup.Some? then Broke(Failed(h.lookup.value))
    else match DialOutcome(judge, h.ips, h.connects)
      case Some(e) => Broke(e)
      case None => match h.answer
        case Replies(r) => Got(r)
        case Breaks(e) => Broke(Failed(e))
  }

  /** The addresses one exchange attempts: none if the lookup fails. */
  predicate HopDials(judge: Bytes -> Egress.Verdict, h: Hop, dialed: seq<Bytes>) {
    if h.lookup.Some? then dialed == [] else Attempts(judge, h.ips, h.connects, dialed)
  }

  method DoOnce(judge: Bytes -> Egress.Verdict, h: Hop) returns (x: Exchanged, dialed: seq<Bytes>)
    ensures x == Exchange(judge, h)
    ensures HopDials(judge, h, dialed)
  {
    if h.lookup.Some? {
      return Broke(Failed(h.lookup.value)), [];
    }
    var error;
    error, dialed := GuardedDial(judge, h.ips, h.connects);
    if error.Some? {
      return Broke(error.value), dialed;
    }
    x := match h.answer { case Replies(r) => Got(r) case Breaks(e) => Broke(Failed(e)) };
  }

  // ------------------------------------------------------------------------------------------
  // The body cap

  function Cap(specMax: int, defaultMax: int): int {
    if specMax <= 0 then defaultMax else specMax
  }

  /** What `fill` keeps of a body under a cap; `None` is the slice panic of a negative cap. */
  function Capture(cap: int, body: Body): Option<(Body, bool)> {
    var limit := Wrap64(cap + 1);
    var raw := if limit <= 0 then [] else if limit < |body| then body[..limit] else body;
    if |raw| <= cap then Some((raw, false))
    else if cap < 0 then None
    else Some((raw[..cap], true))
  }

  /** The promise of the cap: the first `cap` bytes of the body, and the flag exactly when there were more. */
  predicate CapsExactly(cap: int, r: Reply) {
    Capture(cap, r.Read()) == if 0 <= cap < |r.body| then Some((r.body[..cap], true)) else Some((r.body, false))
  }

  /**
   * Exactly when the promise is kept, for every 64-bit cap and also if the body breaks off: not
   * for a negative cap, nor for the largest; and a broken body must break off beyond the cap,
   * because the error of reading it is dropped.
   */
  lemma CapIsExactIff(cap: int, r: Reply)
    requires MIN_INT64 <= cap <= MAX_INT64
    ensures CapsExactly(cap, r) <==>
      0 <= cap && (cap < MAX_INT64 || r.body == []) && (|r.body| <= r.arrived || cap < r.arrived)
  {
    var read := r.Read();
    if cap == MAX_INT64 {
      assert Wrap64(cap + 1) == -0x8000_0000_0000_0000;
    } else {
      assert Wrap64(cap + 1) == cap + 1;
      if 0 <= cap < |read| {
        assert (if cap + 1 < |read| then read[..cap + 1] else read)[..cap] == read[..cap] == r.body[..cap];
      }
    }
  }

  // ------------------------------------------------------------------------------------------
  // Redirects

  predicate IsRedirect(status: int) {
    status == 301 || status == 302 || status == 303 || status == 307 || status == 308
  }

  predicate KeepsRequest(status: int) {
    status == 307 || status == 308
  }

  function RedirectMethod(status: int, verb: string, body: Body): (string, Body) {
    if KeepsRequest(status) then (verb, body)
    else if verb != "GET" && verb != "HEAD" then ("GET", [])
    else (verb, [])
  }

  /** The method after following redirects with these statuses: once a 301, 302 or 303 meets another method, GET for good. */
  function MethodAfter(verb: string, history: seq<int>): string {
    if verb == "GET" || verb == "HEAD" then verb
    else if exists j :: 0 <= j < |history| && !KeepsRequest(history[j]) then "GET"
    else verb
  }

  /** The body after them: the original one, unless the last redirect was a 301, 302 or 303. */
  function BodyAfter(body: Body, history: seq<int>): Body {
    if history == [] || KeepsRequest(history[|history| - 1]) then body else []
  }

  function Limit(spec: Spec): nat {
    if !spec.followRedirects then 0 else if spec.maxRedirects <= 0 then 10 else spec.maxRedirects
  }

  function StartMethod(spec: Spec): string {
    if spec.verb == "" then "GET" else spec.verb
  }

  predicate Follows(spec: Spec, status: int, hop: nat) {
    spec.followRedirects && IsRedirect(status) && hop < Limit(spec)
  }

  /** What hop `k` replied, if its exchange came to a reply. */
  function ReplyAt(judge: Bytes -> Egress.Verdict, hops: nat -> Hop, k: nat): Reply {
    match Exchange(judge, hops(k))
    case Got(r) => r
    case Broke(_) => Reply(0, "", [], 0)
  }

  function StatusesBefore(judge: Bytes -> Egress.Verdict, hops: nat -> Hop, n: nat): seq<int> {
    seq(n, k requires 0 <= k < n => ReplyAt(judge, hops, k).status)
  }

  function ChainUpTo(judge: Bytes -> Egress.Verdict, hops: nat -> Hop, sent: seq<Sent>): seq<RedirectHop> {
    seq(|sent|, k requires 0 <= k < |sent| =>
      var r := ReplyAt(judge, hops, k); RedirectHop(r.status, r.location, sent[k].url))
  }

  /** Exchange `k` goes where the redirect that exchange `k - 1` met pointed. */
  predicate Link(judge: Bytes -> Egress.Verdict, spec: Spec, hops: nat -> Hop, resolve: (string, string) -> Option<string>,
                 k: nat, last: Sent, now: Sent)
    requires k > 0
  {
    var r := ReplyAt(judge, hops, k - 1);
    && Exchange(judge, hops(k - 1)).Got? && Follows(spec, r.status, k - 1)
    && r.location != "" && resolve(last.url, r.location) == Some(now.url)
  }

  /** Each exchange but the first goes where the redirect before it pointed. */
  predicate Linked(judge: Bytes -> Egress.Verdict, spec: Spec, hops: nat -> Hop, resolve: (string, string) -> Option<string>, sent: seq<Sent>)
    requires spec.url.Some?
  {
    && (|sent| > 0 ==> sent[0].url == spec.url.value)
    && forall k :: 0 < k < |sent| ==> Link(judge, spec, hops, resolve, k, sent[k - 1], sent[k])
  }

  /** Every exchange carries the method and body of the closed forms. */
  predicate Formed(judge: Bytes -> Egress.Verdict, spec: Spec, hops: nat -> Hop, sent: seq<Sent>)
    requires spec.body.Some?
  {
    forall k :: 0 <= k < |sent| ==>
      && sent[k].verb == MethodAfter(StartMethod(spec), StatusesBefore(judge, hops, k))
      && sent[k].body == BodyAfter(spec.body.value, StatusesBefore(judge, hops, k))
  }

  /** On every hop the addresses attempted are those of its dial. */
  predicate Contained(judge: Bytes -> Egress.Verdict, hops: nat -> Hop, dialed: seq<seq<Bytes>>) {
    forall k :: 0 <= k < |dialed| ==> HopDials(judge, hops(k), dialed[k])
  }

  lemma ContainedGrows(judge: Bytes -> Egress.Verdict, hops: nat -> Hop, dialed: seq<seq<Bytes>>, ips: seq<Bytes>)
    requires Contained(judge, hops, dialed) && HopDials(judge, hops(|dialed|), ips)
    ensures Contained(judge, hops, dialed + [ips])
  {
  }

  /** How the result follows from the last exchange: number `k`, sent as `now` after the redirects in `chain`. */
  predicate Ends(judge: Bytes -> Egress.Verdict, spec: Spec, defaultMax: int, hop: Hop, resolve: (string, string) -> Option<string>,
                 k: nat, now: Sent, chain: seq<RedirectHop>, out: Option<ResponseResult>)
  {
    match Exchange(judge, hop)
    case Broke(e) => out == Some(Unanswered(spec.id).(chain := chain, error := Some(Classify(e))))
    case Got(r) =>
      if Follows(spec, r.status, k) then
        && (r.location == "" || resolve(now.url, r.location).None?)
        && out.Some? && out.value.error == Some(ExecError(Http, "invalid redirect Location: " + r.location, false))
        && out.value.(error := None) == Unanswered(spec.id).(chain := chain + [RedirectHop(r.status, r.location, now.url)])
      else
        match Capture(Cap(spec.maxBody, defaultMax), r.Read())
        case None => out == None
        case Some((raw, truncated)) => out == Some(ResponseResult(spec.id, r.status, raw, truncated, chain, None))
  }

  /** The exchanges of a request and its result belong together. */
  predicate Story(judge: Bytes -> Egress.Verdict, spec: Spec, defaultMax: int, hops: nat -> Hop,
                  resolve: (string, string) -> Option<string>, sent: seq<Sent>, out: Option<ResponseResult>)
    requires spec.url.Some? && spec.body.Some?
  {
    && 0 < |sent| <= Limit(spec) + 1
    && Linked(judge, spec, hops, resolve, sent)
    && Formed(judge, spec, hops, sent)
    && var k := |sent| - 1;
       Ends(judge, spec, defaultMax, hops(k), resolve, k, sent[k], ChainUpTo(judge, hops, sent[..k]), out)
  }

  lemma RedirectExtendsForms(verb: string, body: Body, history: seq<int>, status: int)
    ensures RedirectMethod(status, MethodAfter(verb, history), body) ==
            (MethodAfter(verb, history + [status]), BodyAfter(body, history + [status]))
  {
    var longer := history + [status];
    assert longer[|history|] == status;
    if j :| 0 <= j < |history| && !KeepsRequest(history[j]) {
      assert longer[j] == history[j];
    }
  }

  /** The loop is about to make exchange number `|sent|` as `now`. */
  predicate Underway(judge: Bytes -> Egress.Verdict, spec: Spec, hops: nat -> Hop, resolve: (string, string) -> Option<string>,
                     sent: seq<Sent>, now: Sent)
    requires spec.url.Some? && spec.body.Some?
  {
    Linked(judge, spec, hops, resolve, sent + [now]) && Formed(judge, spec, hops, sent + [now])
  }

  lemma HistoryGrows(judge: Bytes -> Egress.Verdict, hops: nat -> Hop, n: nat)
    ensures StatusesBefore(judge, hops, n + 1) == StatusesBefore(judge, hops, n) + [ReplyAt(judge, hops, n).status]
  {
  }

  lemma NextHop(judge: Bytes -> Egress.Verdict, spec: Spec, hops: nat -> Hop, resolve: (string, string) -> Option<string>,
                sent: seq<Sent>, now: Sent, r: Reply, next: Sent)
    requires spec.url.Some? && spec.body.Some? && Underway(judge, spec, hops, resolve, sent, now)
    requires Exchange(judge, hops(|sent|)) == Got(r) && Follows(spec, r.status, |sent|)
    requires r.location != "" && resolve(now.url, r.location) == Some(next.url)
    requires (next.verb, next.body) == RedirectMethod(r.status, now.verb, spec.body.value)
    ensures Underway(judge, spec, hops, resolve, sent + [now], next)
  {
    var all := sent + [now] + [next];
    var before := sent + [now];
    HistoryGrows(judge, hops, |sent|);
    assert before[|sent|] == now;
    assert Link(judge, spec, hops, resolve, |before|, now, next);
    RedirectExtendsForms(StartMethod(spec), spec.body.value, StatusesBefore(judge, hops, |sent|), r.status);
    forall k | 0 <= k < |all|
      ensures all[k].verb == MethodAfter(StartMethod(spec), StatusesBefore(judge, hops, k))
      ensures all[k].body == BodyAfter(spec.body.value, StatusesBefore(judge, hops, k))
    {
      if k < |before| { assert all[k] == before[k]; }
    }
    LinkGrows(judge, spec, hops, resolve, before, next);
  }

  lemma LinkGrows(judge: Bytes -> Egress.Verdict, spec: Spec, hops: nat -> Hop, resolve: (string, string) -> Option<string>,
                  before: seq<Sent>, next: Sent)
    requires spec.url.Some? && before != [] && Linked(judge, spec, hops, resolve, before)
    requires Link(judge, spec, hops, resolve, |before|, before[|before| - 1], next)
    ensures Linked(judge, spec, hops, resolve, before + [next])
  {
    var all := before + [next];
    assert all[0] == before[0];
    forall k | 0 < k < |all| ensures Link(judge, spec, hops, resolve, k, all[k - 1], all[k]) {
      assert all[k - 1] == before[k - 1];
      if k < |before| {
        assert all[k] == before[k];
        assert Link(judge, spec, hops, resolve, k, before[k - 1], before[k]);
      }
    }
  }

  lemma FirstHop(judge: Bytes -> Egress.Verdict, spec: Spec, hops: nat -> Hop, resolve: (string, string) -> Option<string>)
    requires spec.url.Some? && spec.body.Some?
    ensures Underway(judge, spec, hops, resolve, [], Sent(StartMethod(spec), spec.url.value, spec.body.value))
  {
    assert StatusesBefore(judge, hops, 0) == [];
  }

  lemma Finish(judge: Bytes -> Egress.Verdict, spec: Spec, defaultMax: int, hops: nat -> Hop,
               resolve: (string, string) -> Option<string>, sent: seq<Sent>, now: Sent, out: Option<ResponseResult>)
    requires spec.url.Some? && spec.body.Some? && Underway(judge, spec, hops, resolve, sent, now) && |sent| <= Limit(spec)
    requires Ends(judge, spec, defaultMax, hops(|sent|), resolve, |sent|, now, ChainUpTo(judge, hops, sent), out)
    ensures Story(judge, spec, defaultMax, hops, resolve, sent + [now], out)
  {
    assert (sent + [now])[..|sent|] == sent;
  }

  lemma FinishBroken(judge: Bytes -> Egress.Verdict, spec: Spec, defaultMax: int, hops: nat -> Hop,
                     resolve: (string, string) -> Option<string>, sent: seq<Sent>, now: Sent, e: DialError, out: Option<ResponseResult>)
    requires spec.url.Some? && spec.body.Some? && Underway(judge, spec, hops, resolve, sent, now) && |sent| <= Limit(spec)
    requires Exchange(judge, hops(|sent|)) == Broke(e)
    requires out == Some(Unanswered(spec.id).(chain := ChainUpTo(judge, hops, sent), error := Some(Classify(e))))
    ensures Story(judge, spec, defaultMax, hops, resolve, sent + [now], out)
  {
    Finish(judge, spec, defaultMax, hops, resolve, sent, now, out);
  }

  lemma FinishMisdirected(judge: Bytes -> Egress.Verdict, spec: Spec, defaultMax: int, hops: nat -> Hop,
                          resolve: (string, string) -> Option<string>, sent: seq<Sent>, now: Sent, r: Reply, out: Option<ResponseResult>)
    requires spec.url.Some? && spec.body.Some? && Underway(judge, spec, hops, resolve, sent, now) && |sent| <= Limit(spec)
    requires Exchange(judge, hops(|sent|)) == Got(r) && Follows(spec, r.status, |sent|)
    requires r.location == "" || resolve(now.url, r.location).None?
    requires out.Some? && out.value.error == Some(ExecError(Http, "invalid redirect Location: " + r.location, false))
    requires
      var chain := ChainUpTo(judge, hops, sent) + [RedirectHop(r.status, r.location, now.url)];
      out.value.(error := None) == Unanswered(spec.id).(chain := chain)
    ensures Story(judge, spec, defaultMax, hops, resolve, sent + [now], out)
  {
    Finish(judge, spec, defaultMax, hops, resolve, sent, now, out);
  }

  lemma FinishTerminal(judge: Bytes -> Egress.Verdict, spec: Spec, defaultMax: int, hops: nat -> Hop,
                       resolve: (string, string) -> Option<string>, sent: seq<Sent>, now: Sent, r: Reply, out: Option<ResponseResult>)
    requires spec.url.Some? && spec.body.Some? && Underway(judge, spec, hops, resolve, sent, now) && |sent| <= Limit(spec)
    requires Exchange(judge, hops(|sent|)) == Got(r) && !Follows(spec, r.status, |sent|)
    requires out == Terminal(spec, defaultMax, r, ChainUpTo(judge, hops, sent))
    ensures Story(judge, spec, defaultMax, hops, resolve, sent + [now], out)
  {
    Finish(judge, spec, defaultMax, hops, resolve, sent, now, out);
  }

  lemma ChainGrows(judge: Bytes -> Egress.Verdict, hops: nat -> Hop, sent: seq<Sent>, now: Sent)
    ensures
      var r := ReplyAt(judge, hops, |sent|);
      ChainUpTo(judge, hops, sent + [now]) == ChainUpTo(judge, hops, sent) + [RedirectHop(r.status, r.location, now.url)]
    ensures ChainUpTo(judge, hops, sent + [now])[..|sent|] == ChainUpTo(judge, hops, sent)
  {
    var all := sent + [now];
    assert forall k :: 0 <= k < |sent| ==> all[k] == sent[k];
  }

  /**
   * Runs one request. `sent` lists the exchanges, `dialed` the addresses each of them attempted;
   * `out` is `None` only for the panic of a negative body cap.
   */
  method Execute(judge: Bytes -> Egress.Verdict, spec: Spec, defaultMax: int, hops: nat -> Hop,
                 resolve: (string, string) -> Option<string>)
    returns (out: Option<ResponseResult>, sent: seq<Sent>, dialed: seq<seq<Bytes>>)
    ensures
      if spec.url.Some? && spec.body.Some? then Story(judge, spec, defaultMax, hops, resolve, sent, out)
      else
        && sent == [] && out.Some?
        && out.value.error.Some? && out.value.error.value.kind == Invalid && !out.value.error.value.retryable
        && out.value.(error := None) == Unanswered(spec.id)
    ensures |dialed| == |sent| && Contained(judge, hops, dialed)
  {
    sent, dialed := [], [];
    if spec.url.None? {
      return Some(Unanswered(spec.id).(error := Some(ExecError(Invalid, "url", false)))), sent, dialed;
    }
    if spec.body.None? {
      return Some(Unanswered(spec.id).(error := Some(ExecError(Invalid, "bad body", false)))), sent, dialed;
    }
    var limit := 0;
    if spec.followRedirects {
      limit := spec.maxRedirects;
      if limit <= 0 {
        limit := 10;
      }
    }
    var verb := spec.verb;
    if verb == "" {
      verb := "GET";
    }
    var url, body, hop := spec.url.value, spec.body.value, 0;
    var chain: seq<RedirectHop> := [];
    FirstHop(judge, spec, hops, resolve);
    while true
      invariant limit == Limit(spec) && 0 <= hop <= limit && |sent| == |dialed| == hop
      invariant Underway(judge, spec, hops, resolve, sent, Sent(verb, url, body))
      invariant chain == ChainUpTo(judge, hops, sent)
      invariant Contained(judge, hops, dialed)
      decreases limit - hop
    {
      var now := Sent(verb, url, body);
      var x, ips := DoOnce(judge, hops(hop));
      ContainedGrows(judge, hops, dialed, ips);
      dialed := dialed + [ips];
      if x.Broke? {
        out := Some(Unanswered(spec.id).(chain := chain, error := Some(Classify(x.e))));
        FinishBroken(judge, spec, defaultMax, hops, resolve, sent, now, x.e, out);
        return out, sent + [now], dialed;
      }
      var r := x.r;
      if spec.followRedirects && IsRedirect(r.status) && hop < limit {
        ChainGrows(judge, hops, sent, now);
        chain := chain + [RedirectHop(r.status, r.location, url)];
        var next := resolve(url, r.location);
        if next.None? || r.location == "" {
          var error := ExecError(Http, "invalid redirect Location: " + r.location, false);
          out := Some(Unanswered(spec.id).(chain := chain, error := Some(error)));
          FinishMisdirected(judge, spec, defaultMax, hops, resolve, sent, now, r, out);
          return out, sent + [now], dialed;
        }
        var (newVerb, newBody) := RedirectMethod(r.status, verb, spec.body.value);
        NextHop(judge, spec, hops, resolve, sent, now, r, Sent(newVerb, next.value, newBody));
        verb, body, url := newVerb, newBody, next.value;
        sent := sent + [now];
        hop := hop + 1;
        continue;
      }
      out := Terminal(spec, defaultMax, r, chain);
      FinishTerminal(judge, spec, defaultMax, hops, resolve, sent, now, r, out);
      return out, sent + [now], dialed;
    }
  }

  /** The result of a response that is not followed; `None` if capturing its body panics. */
  function Terminal(spec: Spec, defaultMax: int, r: Reply, chain: seq<RedirectHop>): Option<ResponseResult> {
    match Capture(Cap(spec.maxBody, defaultMax), r.Read())
    case None => None
    case Some((raw, truncated)) => Some(ResponseResult(spec.id, r.status, raw, truncated, chain, None))
  }

  // ------------------------------------------------------------------------------------------
  // The same in numbers

  /** 301, 302, 303, 307 and 308 are followed, and no other status, as long as the limit is not reached. */
  lemma FollowedIff(spec: Spec, status: int, hop: nat)
    ensures Follows(spec, status, hop) <==>
      && spec.followRedirects && status in {301, 302, 303, 307, 308}
      && hop < if spec.maxRedirects > 0 then spec.maxRedirects else 10
  {
  }

  /** A history of redirects that keep the request. */
  predicate OnlyKeeping(history: seq<int>) {
    forall j :: 0 <= j < |history| ==> history[j] == 307 || history[j] == 308
  }

  /**
   * What the next request carries after one more redirect: 307 and 308 keep the method, and bring
   * the original body; 301, 302 and 303 send no body, and turn every method but GET and HEAD into
   * GET.
   */
  lemma NextRequest(verb: string, body: Body, history: seq<int>, status: int)
    requires status in {301, 302, 303, 307, 308}
    ensures
      var (before, after) := (MethodAfter(verb, history), MethodAfter(verb, history + [status]));
      && (status in {307, 308} ==> after == before && BodyAfter(body, history + [status]) == body)
      && (status in {301, 302, 303} ==>
            && BodyAfter(body, history + [status]) == []
            && after == if before in {"GET", "HEAD"} then before else "GET")
  {
    RedirectExtendsForms(verb, body, history, status);
  }

  /** In closed form: the method is kept by every history of 307s and 308s, and is GET, or what it was if it was GET or HEAD, after any other. */
  lemma MethodInNumbers(verb: string, body: Body, history: seq<int>)
    requires forall j :: 0 <= j < |history| ==> history[j] in {301, 302, 303, 307, 308}
    ensures OnlyKeeping(history) ==> MethodAfter(verb, history) == verb && BodyAfter(body, history) == body
    ensures !OnlyKeeping(history) ==> MethodAfter(verb, history) == if verb == "HEAD" then "HEAD" else "GET"
    ensures history != [] && history[|history| - 1] in {301, 302, 303} ==> BodyAfter(body, history) == []
    ensures history != [] && history[|history| - 1] in {307, 308} ==> BodyAfter(body, history) == body
  {
    if !OnlyKeeping(history) {
      var j :| 0 <= j < |history| && history[j] != 307 && history[j] != 308;
      assert !KeepsRequest(history[j]);
    }
  }

  /** Two exchanges in a row of a finished request: what the second one carries, told from the reply to the first. */
  lemma NextExchange(judge: Bytes -> Egress.Verdict, spec: Spec, defaultMax: int, hops: nat -> Hop,
                     resolve: (string, string) -> Option<string>, sent: seq<Sent>, out: Option<ResponseResult>, k: nat)
    requires spec.url.Some? && spec.body.Some? && Story(judge, spec, defaultMax, hops, resolve, sent, out)
    requires 0 < k < |sent|
    ensures
      var status := ReplyAt(judge, hops, k - 1).status;
      && status in {301, 302, 303, 307, 308}
      && (status in {307, 308} ==> sent[k].verb == sent[k - 1].verb && sent[k].body == spec.body.value)
      && (status in {301, 302, 303} ==>
            && sent[k].body == []
            && sent[k].verb == if sent[k - 1].verb in {"GET", "HEAD"} then sent[k - 1].verb else "GET")
  {
    var status := ReplyAt(judge, hops, k - 1).status;
    assert Link(judge, spec, hops, resolve, k, sent[k - 1], sent[k]);
    FollowedIff(spec, status, k - 1);
    HistoryGrows(judge, hops, k - 1);
    NextRequest(StartMethod(spec), spec.body.value, StatusesBefore(judge, hops, k - 1), status);
  }

  /** The first exchange goes out as the request says, with GET where it names no method. */
  lemma FirstExchange(judge: Bytes -> Egress.Verdict, spec: Spec, defaultMax: int, hops: nat -> Hop,
                      resolve: (string, string) -> Option<string>, sent: seq<Sent>, out: Option<ResponseResult>)
    requires spec.url.Some? && spec.body.Some? && Story(judge, spec, defaultMax, hops, resolve, sent, out)
    ensures sent[0] == Sent(if spec.verb == "" then "GET" else spec.verb, spec.url.value, spec.body.value)
  {
    assert StatusesBefore(judge, hops, 0) == [];
  }

  /** The number of exchanges: never more than the limit allows, and as many where every reply is a redirect that can be followed. */
  lemma ExchangesMade(judge: Bytes -> Egress.Verdict, spec: Spec, defaultMax: int, hops: nat -> Hop,
                      resolve: (string, string) -> Option<string>, sent: seq<Sent>, out: Option<ResponseResult>)
    requires spec.url.Some? && spec.body.Some? && Story(judge, spec, defaultMax, hops, resolve, sent, out)
    ensures
      var most := 1 + (if !spec.followRedirects then 0 else if spec.maxRedirects > 0 then spec.maxRedirects else 10);
      && 0 < |sent| <= most
      && ((forall k :: 0 <= k < most ==> Onward(judge, hops, resolve, k)) ==> |sent| == most)
  {
    var k := |sent| - 1;
    if Onward(judge, hops, resolve, k) {
      FollowedIff(spec, ReplyAt(judge, hops, k).status, k);
      var r := ReplyAt(judge, hops, k);
      assert resolve(sent[k].url, r.location).Some?;
    }
  }

  /** Hop `k` replies with a redirect to a place that every URL leads to. */
  ghost predicate Onward(judge: Bytes -> Egress.Verdict, hops: nat -> Hop, resolve: (string, string) -> Option<string>, k: nat) {
    var r := ReplyAt(judge, hops, k);
    && Exchange(judge, hops(k)).Got? && r.status in {301, 302, 303, 307, 308} && r.location != ""
    && forall url :: resolve(url, r.location).Some?
  }

  /** The body of a complete reply: the request's own cap counts if it is positive, the engine's otherwise. */
  lemma TerminalBody(spec: Spec, defaultMax: int, r: Reply, chain: seq<RedirectHop>)
    requires |r.body| <= r.arrived && spec.maxBody < MAX_INT64 && 0 <= defaultMax < MAX_INT64
    ensures
      var cap := if spec.maxBody > 0 then spec.maxBody else defaultMax;
      Terminal(spec, defaultMax, r, chain) ==
        if cap < |r.body| then Some(ResponseResult(spec.id, r.status, r.body[..cap], true, chain, None))
        else Some(ResponseResult(spec.id, r.status, r.body, false, chain, None))
  {
    CapIsExactIff(if spec.maxBody > 0 then spec.maxBody else defaultMax, r);
  }

  /** What a failure is called, told from what is found in its error chain: the first that applies. */
  lemma KindOfFailure(n: NetError)
    ensures
      var e := Classify(Failed(n));
      && (e.kind == Dns <==> n.dns.Some?)
      && (e.kind == Tls <==> n.dns.None? && (n.certificate || n.record))
      && (e.kind == Timeout <==> n.dns.None? && !n.certificate && !n.record && n.timeout)
      && (e.kind == Connect <==> n.dns.None? && !n.certificate && !n.record && !n.timeout && n.op)
      && (e.kind == Http <==> n.dns.None? && !n.certificate && !n.record && !n.timeout && !n.op)
      && e.message == n.text
      && (e.retryable <==> n.dns == Some(true) || e.kind == Timeout || e.kind == Connect)
  {
  }

  /** A denial and an empty list of addresses are not worth a retry. */
  lemma KindOfRefusal(v: Egress.Verdict)
    ensures Classify(Denied(v)).kind == Blocked && !Classify(Denied(v)).retryable
    ensures Classify(NoAddresses).kind == Http && !Classify(NoAddresses).retryable
  {
  }

  // ------------------------------------------------------------------------------------------
  // What a finished request promises

  /**
   * No address the policy denies is dialed on any hop, none that it permits is passed over, and
   * only the last one dialed on a hop can have connected.
   */
  lemma OnlyPermittedAreDialed(judge: Bytes -> Egress.Verdict, hops: nat -> Hop, dialed: seq<seq<Bytes>>, k: nat, i: nat)
    requires Contained(judge, hops, dialed) && k < |dialed| && i < |dialed[k]|
    ensures judge(dialed[k][i]).Allowed? && dialed[k][i] in hops(k).ips
    ensures dialed[k][i] == Candidates(judge, hops(k).ips)[i]
    ensures hops(k).connects(i).None? ==> i == |dialed[k]| - 1
  {
    assert HopDials(judge, hops(k), dialed[k]);
    CandidatesAreThePermitted(judge, hops(k).ips, dialed[k][i]);
  }

  /**
   * The result answers the request, records at most `Limit` hops, and has either an error and
   * status zero with no body, or no error and the status of the last reply.
   */
  lemma ErrorOrStatus(judge: Bytes -> Egress.Verdict, spec: Spec, defaultMax: int, hops: nat -> Hop,
                      resolve: (string, string) -> Option<string>, sent: seq<Sent>, out: Option<ResponseResult>)
    requires spec.url.Some? && spec.body.Some? && Story(judge, spec, defaultMax, hops, resolve, sent, out) && out.Some?
    ensures out.value.requestId == spec.id && |out.value.chain| <= Limit(spec)
    ensures forall k :: 0 <= k < |out.value.chain| ==> out.value.chain[k].url == sent[k].url
    ensures out.value.error.Some? ==> out.value.status == 0 && out.value.body == []
    ensures out.value.error.None? ==>
      var last := Exchange(judge, hops(|sent| - 1));
      last.Got? && out.value.status == last.r.status && !Follows(spec, last.r.status, |sent| - 1)
  {
    var k := |sent| - 1;
    assert |ChainUpTo(judge, hops, sent[..k])| == k;
  }

  /** What the agent calls blocked: a lookup that worked, no connection, and a last address the policy denies. */
  lemma BlockedIff(judge: Bytes -> Egress.Verdict, h: Hop)
    requires Exchange(judge, h).Broke?
    ensures Classify(Exchange(judge, h).e).kind == Blocked <==>
      && h.lookup.None? && DialOutcome(judge, h.ips, h.connects).Some?
      && h.ips != [] && !judge(h.ips[|h.ips| - 1]).Allowed?
  {
    if h.lookup.None? && h.ips != [] && DialOutcome(judge, h.ips, h.connects).Some? {
      DeniedIffLastIsDenied(judge, h.ips, h.connects);
    }
  }

  /**
   * Exactly when a method other than GET and HEAD ends up as a GET that carries the original body:
   * some redirect turned it into GET, and the last one was a 307 or 308. The code hands the
   * original body to every redirect, not the one just sent.
   */
  lemma GetCarriesBodyIff(verb: string, body: Body, history: seq<int>)
    requires verb != "GET" && verb != "HEAD" && body != []
    ensures (MethodAfter(verb, history) == "GET" && BodyAfter(body, history) != []) <==>
      && history != [] && KeepsRequest(history[|history| - 1])
      && exists j :: 0 <= j < |history| && !KeepsRequest(history[j])
  {
  }

  /** Along this history a body that was dropped once stays dropped. */
  ghost predicate StaysDropped(body: Body, history: seq<int>) {
    forall i, j :: 0 <= i <= j <= |history| && BodyAfter(body, history[..i]) == [] ==> BodyAfter(body, history[..j]) == []
  }

  /** Exactly when it does: no 307 or 308 comes later than a 301, 302 or 303. */
  lemma StaysDroppedIff(body: Body, history: seq<int>)
    requires body != []
    ensures StaysDropped(body, history) <==>
      forall i, j :: 0 <= i < j < |history| && !KeepsRequest(history[i]) ==> !KeepsRequest(history[j])
  {
    if StaysDropped(body, history) {
      forall i, j | 0 <= i < j < |history| && !KeepsRequest(history[i]) ensures !KeepsRequest(history[j]) {
        assert history[..i + 1][i] == history[i] && history[..j + 1][j] == history[j];
        assert BodyAfter(body, history[..i + 1]) == [];
        assert BodyAfter(body, history[..j + 1]) == [];
      }
    } else {
      var i, j :| 0 <= i <= j <= |history| && BodyAfter(body, history[..i]) == [] && BodyAfter(body, history[..j]) != [];
      assert history[..i][i - 1] == history[i - 1] && history[..j][j - 1] == history[j - 1];
      assert i - 1 < j - 1;
    }
  }

  /** A POST redirected by a 302 and then a 307: the third exchange is a GET with the body of the POST. */
  lemma DroppedBodyComesBack(body: Body)
    requires body != []
    ensures MethodAfter("POST", [302]) == "GET" && BodyAfter(body, [302]) == []
    ensures MethodAfter("POST", [302, 307]) == "GET" && BodyAfter(body, [302, 307]) == body
  {
    assert "POST"[0] != "GET"[0] && "POST"[0] != "HEAD"[0];
    assert !KeepsRequest([302][0]) && !KeepsRequest([302, 307][0]);
  }
}
