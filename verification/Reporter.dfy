/** The jittered delay between delivery attempts, in the 64-bit nanoseconds it is computed in. */
module Backoff {
  import opened Numbers
  import opened Text

  const MILLISECOND := 1_000_000
  const CEILING := 8_000_000_000

  /** `1 << k` in 64 bits. */
  function Shift(k: nat): int {
    if k >= 64 then 0 else Wrap64(Pow2(k))
  }

  function RawBase(attempt: nat): int
    requires attempt >= 1
  {
    Wrap64(250 * MILLISECOND * Shift(attempt - 1))
  }

  /** `None` is the panic of a random number drawn below a bound that is not positive. */
  function Delay(attempt: nat, jitter: nat): Option<int>
    requires attempt >= 1
  {
    var raw := RawBase(attempt);
    var base := if raw > CEILING then CEILING else raw;
    if base < 2 then None else Some(base / 2 + jitter % (base / 2))
  }

  /** 250 ms doubled with each attempt, up to 8 s. */
  function Window(attempt: nat): nat
    requires attempt >= 1
  {
    250 * MILLISECOND * Pow2(Min(attempt - 1, 5))
  }

  lemma PowerTable()
    ensures Pow2(5) == 32 && Pow2(6) == 64 && Pow2(16) == 0x1_0000 && Pow2(20) == 0x10_0000
    ensures Pow2(32) == 0x1_0000_0000 && Pow2(35) == 0x8_0000_0000
  {
    assert Pow2(8) == 256 && Pow2(12) == 4096;
    assert Pow2(16) == 0x1_0000;
    assert Pow2(20) == 0x10_0000;
    assert Pow2(24) == 0x100_0000;
    assert Pow2(28) == 0x1000_0000;
    assert Pow2(32) == 0x1_0000_0000;
  }

  lemma HighPowers()
    ensures Pow2(63) == 0x8000_0000_0000_0000 && Pow2(7) == 128 && Pow2(43) > CEILING
  {
    PowerTable();
    Pow2Adds(32, 32);
    assert Pow2(64) == 2 * Pow2(63);
    Pow2Adds(35, 8);
    assert Pow2(7) == 128 && Pow2(8) == 256;
  }

  lemma WrapWithin(n: int)
    requires -0x8000_0000_0000_0000 <= n < 0x8000_0000_0000_0000
    ensures Wrap64(n) == n
  {
  }

  lemma WrapPeriod(n: int, h: int)
    requires -0x8000_0000_0000_0000 <= n < 0x8000_0000_0000_0000
    ensures Wrap64(n + h * 0x1_0000_0000_0000_0000) == n
  {
  }

  lemma ShiftFits(k: nat)
    requires k < 63
    ensures Shift(k) == Pow2(k)
  {
    HighPowers();
    PowersGrow(k, 62);
    assert Pow2(63) == 2 * Pow2(62);
    WrapWithin(Pow2(k));
  }

  lemma RawBaseFits(attempt: nat)
    requires 1 <= attempt <= 36
    ensures RawBase(attempt) == 250 * MILLISECOND * Pow2(attempt - 1)
  {
    ShiftFits(attempt - 1);
    PowerTable();
    PowersGrow(attempt - 1, 35);
    QuarterFits(Pow2(attempt - 1));
  }

  lemma QuarterFits(p: nat)
    requires p <= 0x8_0000_0000
    ensures Wrap64(250 * MILLISECOND * p) == 250 * MILLISECOND * p
  {
    WrapWithin(250 * MILLISECOND * p);
  }

  lemma ClippedAtCeiling(attempt: nat)
    requires attempt >= 1
    ensures
      var raw := 250 * MILLISECOND * Pow2(attempt - 1);
      (if raw > CEILING then CEILING else raw) == Window(attempt)
  {
    PowerTable();
    if attempt >= 7 {
      PowersGrow(6, attempt - 1);
    }
  }

  lemma HalfPlusJitter(base: int, jitter: nat)
    requires base >= 2 && base % 2 == 0
    ensures base / 2 <= base / 2 + jitter % (base / 2) < base
  {
  }

  lemma WindowIsEven(attempt: nat)
    requires attempt >= 1
    ensures Window(attempt) % 2 == 0 && Window(attempt) >= 250 * MILLISECOND
  {
    assert Window(attempt) == 2 * (125 * MILLISECOND * Pow2(Min(attempt - 1, 5)));
  }

  /** Bit `i` of 5^9; 250 ms are 2^7 * 5^9 ns. */
  predicate BitOfFifths(i: nat) {
    (1_953_125 / Pow2(i)) % 2 == 1
  }

  /** After 36 the product overflows, and its sign is the bit of 5^9 that the shift moves to the top. */
  predicate Overflows(attempt: nat) {
    attempt >= 58 || (37 <= attempt && BitOfFifths(57 - attempt))
  }

  lemma OverflowedBase(m: nat)
    requires m <= 20
    ensures RawBase(57 - m) < 0 <==> BitOfFifths(m)
    ensures RawBase(57 - m) < 0 || RawBase(57 - m) > CEILING
  {
    TopSplit(m);
    OddRemainder(m);
    RawProduct(m);
    SignOfProduct(1_953_125, Pow2(m), Pow2(63 - m));
  }

  lemma TopSplit(m: nat)
    requires m <= 20
    ensures Pow2(m) * Pow2(63 - m) == 0x8000_0000_0000_0000 && Pow2(63 - m) > CEILING
  {
    HighPowers();
    Pow2Adds(m, 63 - m);
    assert m + (63 - m) == 63;
    PowersGrow(43, 63 - m);
  }

  lemma SignOfProduct(n: nat, low: nat, high: nat)
    requires low > 0 && high > CEILING && low * high == 0x8000_0000_0000_0000
    ensures Wrap64(n * high) < 0 <==> (n / low) % 2 == 1
    ensures n % low > 0 && Wrap64(n * high) >= 0 ==> Wrap64(n * high) > CEILING
  {
    var q, l := n / low, n % low;
    assert n == low * q + l;
    SplitProduct(n, low, q, l, high, 0x8000_0000_0000_0000);
    LowPart(l, low, high);
    WrapHalves(q, l * high);
  }

  lemma RawProduct(m: nat)
    requires m <= 20
    ensures RawBase(57 - m) == Wrap64(1_953_125 * Pow2(63 - m))
  {
    var p := Pow2(56 - m);
    ShiftFits(56 - m);
    Pow2Adds(7, 56 - m);
    assert 7 + (56 - m) == 63 - m;
    SevenMore(p);
  }

  lemma SevenMore(p: nat)
    ensures Pow2(7) == 128 && 250 * MILLISECOND * p == 1_953_125 * (Pow2(7) * p)
  {
    assert Pow2(7) == 128;
  }

  lemma LowPart(l: nat, low: nat, high: nat)
    requires l < low
    ensures l * high <= low * high - high
    ensures l > 0 ==> l * high >= high
  {
    assert (l + 1) * high <= low * high;
  }

  lemma WrapHalves(q: nat, rest: nat)
    requires rest < 0x8000_0000_0000_0000
    ensures Wrap64(0x8000_0000_0000_0000 * q + rest) == if q % 2 == 0 then rest else rest - 0x8000_0000_0000_0000
  {
    if q % 2 == 0 {
      WrapPeriod(rest, q / 2);
    } else {
      WrapPeriod(rest - 0x8000_0000_0000_0000, q / 2 + 1);
    }
  }

  lemma SplitProduct(n: nat, low: nat, q: nat, l: nat, high: nat, half: nat)
    requires n == low * q + l && low * high == half
    ensures n * high == half * q + l * high
  {
    assert (low * q) * high == (low * high) * q;
    assert (low * q + l) * high == (low * q) * high + l * high;
  }

  /** 5^9 is odd, so only its lowest bit leaves nothing below. */
  lemma OddRemainder(m: nat)
    ensures 1_953_125 == Pow2(m) * (1_953_125 / Pow2(m)) + 1_953_125 % Pow2(m)
    ensures m > 0 ==> 1_953_125 % Pow2(m) > 0
    ensures m == 0 ==> BitOfFifths(m)
  {
    if m > 0 {
      var q := 1_953_125 / Pow2(m);
      assert Pow2(m) * q == 2 * (Pow2(m - 1) * q);
    }
  }

  lemma EverythingShiftedOut(attempt: nat)
    requires attempt >= 58
    ensures RawBase(attempt) == 0
  {
    var k := attempt - 1;
    if k < 63 {
      ShiftFits(k);
      FifthsTimesPeriod(k - 57);
    } else if k == 63 {
      HighPowers();
      assert Shift(63) == -0x8000_0000_0000_0000;
      WrapPeriod(0, -125 * MILLISECOND);
    } else {
      WrapWithin(0);
    }
  }

  lemma FifthsTimesPeriod(j: nat)
    ensures Wrap64(250 * MILLISECOND * Pow2(57 + j)) == 0
  {
    Pow2Adds(57, j);
    TopSplit(6);
    HighPowers();
    PowerTable();
    WrapPeriod(0, 1_953_125 * Pow2(j));
    SevenMore(Pow2(57) * Pow2(j));
    assert 0x100_0000_0000_0000 * 2 == 0x200_0000_0000_0000 == Pow2(57);
    assert 128 * (Pow2(57) * Pow2(j)) == 0x1_0000_0000_0000_0000 * Pow2(j);
  }

  /**
   * For every attempt: the delay either lies in the upper half of its window, or the draw panics,
   * and it panics exactly when the 64-bit product overflows to something that is not positive.
   */
  lemma DelayInWindowOrOverflow(attempt: nat, jitter: nat)
    requires attempt >= 1
    ensures Delay(attempt, jitter).None? <==> Overflows(attempt)
    ensures Delay(attempt, jitter).Some? ==> Window(attempt) / 2 <= Delay(attempt, jitter).value < Window(attempt)
    ensures attempt <= 36 ==> Delay(attempt, jitter).Some?
  {
    PowerTable();
    WindowIsEven(attempt);
    if attempt <= 36 {
      RawBaseFits(attempt);
      ClippedAtCeiling(attempt);
      HalfPlusJitter(Window(attempt), jitter);
    } else if attempt <= 57 {
      OverflowedBase(57 - attempt);
      assert Window(attempt) == CEILING;
      HalfPlusJitter(CEILING, jitter);
    } else {
      EverythingShiftedOut(attempt);
    }
  }

  /** The whole upper half of the window is drawn from. */
  lemma EveryDelayIsDrawn(attempt: nat, delay: int)
    requires attempt >= 1 && !Overflows(attempt) && Window(attempt) / 2 <= delay < Window(attempt)
    ensures Delay(attempt, delay - Window(attempt) / 2) == Some(delay)
  {
    PowerTable();
    WindowIsEven(attempt);
    if attempt <= 36 {
      RawBaseFits(attempt);
      ClippedAtCeiling(attempt);
    } else {
      OverflowedBase(57 - attempt);
      assert Window(attempt) == CEILING;
    }
    BelowHalf(Window(attempt), delay);
  }

  lemma BelowHalf(base: int, delay: int)
    requires base >= 2 && base % 2 == 0 && base / 2 <= delay < base
    ensures base / 2 + (delay - base / 2) % (base / 2) == delay
  {
  }
}

/** Delivering a sealed result: retries, the diversion of large results, the fallback to HTTP. */
module Delivery {
  import opened Numbers
  import opened Text
  import opened Backoff

  type Sealed = seq<bv8>

  datatype Transport = Unset | Channel | Http | Unknown

  datatype Settings = Settings(
    transport: Transport, channel: string, resultUrl: string, inlineMax: int, publisher: bool, retries: int)

  datatype ReturnSpec = ReturnSpec(transport: Transport, channel: string, url: string, inlineMax: int)

  datatype PostOutcome = NetworkFailed | Status(code: int)

  predicate Accepted(o: PostOutcome) {
    o.Status? && 200 <= o.code < 300
  }

  /** Not worth a retry. */
  predicate Refused(o: PostOutcome) {
    o.Status? && 400 <= o.code < 500 && o.code != 429
  }

  /**
   * How one delivery meets the world, attempt by attempt: the outcomes of publishing and of
   * posting, the delays drawn before attempt `k` (`None` for the panic), after how many
   * nanoseconds that nap is interrupted (`None` if it is not), and whether the URL makes a request
   * at all.
   */
  datatype World = World(
    published: nat -> bool, posted: nat -> PostOutcome,
    publishDelay: nat -> Option<int>, postDelay: nat -> Option<int>,
    publishCut: nat -> Option<nat>, postCut: nat -> Option<nat>, builds: bool)

  datatype Act = Publish(channel: string, payload: Sealed) | Post(url: string, payload: Sealed) | Sleep(ns: int)

  datatype Result = Delivered | NotDelivered | Panicked

  function Slept(delay: Option<int>): seq<Act> {
    if delay.Some? then [Sleep(delay.value)] else []
  }

  /** A nap that ends early. */
  function CutShort(delay: Option<int>, cut: Option<nat>): seq<Act> {
    if delay.Some? && cut.Some? then [Sleep(Min(cut.value, delay.value))] else []
  }

  /** `n` posts of the same bytes with the naps between them. */
  function Posts(w: World, url: string, sealed: Sealed, n: nat): seq<Act> {
    if n == 0 then []
    else if n == 1 then [Post(url, sealed)]
    else Posts(w, url, sealed, n - 1) + Slept(w.postDelay(n - 1)) + [Post(url, sealed)]
  }

  function Publishes(w: World, channel: string, sealed: Sealed, n: nat): seq<Act> {
    if n == 0 then []
    else if n == 1 then [Publish(channel, sealed)]
    else Publishes(w, channel, sealed, n - 1) + Slept(w.publishDelay(n - 1)) + [Publish(channel, sealed)]
  }

  predicate Retryable(o: PostOutcome) {
    !Accepted(o) && !Refused(o)
  }

  /** The first `n` posts could all be retried, and the nap after each was slept to its end. */
  predicate PostsGoOn(w: World, n: nat) {
    forall k :: 0 <= k < n ==> Retryable(w.posted(k)) && w.postDelay(k + 1).Some? && w.postCut(k + 1).None?
  }

  lemma OneMorePost(w: World, n: nat)
    requires n > 0 && PostsGoOn(w, n - 1) && Retryable(w.posted(n - 1))
    requires w.postDelay(n).Some? && w.postCut(n).None?
    ensures PostsGoOn(w, n)
  {
    forall k | 0 <= k < n
      ensures Retryable(w.posted(k)) && w.postDelay(k + 1).Some? && w.postCut(k + 1).None?
    {
      assert k < n - 1 || k + 1 == n;
    }
  }

  /** The nap after the last of `n` posts, if it was cut short. */
  function PostTail(w: World, retries: int, n: nat): seq<Act> {
    if 0 < n < retries && Retryable(w.posted(n - 1)) then CutShort(w.postDelay(n), w.postCut(n)) else []
  }

  function PublishTail(w: World, retries: int, n: nat): seq<Act> {
    if 0 < n < retries && !w.published(n - 1) then CutShort(w.publishDelay(n), w.publishCut(n)) else []
  }

  function PostTrace(w: World, url: string, retries: int, sealed: Sealed, n: nat): seq<Act> {
    Posts(w, url, sealed, n) + PostTail(w, retries, n)
  }

  function PublishTrace(w: World, channel: string, retries: int, sealed: Sealed, n: nat): seq<Act> {
    Publishes(w, channel, sealed, n) + PublishTail(w, retries, n)
  }

  lemma OneMorePublish(w: World, n: nat)
    requires n > 0 && PublishesGoOn(w, n - 1) && !w.published(n - 1)
    requires w.publishDelay(n).Some? && w.publishCut(n).None?
    ensures PublishesGoOn(w, n)
  {
    forall k | 0 <= k < n
      ensures !w.published(k) && w.publishDelay(k + 1).Some? && w.publishCut(k + 1).None?
    {
      assert k < n - 1 || k + 1 == n;
    }
  }

  predicate PublishesGoOn(w: World, n: nat) {
    forall k :: 0 <= k < n ==> !w.published(k) && w.publishDelay(k + 1).Some? && w.publishCut(k + 1).None?
  }

  /**
   * `n` posts and result `r` belong together: every post but the last was retried after a nap;
   * the result is delivered iff the last post was accepted; if it is not, that post was refused,
   * or the retries are used up, or the next nap panicked or was interrupted.
   */
  predicate PostsEnd(w: World, url: string, retries: int, n: nat, r: Result) {
    if url == "" || !w.builds then n == 0 && r.NotDelivered?
    else
      && 0 < n <= retries && PostsGoOn(w, n - 1)
      && r == (if Accepted(w.posted(n - 1)) then Delivered
               else if Refused(w.posted(n - 1)) || n == retries then NotDelivered
               else if w.postDelay(n).None? then Panicked
               else NotDelivered)
      && (Retryable(w.posted(n - 1)) && n < retries ==> w.postDelay(n).None? || w.postCut(n).Some?)
  }

  /** The same for publishing, up to the point where the loop gives up; `None` means it ran through. */
  predicate PublishesEnd(w: World, retries: int, n: nat, r: Option<Result>) {
    && 0 < n <= retries && PublishesGoOn(w, n - 1)
    && r == (if w.published(n - 1) then Some(Delivered)
             else if n == retries then None
             else if w.publishDelay(n).None? then Some(Panicked)
             else Some(NotDelivered))
    && (!w.published(n - 1) && n < retries ==> w.publishDelay(n).None? || w.publishCut(n).Some?)
  }

  /** How the publishing loop ends after its `n`-th attempt. */
  lemma PublishOutcome(w: World, retries: int, n: nat)
    requires 0 < n <= retries && PublishesGoOn(w, n - 1)
    ensures w.published(n - 1) ==> PublishesEnd(w, retries, n, Some(Delivered)) && PublishTail(w, retries, n) == []
    ensures !w.published(n - 1) && n == retries ==> PublishesEnd(w, retries, n, None) && PublishTail(w, retries, n) == []
    ensures !w.published(n - 1) && n < retries && w.publishDelay(n).None? ==>
      PublishesEnd(w, retries, n, Some(Panicked)) && PublishTail(w, retries, n) == []
    ensures !w.published(n - 1) && n < retries && w.publishDelay(n).Some? && w.publishCut(n).Some? ==>
      && PublishesEnd(w, retries, n, Some(NotDelivered))
      && PublishTail(w, retries, n) == CutShort(w.publishDelay(n), w.publishCut(n))
  {
  }

  function FirstNonEmpty(a: string, b: string): string {
    if a != "" then a else b
  }

  class Reporter {
    const cfg: Settings

    constructor (cfg: Settings)
      ensures this.cfg.retries > 0 && this.cfg.inlineMax > 0
      ensures cfg.retries > 0 ==> this.cfg.retries == cfg.retries
      ensures cfg.inlineMax > 0 ==> this.cfg.inlineMax == cfg.inlineMax
      ensures cfg.retries <= 0 ==> this.cfg.retries == 4
      ensures cfg.inlineMax <= 0 ==> this.cfg.inlineMax == 204_800
      ensures this.cfg.(retries := cfg.retries, inlineMax := cfg.inlineMax) == cfg
    {
      var inlineMax, retries := cfg.inlineMax, cfg.retries;
      if inlineMax <= 0 {
        inlineMax := 200 * 1024;
      }
      if retries <= 0 {
        retries := 4;
      }
      this.cfg := cfg.(inlineMax := inlineMax, retries := retries);
    }

    /** Posts with retries. Like its callers it also returns its trace: the acts, and how many of them were attempts. */
    method PostHttp(w: World, url: string, sealed: Sealed) returns (r: Result, acts: seq<Act>, n: nat)
      requires cfg.retries > 0
      ensures acts == PostTrace(w, url, cfg.retries, sealed, n)
      ensures PostsEnd(w, url, cfg.retries, n, r)
    {
      acts, n := [], 0;
      if url == "" {
        return NotDelivered, acts, n;
      }
      for attempt := 0 to cfg.retries
        invariant n == attempt && acts == Posts(w, url, sealed, n)
        invariant n > 0 ==> w.builds && PostsGoOn(w, n - 1) && Retryable(w.posted(n - 1))
      {
        var nap := [];
        if attempt > 0 {
          var d := w.postDelay(attempt);
          if d.None? {
            return Panicked, acts, n;
          }
          if w.postCut(attempt).Some? {
            acts := acts + CutShort(d, w.postCut(attempt));
            return NotDelivered, acts, n;
          }
          nap := [Sleep(d.value)];
          OneMorePost(w, attempt);
        }
        if !w.builds {
          return NotDelivered, acts, n;
        }
        acts := acts + nap + [Post(url, sealed)];
        n := n + 1;
        var o := w.posted(attempt);
        if o.NetworkFailed? {
          continue;
        }
        if 200 <= o.code < 300 {
          return Delivered, acts, n;
        }
        if o.code >= 400 && o.code < 500 && o.code != 429 {
          return NotDelivered, acts, n;
        }
      }
      return NotDelivered, acts, n;
    }

    /** Publishes with retries; when all of them failed, posts to the agent's own result URL if it has one. */
    method PublishChannel(w: World, channel: string, sealed: Sealed)
      returns (r: Result, acts: seq<Act>, p: nat, n: nat)
      requires cfg.retries > 0
      ensures acts == PublishTrace(w, channel, cfg.retries, sealed, p) + PostTrace(w, cfg.resultUrl, cfg.retries, sealed, n)
      ensures !cfg.publisher || channel == "" ==> p == 0 && n == 0 && r.NotDelivered?
      ensures cfg.publisher && channel != "" ==>
        || (n == 0 && PublishesEnd(w, cfg.retries, p, Some(r)))
        || (PublishesEnd(w, cfg.retries, p, None) && PostsEnd(w, cfg.resultUrl, cfg.retries, n, r))
    {
      acts, p, n := [], 0, 0;
      if !cfg.publisher {
        return NotDelivered, acts, p, n;
      }
      if channel == "" {
        return NotDelivered, acts, p, n;
      }
      for attempt := 0 to cfg.retries
        invariant p == attempt && n == 0 && acts == Publishes(w, channel, sealed, p)
        invariant p > 0 ==> PublishesGoOn(w, p - 1) && !w.published(p - 1)
      {
        var nap := [];
        if attempt > 0 {
          var d := w.publishDelay(attempt);
          PublishOutcome(w, cfg.retries, p);
          if d.None? {
            return Panicked, acts, p, n;
          }
          if w.publishCut(attempt).Some? {
            acts := acts + CutShort(d, w.publishCut(attempt));
            return NotDelivered, acts, p, n;
          }
          nap := [Sleep(d.value)];
          OneMorePublish(w, attempt);
        }
        acts := acts + nap + [Publish(channel, sealed)];
        p := p + 1;
        if w.published(attempt) {
          PublishOutcome(w, cfg.retries, p);
          return Delivered, acts, p, n;
        }
      }
      PublishOutcome(w, cfg.retries, p);
      if cfg.resultUrl != "" {
        var posts;
        r, posts, n := PostHttp(w, cfg.resultUrl, sealed);
        acts := acts + posts;
        return;
      }
      return NotDelivered, acts, p, n;
    }

    /**
     * Delivers sealed bytes (`None` if sealing failed). At most `retries` publishes come before at
     * most `retries` posts, all of the same bytes; `PublishesEnd` and `PostsEnd` say when each loop
     * stops and what the result is.
     */
    method Report(w: World, spec: ReturnSpec, sealing: Option<Sealed>)
      returns (r: Result, acts: seq<Act>, p: nat, n: nat)
      requires cfg.retries > 0
      ensures sealing.None? ==> acts == [] && r.NotDelivered? && p == n == 0
      ensures sealing.Some? ==> Reported(cfg, w, spec, sealing.value, r, acts, p, n)
    {
      r, acts, p, n := NotDelivered, [], 0, 0;
      var transport := if spec.transport.Unset? then cfg.transport else spec.transport;
      var inlineMax := if spec.inlineMax <= 0 then cfg.inlineMax else spec.inlineMax;
      if sealing.None? {
        return;
      }
      var sealed := sealing.value;
      match transport {
        case Http =>
          r, acts, n := PostHttp(w, FirstNonEmpty(spec.url, cfg.resultUrl), sealed);
        case Unknown =>
        case _ =>
          if |sealed| > inlineMax {
            var url := FirstNonEmpty(spec.url, cfg.resultUrl);
            if url != "" {
              r, acts, n := PostHttp(w, url, sealed);
              return;
            }
          }
          r, acts, p, n := PublishChannel(w, FirstNonEmpty(spec.channel, cfg.channel), sealed);
      }
    }
  }

  /** The route a result takes. */
  datatype Route = ByHttp(url: string) | ByChannel(channel: string) | NoRoute

  function RouteOf(cfg: Settings, spec: ReturnSpec, size: nat): Route {
    var transport := if spec.transport.Unset? then cfg.transport else spec.transport;
    var inlineMax := if spec.inlineMax <= 0 then cfg.inlineMax else spec.inlineMax;
    var url := FirstNonEmpty(spec.url, cfg.resultUrl);
    if transport.Unknown? then NoRoute
    else if transport.Http? || (size > inlineMax && url != "") then ByHttp(url)
    else ByChannel(FirstNonEmpty(spec.channel, cfg.channel))
  }

  /** The job's own URL and channel go before the agent's, a large result takes HTTP if there is a URL, and an unknown transport nothing. */
  lemma JobsOwnRouteFirst(cfg: Settings, spec: ReturnSpec, size: nat)
    ensures
      var large := size > if spec.inlineMax > 0 then spec.inlineMax else cfg.inlineMax;
      var url := if spec.url != "" then spec.url else cfg.resultUrl;
      var channel := if spec.channel != "" then spec.channel else cfg.channel;
      var transport := if spec.transport == Unset then cfg.transport else spec.transport;
      && (transport == Http ==> RouteOf(cfg, spec, size) == ByHttp(url))
      && (transport in {Channel, Unset} && large && url != "" ==> RouteOf(cfg, spec, size) == ByHttp(url))
      && (transport in {Channel, Unset} && (!large || url == "") ==> RouteOf(cfg, spec, size) == ByChannel(channel))
      && (transport == Unknown ==> RouteOf(cfg, spec, size) == NoRoute)
  {
  }

  /** Of the statuses, 2xx deliver, 4xx but 429 end the attempts, and everything else is retried, 429, 3xx and 5xx included. */
  lemma StatusesInNumbers(code: int)
    ensures Accepted(Status(code)) <==> 200 <= code <= 299
    ensures Refused(Status(code)) <==> 400 <= code <= 499 && code != 429
    ensures code == 429 || 300 <= code <= 399 || 500 <= code <= 599 ==> Retryable(Status(code))
    ensures Retryable(NetworkFailed)
  {
  }

  /** What `Report` did, from its trace: `p` publishes, then `n` posts. */
  predicate Reported(cfg: Settings, w: World, spec: ReturnSpec, sealed: Sealed, r: Result, acts: seq<Act>, p: nat, n: nat) {
    match RouteOf(cfg, spec, |sealed|)
    case NoRoute => acts == [] && p == n == 0 && r.NotDelivered?
    case ByHttp(url) => p == 0 && acts == PostTrace(w, url, cfg.retries, sealed, n) && PostsEnd(w, url, cfg.retries, n, r)
    case ByChannel(channel) =>
      && acts == PublishTrace(w, channel, cfg.retries, sealed, p) + PostTrace(w, cfg.resultUrl, cfg.retries, sealed, n)
      && if !cfg.publisher || channel == "" then p == 0 && n == 0 && r.NotDelivered?
         else
           || (n == 0 && PublishesEnd(w, cfg.retries, p, Some(r)))
           || (PublishesEnd(w, cfg.retries, p, None) && PostsEnd(w, cfg.resultUrl, cfg.retries, n, r))
  }

  // ------------------------------------------------------------------------------------------
  // The trace of attempts

  function Count(acts: seq<Act>, f: Act -> bool): nat {
    if acts == [] then 0 else Count(acts[..|acts| - 1], f) + (if f(acts[|acts| - 1]) then 1 else 0)
  }

  function TotalSleep(acts: seq<Act>): int {
    if acts == [] then 0
    else TotalSleep(acts[..|acts| - 1]) + (if acts[|acts| - 1].Sleep? then acts[|acts| - 1].ns else 0)
  }

  const IS_POST := (a: Act) => a.Post?
  const IS_PUBLISH := (a: Act) => a.Publish?

  lemma {:induction false} SplitTotals(xs: seq<Act>, ys: seq<Act>, f: Act -> bool)
    ensures Count(xs + ys, f) == Count(xs, f) + Count(ys, f)
    ensures TotalSleep(xs + ys) == TotalSleep(xs) + TotalSleep(ys)
  {
    if ys == [] {
      assert xs + ys == xs;
    } else {
      assert (xs + ys)[..|xs + ys| - 1] == xs + ys[..|ys| - 1];
      SplitTotals(xs, ys[..|ys| - 1], f);
    }
  }

  lemma OneAct(a: Act, f: Act -> bool)
    ensures Count([a], f) == (if f(a) then 1 else 0) && TotalSleep([a]) == (if a.Sleep? then a.ns else 0)
  {
    assert [a][..0] == [];
  }

  predicate Carries(acts: seq<Act>, sealed: Sealed) {
    forall a :: a in acts ==> (a.Post? ==> a.payload == sealed) && (a.Publish? ==> a.payload == sealed)
  }

  lemma {:induction false} PostsMade(w: World, url: string, sealed: Sealed, n: nat)
    ensures Count(Posts(w, url, sealed, n), IS_POST) == n && Count(Posts(w, url, sealed, n), IS_PUBLISH) == 0
    ensures Carries(Posts(w, url, sealed, n), sealed)
  {
    OneAct(Post(url, sealed), IS_POST);
    OneAct(Post(url, sealed), IS_PUBLISH);
    if n > 1 {
      PostsMade(w, url, sealed, n - 1);
      var before, nap := Posts(w, url, sealed, n - 1), Slept(w.postDelay(n - 1));
      forall f | f == IS_POST || f == IS_PUBLISH
        ensures Count(Posts(w, url, sealed, n), f) == Count(before, f) + Count(nap, f) + Count([Post(url, sealed)], f)
      {
        SplitTotals(before + nap, [Post(url, sealed)], f);
        SplitTotals(before, nap, f);
      }
      NapCountsNothing(w.postDelay(n - 1));
    }
  }

  lemma {:induction false} PublishesMade(w: World, channel: string, sealed: Sealed, n: nat)
    ensures Count(Publishes(w, channel, sealed, n), IS_PUBLISH) == n && Count(Publishes(w, channel, sealed, n), IS_POST) == 0
    ensures Carries(Publishes(w, channel, sealed, n), sealed)
  {
    OneAct(Publish(channel, sealed), IS_POST);
    OneAct(Publish(channel, sealed), IS_PUBLISH);
    if n > 1 {
      PublishesMade(w, channel, sealed, n - 1);
      var before, nap := Publishes(w, channel, sealed, n - 1), Slept(w.publishDelay(n - 1));
      forall f | f == IS_POST || f == IS_PUBLISH
        ensures Count(Publishes(w, channel, sealed, n), f) == Count(before, f) + Count(nap, f) + Count([Publish(channel, sealed)], f)
      {
        SplitTotals(before + nap, [Publish(channel, sealed)], f);
        SplitTotals(before, nap, f);
      }
      NapCountsNothing(w.publishDelay(n - 1));
    }
  }

  lemma NapCountsNothing(delay: Option<int>)
    ensures Count(Slept(delay), IS_POST) == 0 && Count(Slept(delay), IS_PUBLISH) == 0
  {
    if delay.Some? {
      OneAct(Sleep(delay.value), IS_POST);
      OneAct(Sleep(delay.value), IS_PUBLISH);
    }
  }

  /**
   * For every sequence of outcomes: the attempts all carry the same sealed bytes, at most
   * `retries` publishes and at most `retries` posts; nothing is attempted after a success or a
   * refusal, posts follow publishes only when every publish failed; the result is delivered iff
   * the last attempt succeeded; and a payload above the inline limit is published only if no
   * HTTP endpoint is known.
   */
  lemma DeliveryTrace(cfg: Settings, w: World, spec: ReturnSpec, sealed: Sealed, r: Result, acts: seq<Act>, p: nat, n: nat)
    requires cfg.retries > 0 && Reported(cfg, w, spec, sealed, r, acts, p, n)
    ensures Carries(acts, sealed)
    ensures Count(acts, IS_PUBLISH) == p <= cfg.retries && Count(acts, IS_POST) == n <= cfg.retries
    ensures forall k :: 0 <= k < p - 1 ==> !w.published(k)
    ensures forall k :: 0 <= k < n - 1 ==> Retryable(w.posted(k))
    ensures p > 0 && n > 0 ==> p == cfg.retries && !w.published(p - 1)
    ensures r.Delivered? <==> if n > 0 then Accepted(w.posted(n - 1)) else p > 0 && w.published(p - 1)
    ensures p > 0 && |sealed| > (if spec.inlineMax <= 0 then cfg.inlineMax else spec.inlineMax) ==>
      FirstNonEmpty(spec.url, cfg.resultUrl) == ""
  {
    AttemptsMade(cfg, w, spec, sealed, r, acts, p, n);
    AttemptsInOrder(cfg, w, spec, sealed, r, acts, p, n);
  }

  lemma AttemptsInOrder(cfg: Settings, w: World, spec: ReturnSpec, sealed: Sealed, r: Result, acts: seq<Act>, p: nat, n: nat)
    requires cfg.retries > 0 && Reported(cfg, w, spec, sealed, r, acts, p, n)
    ensures p <= cfg.retries && n <= cfg.retries
    ensures forall k :: 0 <= k < p - 1 ==> !w.published(k)
    ensures forall k :: 0 <= k < n - 1 ==> Retryable(w.posted(k))
    ensures p > 0 && n > 0 ==> p == cfg.retries && !w.published(p - 1)
    ensures r.Delivered? <==> if n > 0 then Accepted(w.posted(n - 1)) else p > 0 && w.published(p - 1)
  {
  }

  lemma AttemptsMade(cfg: Settings, w: World, spec: ReturnSpec, sealed: Sealed, r: Result, acts: seq<Act>, p: nat, n: nat)
    requires Reported(cfg, w, spec, sealed, r, acts, p, n)
    ensures Carries(acts, sealed) && Count(acts, IS_PUBLISH) == p && Count(acts, IS_POST) == n
  {
    match RouteOf(cfg, spec, |sealed|)
    case NoRoute =>
    case ByHttp(url) => PostTraceMade(w, url, cfg.retries, sealed, n);
    case ByChannel(channel) => BothMade(w, channel, cfg.resultUrl, cfg.retries, sealed, p, n);
  }

  lemma BothMade(w: World, channel: string, url: string, retries: int, sealed: Sealed, p: nat, n: nat)
    ensures
      var acts := PublishTrace(w, channel, retries, sealed, p) + PostTrace(w, url, retries, sealed, n);
      Carries(acts, sealed) && Count(acts, IS_PUBLISH) == p && Count(acts, IS_POST) == n
  {
    PostTraceMade(w, url, retries, sealed, n);
    PublishTraceMade(w, channel, retries, sealed, p);
    Joined(PublishTrace(w, channel, retries, sealed, p), PostTrace(w, url, retries, sealed, n), sealed);
  }

  lemma PostTraceMade(w: World, url: string, retries: int, sealed: Sealed, n: nat)
    ensures
      var acts := PostTrace(w, url, retries, sealed, n);
      Carries(acts, sealed) && Count(acts, IS_POST) == n && Count(acts, IS_PUBLISH) == 0
  {
    PostsMade(w, url, sealed, n);
    CutCounts(w.postDelay(n), w.postCut(n), sealed);
    Joined(Posts(w, url, sealed, n), PostTail(w, retries, n), sealed);
  }

  lemma PublishTraceMade(w: World, channel: string, retries: int, sealed: Sealed, n: nat)
    ensures
      var acts := PublishTrace(w, channel, retries, sealed, n);
      Carries(acts, sealed) && Count(acts, IS_PUBLISH) == n && Count(acts, IS_POST) == 0
  {
    PublishesMade(w, channel, sealed, n);
    CutCounts(w.publishDelay(n), w.publishCut(n), sealed);
    Joined(Publishes(w, channel, sealed, n), PublishTail(w, retries, n), sealed);
  }

  lemma Joined(xs: seq<Act>, ys: seq<Act>, sealed: Sealed)
    requires Carries(xs, sealed) && Carries(ys, sealed)
    ensures Carries(xs + ys, sealed)
    ensures Count(xs + ys, IS_POST) == Count(xs, IS_POST) + Count(ys, IS_POST)
    ensures Count(xs + ys, IS_PUBLISH) == Count(xs, IS_PUBLISH) + Count(ys, IS_PUBLISH)
    ensures TotalSleep(xs + ys) == TotalSleep(xs) + TotalSleep(ys)
  {
    SplitTotals(xs, ys, IS_POST);
    SplitTotals(xs, ys, IS_PUBLISH);
    BothCarry(xs, ys, sealed);
  }

  lemma CutCounts(delay: Option<int>, cut: Option<nat>, sealed: Sealed)
    ensures Count(CutShort(delay, cut), IS_POST) == 0 && Count(CutShort(delay, cut), IS_PUBLISH) == 0
    ensures TotalSleep(CutShort(delay, cut)) == if delay.Some? && cut.Some? then Min(cut.value, delay.value) else 0
    ensures Carries(CutShort(delay, cut), sealed) && Count([], IS_POST) == Count([], IS_PUBLISH) == TotalSleep([]) == 0
  {
    if delay.Some? && cut.Some? {
      OneAct(Sleep(Min(cut.value, delay.value)), IS_POST);
      OneAct(Sleep(Min(cut.value, delay.value)), IS_PUBLISH);
    }
  }

  lemma BothCarry(xs: seq<Act>, ys: seq<Act>, sealed: Sealed)
    requires Carries(xs, sealed) && Carries(ys, sealed)
    ensures Carries(xs + ys, sealed)
  {
  }

  /** An undisturbed delivery gives up only on a refusal or after using up its retries. */
  lemma GivesUpOnlyWhenSpent(cfg: Settings, w: World, spec: ReturnSpec, sealed: Sealed, r: Result, acts: seq<Act>, p: nat, n: nat)
    requires cfg.retries > 0 && Reported(cfg, w, spec, sealed, r, acts, p, n) && p + n > 0 && r.NotDelivered?
    requires forall k :: w.publishCut(k).None? && w.postCut(k).None?
    ensures if n > 0 then Refused(w.posted(n - 1)) || n == cfg.retries else p == cfg.retries && (cfg.resultUrl == "" || !w.builds)
  {
  }

  // ------------------------------------------------------------------------------------------
  // How long a delivery sleeps

  /** The delays are ones that the backoff computes. */
  ghost predicate Genuine(delay: nat -> Option<int>) {
    forall k: nat :: k >= 1 ==> exists jitter: nat :: delay(k) == Delay(k, jitter)
  }

  /** The windows of the naps before attempts 1 to `n - 1`. */
  function Budget(n: nat): nat {
    if n <= 1 then 0 else Budget(n - 1) + Window(n - 1)
  }

  lemma GenuineNap(delay: nat -> Option<int>, k: nat)
    requires Genuine(delay) && k >= 1
    ensures delay(k).Some? ==> Window(k) / 2 <= delay(k).value < Window(k)
    ensures delay(k).Some? <==> !Overflows(k)
  {
    var jitter: nat :| delay(k) == Delay(k, jitter);
    DelayInWindowOrOverflow(k, jitter);
  }

  lemma NapTotal(delay: Option<int>)
    ensures TotalSleep(Slept(delay)) == if delay.Some? then delay.value else 0
  {
    if delay.Some? {
      OneAct(Sleep(delay.value), IS_POST);
    }
  }

  lemma {:induction false} PostsSleep(w: World, url: string, sealed: Sealed, n: nat)
    requires Genuine(w.postDelay)
    ensures 0 <= TotalSleep(Posts(w, url, sealed, n)) <= Budget(n)
  {
    OneAct(Post(url, sealed), IS_POST);
    if n > 1 {
      PostsSleep(w, url, sealed, n - 1);
      GenuineNap(w.postDelay, n - 1);
      NapTotal(w.postDelay(n - 1));
      var before, nap := Posts(w, url, sealed, n - 1), Slept(w.postDelay(n - 1));
      SplitTotals(before + nap, [Post(url, sealed)], IS_POST);
      SplitTotals(before, nap, IS_POST);
    }
  }

  lemma {:induction false} PublishesSleep(w: World, channel: string, sealed: Sealed, n: nat)
    requires Genuine(w.publishDelay)
    ensures 0 <= TotalSleep(Publishes(w, channel, sealed, n)) <= Budget(n)
  {
    OneAct(Publish(channel, sealed), IS_POST);
    if n > 1 {
      PublishesSleep(w, channel, sealed, n - 1);
      GenuineNap(w.publishDelay, n - 1);
      NapTotal(w.publishDelay(n - 1));
      var before, nap := Publishes(w, channel, sealed, n - 1), Slept(w.publishDelay(n - 1));
      SplitTotals(before + nap, [Publish(channel, sealed)], IS_POST);
      SplitTotals(before, nap, IS_POST);
    }
  }

  lemma {:induction false} BudgetGrows(a: nat, b: nat)
    requires a <= b
    ensures Budget(a) <= Budget(b)
  {
    if a < b {
      BudgetGrows(a, b - 1);
    }
  }

  /** The budget in closed form: doubling naps up to 8 s, then 8 s each. */
  lemma {:induction false} BudgetClosedForm(n: nat)
    requires n >= 1
    ensures Budget(n) == if n <= 7 then 250 * MILLISECOND * (Pow2(n - 1) - 1) else 63 * 250 * MILLISECOND + (n - 7) * CEILING
  {
    if n > 1 {
      BudgetClosedForm(n - 1);
      WindowClosedForm(n - 1);
      PowerTable();
    }
  }

  lemma WindowClosedForm(k: nat)
    requires k >= 1
    ensures Window(k) == if k <= 6 then 250 * MILLISECOND * Pow2(k - 1) else CEILING
  {
    PowerTable();
  }

  /** A cut nap lies within the window of the attempt it would have led to. */
  lemma CutWithinWindow(delay: nat -> Option<int>, cut: Option<nat>, k: nat, sealed: Sealed)
    requires Genuine(delay) && k >= 1
    ensures 0 <= TotalSleep(CutShort(delay(k), cut)) <= Window(k)
  {
    GenuineNap(delay, k);
    CutCounts(delay(k), cut, sealed);
  }

  lemma PostTraceSleeps(w: World, url: string, retries: int, sealed: Sealed, n: nat)
    requires Genuine(w.postDelay) && n <= retries
    ensures 0 <= TotalSleep(PostTrace(w, url, retries, sealed, n)) <= Budget(retries)
  {
    PostsSleep(w, url, sealed, n);
    SplitTotals(Posts(w, url, sealed, n), PostTail(w, retries, n), IS_POST);
    BudgetGrows(n, retries);
    if 0 < n < retries {
      CutWithinWindow(w.postDelay, w.postCut(n), n, sealed);
      BudgetGrows(n + 1, retries);
    }
  }

  lemma PublishTraceSleeps(w: World, channel: string, retries: int, sealed: Sealed, n: nat)
    requires Genuine(w.publishDelay) && n <= retries
    ensures 0 <= TotalSleep(PublishTrace(w, channel, retries, sealed, n)) <= Budget(retries)
  {
    PublishesSleep(w, channel, sealed, n);
    SplitTotals(Publishes(w, channel, sealed, n), PublishTail(w, retries, n), IS_POST);
    BudgetGrows(n, retries);
    if 0 < n < retries {
      CutWithinWindow(w.publishDelay, w.publishCut(n), n, sealed);
      BudgetGrows(n + 1, retries);
    }
  }

  /** However it ends, and counting a nap that is cut short, a delivery sleeps at most the budget of its retries, twice. */
  lemma DeliverySleepBounded(cfg: Settings, w: World, spec: ReturnSpec, sealed: Sealed, r: Result, acts: seq<Act>, p: nat, n: nat)
    requires cfg.retries > 0 && Reported(cfg, w, spec, sealed, r, acts, p, n)
    ensures Genuine(w.publishDelay) && Genuine(w.postDelay) ==> 0 <= TotalSleep(acts) <= 2 * Budget(cfg.retries)
  {
    if Genuine(w.publishDelay) && Genuine(w.postDelay) {
      AttemptsInOrder(cfg, w, spec, sealed, r, acts, p, n);
      match RouteOf(cfg, spec, |sealed|)
      case NoRoute =>
      case ByHttp(url) => PostTraceSleeps(w, url, cfg.retries, sealed, n);
      case ByChannel(channel) =>
        PostTraceSleeps(w, cfg.resultUrl, cfg.retries, sealed, n);
        PublishTraceSleeps(w, channel, cfg.retries, sealed, p);
        SplitTotals(PublishTrace(w, channel, cfg.retries, sealed, p), PostTrace(w, cfg.resultUrl, cfg.retries, sealed, n), IS_POST);
    }
  }

  /** Up to 37 attempts no draw of a delay panics. */
  lemma NoPanicUpTo37(cfg: Settings, w: World, spec: ReturnSpec, sealed: Sealed, r: Result, acts: seq<Act>, p: nat, n: nat)
    requires 0 < cfg.retries <= 37 && Reported(cfg, w, spec, sealed, r, acts, p, n)
    ensures Genuine(w.publishDelay) && Genuine(w.postDelay) ==> !r.Panicked?
  {
    if Genuine(w.publishDelay) && Genuine(w.postDelay) {
      if p > 0 { GenuineNap(w.publishDelay, p); }
      if n > 0 { GenuineNap(w.postDelay, n); }
    }
  }
}
