/** Version strings: what a worker prints, what the supervisor reads back, and which one is newer. */
module Version {
  import opened Numbers
  import opened Text

  type Triple = (int, int, int)

  // ------------------------------------------------------------------------------------------
  // Decimal numbers

  predicate IsDigit(c: char) {
    '0' <= c <= '9'
  }

  function DigitValue(c: char): nat
    requires IsDigit(c)
  {
    (c - '0') as int
  }

  predicate AllDigits(s: string) {
    forall i :: 0 <= i < |s| ==> IsDigit(s[i])
  }

  function Value(s: string): nat
    requires AllDigits(s)
  {
    if s == [] then 0 else 10 * Value(s[..|s| - 1]) + DigitValue(s[|s| - 1])
  }

  /** `strconv.Atoi` for a 64-bit int: an optional sign, at least one digit, no overflow. */
  function Atoi(s: string): Option<int> {
    var negative := s != [] && s[0] == '-';
    var digits := if s != [] && (s[0] == '-' || s[0] == '+') then s[1..] else s;
    if digits == [] || !AllDigits(digits) then None
    else
      var n: int := if negative then -(Value(digits) as int) else Value(digits);
      if MIN_INT64 <= n <= MAX_INT64 then Some(n) else None
  }

  function Digit(d: nat): char
    requires d < 10
  {
    '0' + d as char
  }

  function Itoa(n: nat): (s: string)
    ensures s != [] && AllDigits(s) && Value(s) == n
  {
    if n < 10 then [Digit(n)] else Itoa(n / 10) + [Digit(n % 10)]
  }

  // ------------------------------------------------------------------------------------------
  // parseSemver

  /** `unicode.IsSpace`. */
  predicate IsSpace(c: char) {
    || c == ' ' || '\t' <= c <= '\r' || c == '\U{85}' || c == '\U{A0}' || c == '\U{1680}'
    || '\U{2000}' <= c <= '\U{200A}' || c == '\U{2028}' || c == '\U{2029}' || c == '\U{202F}'
    || c == '\U{205F}' || c == '\U{3000}'
  }

  function TrimLeft(s: string): string {
    if s != [] && IsSpace(s[0]) then TrimLeft(s[1..]) else s
  }

  function TrimRight(s: string): string {
    if s != [] && IsSpace(s[|s| - 1]) then TrimRight(s[..|s| - 1]) else s
  }

  function TrimSpace(s: string): string {
    TrimRight(TrimLeft(s))
  }

  /** Everything before the first '-' or '+'. */
  function BeforeTag(s: string): string {
    if s == [] || s[0] == '-' || s[0] == '+' then [] else [s[0]] + BeforeTag(s[1..])
  }

  /** `strings.Split` at a one-character separator. */
  function Split(s: string, c: char): (parts: seq<string>)
    ensures parts != []
  {
    if s == [] then [[]]
    else
      var rest := Split(s[1..], c);
      if s[0] == c then [[]] + rest else [[s[0]] + rest[0]] + rest[1..]
  }

  function Core(v: string): string {
    var t := TrimSpace(v);
    BeforeTag(if t != [] && t[0] == 'v' then t[1..] else t)
  }

  function SemverOf(v: string): Option<Triple> {
    var parts := Split(Core(v), '.');
    if |parts| != 3 then None
    else match (Atoi(parts[0]), Atoi(parts[1]), Atoi(parts[2]))
      case (Some(a), Some(b), Some(c)) => Some((a, b, c))
      case _ => None
  }

  /** Fills the three numbers one by one and gives up at the first part that is not a number. */
  method ParseSemver(v: string) returns (out: array<int>, ok: bool)
    ensures fresh(out) && out.Length == 3
    ensures ok <==> SemverOf(v).Some?
    ensures ok ==> SemverOf(v).value == (out[0], out[1], out[2])
  {
    out := new int[3](_ => 0);
    var parts := Split(Core(v), '.');
    if |parts| != 3 {
      return out, false;
    }
    for i := 0 to 3
      invariant forall j :: 0 <= j < i ==> Atoi(parts[j]) == Some(out[j])
    {
      var n := Atoi(parts[i]);
      if n.None? {
        return out, false;
      }
      out[i] := n.value;
    }
    return out, true;
  }

  // ------------------------------------------------------------------------------------------
  // What parses

  /** White space, by code point. */
  lemma SpacesAre(c: char)
    ensures
      var n := c as int;
      IsSpace(c) <==>
        || 9 <= n <= 13 || n == 32 || n == 0x85 || n == 0xA0 || n == 0x1680 || 0x2000 <= n <= 0x200A
        || n == 0x2028 || n == 0x2029 || n == 0x202F || n == 0x205F || n == 0x3000
  {
  }

  predicate AllSpace(s: string) {
    forall i :: 0 <= i < |s| ==> IsSpace(s[i])
  }

  lemma {:induction false} TrimLeftDrops(l: string, s: string)
    requires AllSpace(l) && (s == [] || !IsSpace(s[0]))
    ensures TrimLeft(l + s) == s
  {
    if l == [] {
      assert l + s == s;
    } else {
      assert (l + s)[1..] == l[1..] + s;
      TrimLeftDrops(l[1..], s);
    }
  }

  lemma {:induction false} TrimRightDrops(s: string, r: string)
    requires AllSpace(r) && (s == [] || !IsSpace(s[|s| - 1]))
    ensures TrimRight(s + r) == s
  {
    if r == [] {
      assert s + r == s;
    } else {
      assert (s + r)[..|s + r| - 1] == s + r[..|r| - 1];
      TrimRightDrops(s, r[..|r| - 1]);
    }
  }

  /** White space around a text does not count, all of it and nothing else. */
  lemma TrimSpaceDrops(l: string, s: string, r: string)
    requires AllSpace(l) && AllSpace(r) && s != [] && !IsSpace(s[0]) && !IsSpace(s[|s| - 1])
    ensures TrimSpace(l + s + r) == s
  {
    assert l + s + r == l + (s + r);
    assert (s + r)[0] == s[0];
    TrimLeftDrops(l, s + r);
    TrimRightDrops(s, r);
  }

  /** The core of a version: one leading 'v', everything from the first '-' or '+' on, and outer white space do not count. */
  lemma CoreIs(l: string, v: bool, core: string, tail: string, r: string)
    requires AllSpace(l) && AllSpace(r) && core != [] && Plain(core) && core[0] != 'v'
    requires tail == [] || ((tail[0] == '-' || tail[0] == '+') && !IsSpace(tail[|tail| - 1]))
    ensures Core(l + ((if v then "v" else "") + core + tail) + r) == core
  {
    var s := (if v then "v" else "") + core + tail;
    assert s[0] == if v then 'v' else core[0];
    assert s[|s| - 1] == if tail == [] then core[|core| - 1] else tail[|tail| - 1];
    TrimSpaceDrops(l, s, r);
    assert (if s[0] == 'v' then s[1..] else s) == core + tail;
    CutAtTag(core, tail);
  }

  lemma {:induction false} BeforeTagIsPlain(s: string)
    ensures '-' !in BeforeTag(s) && '+' !in BeforeTag(s)
  {
    if s != [] && s[0] != '-' && s[0] != '+' {
      BeforeTagIsPlain(s[1..]);
    }
  }

  function Joined(parts: seq<string>, c: char): string
    requires parts != []
  {
    if |parts| == 1 then parts[0] else parts[0] + [c] + Joined(parts[1..], c)
  }

  /** Splitting takes a text apart at every separator and loses nothing. */
  lemma {:induction false} SplitJoins(s: string, c: char)
    ensures Joined(Split(s, c), c) == s
    ensures forall i :: 0 <= i < |Split(s, c)| ==> c !in Split(s, c)[i]
    ensures forall i, d :: 0 <= i < |Split(s, c)| && d in Split(s, c)[i] ==> d in s
  {
    if s != [] {
      SplitJoins(s[1..], c);
      var rest, parts := Split(s[1..], c), Split(s, c);
      if s[0] == c {
        assert parts[1..] == rest;
        assert [] + [c] + s[1..] == s;
      } else {
        assert parts[1..] == rest[1..];
        if |rest| > 1 {
          assert [s[0]] + rest[0] + [c] + Joined(rest[1..], c) == [s[0]] + (rest[0] + [c] + Joined(rest[1..], c));
        }
        assert [s[0]] + s[1..] == s;
      }
    }
  }

  /** Decimal digits that stand for `n`, within 64 bits. */
  predicate IsNumber(s: string, n: int) {
    && s != [] && (forall i :: 0 <= i < |s| ==> '0' <= s[i] <= '9')
    && AllDigits(s) && Value(s) == n && n <= 0x7FFF_FFFF_FFFF_FFFF
  }

  lemma UnsignedAtoi(s: string, n: int)
    requires '-' !in s && '+' !in s
    ensures Atoi(s) == Some(n) <==> IsNumber(s, n)
  {
    if s != [] {
      assert s[0] in s;
    }
    if forall i :: 0 <= i < |s| ==> '0' <= s[i] <= '9' {
      assert forall i :: 0 <= i < |s| ==> IsDigit(s[i]);
    }
    if AllDigits(s) {
      assert forall i :: 0 <= i < |s| ==> IsDigit(s[i]) && '0' <= s[i] <= '9';
    }
  }

  /** With a sign, down to the lowest and up to the highest 64-bit number. */
  lemma SignedAtoi(s: string)
    requires s != [] && AllDigits(s)
    ensures Atoi(['-'] + s) == if Value(s) <= 0x8000_0000_0000_0000 then Some(-(Value(s) as int)) else None
    ensures Atoi(['+'] + s) == if Value(s) <= 0x7FFF_FFFF_FFFF_FFFF then Some(Value(s) as int) else None
  {
    assert (['-'] + s)[1..] == s && (['+'] + s)[1..] == s;
  }

  predicate IsTriple(core: string, x: string, y: string, z: string, a: int, b: int, c: int) {
    core == x + ['.'] + (y + ['.'] + z) && IsNumber(x, a) && IsNumber(y, b) && IsNumber(z, c)
  }

  /** Exactly the texts parse whose core is three decimal numbers with dots between them. */
  lemma ParsesIff(v: string, a: int, b: int, c: int)
    ensures SemverOf(v) == Some((a, b, c)) <==> exists x, y, z :: IsTriple(Core(v), x, y, z, a, b, c)
  {
    if SemverOf(v) == Some((a, b, c)) {
      var parts := Split(Core(v), '.');
      PartsAreNumbers(v, parts, a, b, c);
      JoinedTriple(parts);
      assert IsTriple(Core(v), parts[0], parts[1], parts[2], a, b, c);
    }
    if x, y, z :| IsTriple(Core(v), x, y, z, a, b, c) {
      PartsOfTriple(x, y, z);
      DigitsArePlain(x);
      DigitsArePlain(y);
      DigitsArePlain(z);
      UnsignedAtoi(x, a);
      UnsignedAtoi(y, b);
      UnsignedAtoi(z, c);
      ThreeNumbers(v, [x, y, z], a, b, c);
    }
  }

  lemma PartsAreNumbers(v: string, parts: seq<string>, a: int, b: int, c: int)
    requires parts == Split(Core(v), '.') && SemverOf(v) == Some((a, b, c))
    ensures |parts| == 3 && Joined(parts, '.') == Core(v)
    ensures IsNumber(parts[0], a) && IsNumber(parts[1], b) && IsNumber(parts[2], c)
  {
    SplitJoins(Core(v), '.');
    CoreIsUntagged(v);
    UnsignedAtoi(parts[0], a);
    UnsignedAtoi(parts[1], b);
    UnsignedAtoi(parts[2], c);
  }

  lemma CoreIsUntagged(v: string)
    ensures '-' !in Core(v) && '+' !in Core(v)
  {
    var t := TrimSpace(v);
    BeforeTagIsPlain(if t != [] && t[0] == 'v' then t[1..] else t);
  }

  lemma JoinedTriple(parts: seq<string>)
    requires |parts| == 3
    ensures Joined(parts, '.') == parts[0] + ['.'] + (parts[1] + ['.'] + parts[2])
  {
    var tail := parts[1..];
    assert tail[1..] == [parts[2]] && tail[0] == parts[1];
    assert Joined([parts[2]], '.') == parts[2];
    assert Joined(tail, '.') == parts[1] + ['.'] + parts[2];
  }

  // ------------------------------------------------------------------------------------------
  // isNewer and ShouldUpdate

  predicate Above(a: Triple, b: Triple) {
    a.0 > b.0 || (a.0 == b.0 && (a.1 > b.1 || (a.1 == b.1 && a.2 > b.2)))
  }

  /** `isNewer`: numbers decide when both strings parse, otherwise any difference counts as newer. */
  predicate IsNewer(a: string, b: string) {
    match (SemverOf(a), SemverOf(b))
    case (Some(pa), Some(pb)) =>
      if pa.0 != pb.0 then pa.0 > pb.0
      else if pa.1 != pb.1 then pa.1 > pb.1
      else if pa.2 != pb.2 then pa.2 > pb.2
      else false
    case _ => a != b && a != "" && a != "dev"
  }

  predicate ShouldUpdate(current: string, pinned: string, offered: string) {
    if pinned != "" then offered == pinned && offered != current else IsNewer(offered, current)
  }

  lemma NewerIsAbove(a: string, b: string)
    ensures SemverOf(a).Some? && SemverOf(b).Some? ==>
      (IsNewer(a, b) <==> Above(SemverOf(a).value, SemverOf(b).value))
  {
  }

  /** On parseable strings `IsNewer` is a strict weak order: `a` and `b` are incomparable iff their triples are equal. */
  lemma NewerIsStrictWeakOrder(a: string, b: string, c: string)
    ensures SemverOf(a).Some? && SemverOf(b).Some? && SemverOf(c).Some? ==>
      && (IsNewer(a, b) ==> !IsNewer(b, a))
      && (IsNewer(a, b) && IsNewer(b, c) ==> IsNewer(a, c))
      && (!IsNewer(a, b) && !IsNewer(b, a) <==> SemverOf(a) == SemverOf(b))
      && (IsNewer(a, c) ==> IsNewer(a, b) || IsNewer(b, c))
  {
    if SemverOf(a).Some? && SemverOf(b).Some? && SemverOf(c).Some? {
      NewerIsAbove(a, b);
      NewerIsAbove(b, a);
      NewerIsAbove(b, c);
      NewerIsAbove(a, c);
    }
  }

  /** Polling again with the installed version on offer never updates, pinned or not, parseable or not. */
  lemma InstalledIsNotOffered(v: string, pinned: string)
    ensures !ShouldUpdate(v, pinned, v)
  {
  }

  /**
   * Exactly when two versions each count as an update of the other, so that an agent offered them
   * in turn goes back and forth: they differ, not both parse, and neither is empty or "dev".
   */
  lemma NewerBothWaysIff(a: string, b: string)
    ensures IsNewer(a, b) && IsNewer(b, a) <==>
      a != b && (SemverOf(a).None? || SemverOf(b).None?) && a !in {"", "dev"} && b !in {"", "dev"}
  {
    if SemverOf(a).Some? && SemverOf(b).Some? {
      NewerIsAbove(a, b);
      NewerIsAbove(b, a);
    }
  }

  /** A word without dots does not parse. */
  lemma WordsDoNotParse(s: string)
    requires s != [] && s[0] != 'v' && Plain(s) && '.' !in s
    ensures SemverOf(s).None?
  {
    TrimsNothing(s);
    PlainCore(s);
    SplitWhole(s, '.');
  }

  lemma TrimsNothing(s: string)
    requires s != [] && !IsSpace(s[0]) && !IsSpace(s[|s| - 1])
    ensures TrimSpace(s) == s
  {
  }

  lemma PlainCore(s: string)
    requires TrimSpace(s) == s && s != [] && s[0] != 'v' && Plain(s)
    ensures Core(s) == s
  {
    CutAtTag(s, []);
    assert s + [] == s;
  }

  lemma EmptyDoesNotParse(s: string)
    requires s == []
    ensures SemverOf(s).None?
  {
    assert TrimSpace(s) == [] && Core(s) == [];
  }

  /** A version that parses is none of the words the code tests for. */
  lemma ParsedIsNoWord(v: string, word: string)
    requires SemverOf(v).Some? && (word == "" || word == "dev")
    ensures v != word
  {
    if v == word {
      if v == [] {
        EmptyDoesNotParse(v);
      } else {
        WordsDoNotParse(v);
      }
    }
  }

  /**
   * Exactly when a release that is not above the current version is taken for an update of it:
   * when the current version does not parse.
   */
  lemma TakesLowerIff(current: string, offered: string)
    requires SemverOf(offered).Some?
    ensures
      var (a, b) := (SemverOf(offered), SemverOf(current));
      ShouldUpdate(current, "", offered) && !(b.Some? && Above(a.value, b.value)) <==> b.None?
  {
    if SemverOf(current).Some? {
      NewerIsAbove(offered, current);
    } else {
      ParsedIsNoWord(offered, "");
      ParsedIsNoWord(offered, "dev");
    }
  }

  lemma UnknownDoesNotParse(s: string)
    requires s == "unknown"
    ensures SemverOf(s).None?
  {
    WordsDoNotParse(s);
  }

  /**
   * A worker that could not be asked for its version counts as older than every release, so the
   * version on offer is installed even if it is a lower one.
   */
  lemma SilentWorkerTakesAnyRelease(offered: string)
    requires SemverOf(offered).Some?
    ensures ShouldUpdate(Reported(None), "", offered)
  {
    var current := Reported(None);
    UnknownDoesNotParse(current);
    TakesLowerIff(current, offered);
  }

  // ------------------------------------------------------------------------------------------
  // The printed line and its way back

  /** The worker's `--version` line for a release build. */
  function PrintedLine(version: string, commit: string, date: string): string {
    "apipact-worker" + [' '] + (version + [' '] + ("(" + commit + ", " + date + ")")) + ['\n']
  }

  predicate FieldSep(c: char) {
    c == ' ' || c == '\n' || c == '\t'
  }

  /** `splitFields`: one pass that collects the current field and flushes it at each separator. */
  method SplitFields(s: string) returns (out: seq<string>)
    ensures out == Fields(s, FieldSep)
    ensures MaximalRuns(s, FieldSep, out)
  {
    out := [];
    var cur := "";
    for i := 0 to |s|
      invariant out + Scan(s[i..], FieldSep, cur) == Fields(s, FieldSep)
    {
      assert s[i..][0] == s[i] && s[i..][1..] == s[i + 1..];
      if s[i] == ' ' || s[i] == '\n' || s[i] == '\t' {
        if cur != "" {
          out := out + [cur];
          cur := "";
        }
      } else {
        cur := cur + [s[i]];
      }
    }
    if cur != "" {
      out := out + [cur];
    }
    FieldsAreTheMaximalRuns(s, FieldSep, out);
  }

  /** What the supervisor takes the version to be; `None` stands for a worker that could not be asked. */
  function Reported(output: Option<string>): string {
    match output
    case None => "unknown"
    case Some(line) =>
      var fields := Fields(line, FieldSep);
      if |fields| >= 2 then fields[1] else "unknown"
  }

  function VersionText(a: nat, b: nat, c: nat, suffix: string): string {
    "v" + Itoa(a) + ['.'] + (Itoa(b) + ['.'] + Itoa(c)) + suffix
  }

  lemma OneField(s: string)
    requires s != [] && Free(s, FieldSep)
    ensures Fields(s, FieldSep) == [s]
  {
    assert s[..|s|] == s && s[|s|..] == [];
    ScanField(s, FieldSep, [], |s|);
    assert [] + s == s;
  }

  /** Whatever the commit and the date are, a version without separators is read back as printed. */
  lemma PrintedVersionIsReadBack(version: string, commit: string, date: string)
    requires version != [] && Free(version, FieldSep)
    ensures Reported(Some(PrintedLine(version, commit, date))) == version
  {
    var tail := ("(" + commit + ", " + date + ")") + ['\n'];
    var rest := version + [' '] + tail;
    assert PrintedLine(version, commit, date) == "apipact-worker" + [' '] + rest;
    ScanSplit("apipact-worker", ' ', rest, FieldSep, []);
    OneField("apipact-worker");
    ScanSplit(version, ' ', tail, FieldSep, []);
    OneField(version);
    assert Fields(rest, FieldSep) == [version] + Fields(tail, FieldSep);
    assert Fields(PrintedLine(version, commit, date), FieldSep) == ["apipact-worker"] + ([version] + Fields(tail, FieldSep));
  }

  lemma {:induction false} TrimRightKeeps(s: string, k: nat)
    requires k < |s| && !IsSpace(s[k])
    ensures k < |TrimRight(s)| <= |s| && TrimRight(s) == s[..|TrimRight(s)|]
  {
    if IsSpace(s[|s| - 1]) {
      TrimRightKeeps(s[..|s| - 1], k);
    } else {
      assert s[..|s|] == s;
    }
  }

  lemma {:induction false} CutAtTag(s: string, t: string)
    requires forall i :: 0 <= i < |s| ==> s[i] != '-' && s[i] != '+'
    requires t == [] || t[0] == '-' || t[0] == '+'
    ensures BeforeTag(s + t) == s
  {
    if s == [] {
      assert s + t == t;
    } else {
      assert (s + t)[1..] == s[1..] + t;
      CutAtTag(s[1..], t);
    }
  }

  lemma {:induction false} SplitOff(s: string, c: char, t: string)
    requires c !in s
    ensures Split(s + [c] + t, c) == [s] + Split(t, c)
  {
    var whole := s + [c] + t;
    if s == [] {
      assert whole[0] == c && whole[1..] == t;
    } else {
      assert whole[0] == s[0] && whole[1..] == s[1..] + [c] + t;
      SplitOff(s[1..], c, t);
      assert s[0] != c && [s[0]] + s[1..] == s;
      assert ([s[1..]] + Split(t, c))[1..] == Split(t, c);
    }
  }

  lemma {:induction false} SplitWhole(s: string, c: char)
    requires c !in s
    ensures Split(s, c) == [s]
  {
    if s != [] {
      SplitWhole(s[1..], c);
      assert s[0] != c && [s[0]] + s[1..] == s;
    }
  }

  lemma AtoiOfItoa(n: nat)
    requires n <= MAX_INT64
    ensures Atoi(Itoa(n)) == Some(n)
  {
    assert IsDigit(Itoa(n)[0]);
  }

  lemma DigitsArePlain(s: string)
    requires AllDigits(s)
    ensures forall i :: 0 <= i < |s| ==> s[i] != '-' && s[i] != '+' && s[i] != '.' && !IsSpace(s[i])
    ensures '.' !in s
  {
    forall i | 0 <= i < |s| ensures s[i] != '-' && s[i] != '+' && s[i] != '.' && !IsSpace(s[i]) {
      assert IsDigit(s[i]);
    }
  }

  predicate Plain(s: string) {
    forall i :: 0 <= i < |s| ==> s[i] != '-' && s[i] != '+' && !IsSpace(s[i])
  }

  /** The trimmed text starts with the same core; what follows it is empty or the start of the suffix. */
  lemma TrimKeepsCore(core: string, suffix: string) returns (tail: string)
    requires core != [] && Plain(core)
    requires suffix == [] || suffix[0] == '-' || suffix[0] == '+'
    ensures TrimSpace(['v'] + core + suffix) == ['v'] + (core + tail)
    ensures tail == [] || tail[0] == '-' || tail[0] == '+'
  {
    var v := ['v'] + core + suffix;
    assert v[0] == 'v' && TrimLeft(v) == v;
    var k := if suffix == [] then |core| else |core| + 1;
    assert v[k] == if suffix == [] then core[|core| - 1] else suffix[0];
    TrimRightKeeps(v, k);
    var t := TrimRight(v);
    assert |core| + 1 <= |t|;
    tail := t[1 + |core|..];
    assert t == v[..|t|];
    assert t[..1 + |core|] == v[..1 + |core|] == ['v'] + core;
    assert t == t[..1 + |core|] + tail;
    assert ['v'] + core + tail == ['v'] + (core + tail);
    if tail != [] {
      assert tail[0] == t[1 + |core|] == v[1 + |core|] == suffix[0];
    }
  }

  lemma CoreOfPlain(core: string, suffix: string)
    requires core != [] && Plain(core)
    requires suffix == [] || suffix[0] == '-' || suffix[0] == '+'
    ensures Core(['v'] + core + suffix) == core
  {
    var tail := TrimKeepsCore(core, suffix);
    var t := ['v'] + (core + tail);
    assert t[0] == 'v' && t[1..] == core + tail;
    CutAtTag(core, tail);
  }

  lemma CoreOfVersionText(a: nat, b: nat, c: nat, suffix: string)
    requires suffix == [] || suffix[0] == '-' || suffix[0] == '+'
    ensures Core(VersionText(a, b, c, suffix)) == Itoa(a) + ['.'] + (Itoa(b) + ['.'] + Itoa(c))
  {
    var core := Itoa(a) + ['.'] + (Itoa(b) + ['.'] + Itoa(c));
    assert VersionText(a, b, c, suffix) == ['v'] + core + suffix;
    DigitsArePlain(Itoa(a));
    DigitsArePlain(Itoa(b));
    DigitsArePlain(Itoa(c));
    CoreOfPlain(core, suffix);
  }

  /**
   * Printed by the worker, split and read by the supervisor, parsed for the update decision: a
   * version "vA.B.C" with any pre-release or build suffix comes out as the triple (A, B, C).
   */
  lemma VersionRoundTrip(a: nat, b: nat, c: nat, suffix: string, commit: string, date: string)
    requires a <= MAX_INT64 && b <= MAX_INT64 && c <= MAX_INT64
    requires suffix == [] || ((suffix[0] == '-' || suffix[0] == '+') && Free(suffix, FieldSep))
    ensures
      var reported := Reported(Some(PrintedLine(VersionText(a, b, c, suffix), commit, date)));
      reported == VersionText(a, b, c, suffix) && SemverOf(reported) == Some((a, b, c))
  {
    var v := VersionText(a, b, c, suffix);
    VersionIsOneField(a, b, c, suffix);
    PrintedVersionIsReadBack(v, commit, date);
    VersionParses(a, b, c, suffix);
  }

  lemma VersionIsOneField(a: nat, b: nat, c: nat, suffix: string)
    requires Free(suffix, FieldSep)
    ensures VersionText(a, b, c, suffix) != [] && Free(VersionText(a, b, c, suffix), FieldSep)
  {
    var dot: string := ['.'];
    assert Free("v", FieldSep) && Free(dot, FieldSep);
    DigitsAreFree(Itoa(a));
    DigitsAreFree(Itoa(b));
    DigitsAreFree(Itoa(c));
    FreeConcat(Itoa(b), dot);
    FreeConcat(Itoa(b) + dot, Itoa(c));
    FreeConcat("v", Itoa(a));
    FreeConcat("v" + Itoa(a), dot);
    FreeConcat("v" + Itoa(a) + dot, Itoa(b) + dot + Itoa(c));
    FreeConcat("v" + Itoa(a) + dot + (Itoa(b) + dot + Itoa(c)), suffix);
  }

  lemma DigitsAreFree(s: string)
    requires AllDigits(s)
    ensures Free(s, FieldSep)
  {
  }

  lemma FreeConcat(s: string, t: string)
    requires Free(s, FieldSep) && Free(t, FieldSep)
    ensures Free(s + t, FieldSep)
  {
  }

  lemma VersionParses(a: nat, b: nat, c: nat, suffix: string)
    requires a <= MAX_INT64 && b <= MAX_INT64 && c <= MAX_INT64
    requires suffix == [] || suffix[0] == '-' || suffix[0] == '+'
    ensures SemverOf(VersionText(a, b, c, suffix)) == Some((a, b, c))
  {
    CoreOfVersionText(a, b, c, suffix);
    PartsOfTriple(Itoa(a), Itoa(b), Itoa(c));
    AtoiOfItoa(a);
    AtoiOfItoa(b);
    AtoiOfItoa(c);
    ThreeNumbers(VersionText(a, b, c, suffix), [Itoa(a), Itoa(b), Itoa(c)], a, b, c);
  }

  lemma ThreeNumbers(v: string, parts: seq<string>, a: int, b: int, c: int)
    requires |parts| == 3 && Split(Core(v), '.') == parts
    requires Atoi(parts[0]) == Some(a) && Atoi(parts[1]) == Some(b) && Atoi(parts[2]) == Some(c)
    ensures SemverOf(v) == Some((a, b, c))
  {
  }

  lemma PartsOfTriple(x: string, y: string, z: string)
    requires AllDigits(x) && AllDigits(y) && AllDigits(z)
    ensures Split(x + ['.'] + (y + ['.'] + z), '.') == [x, y, z]
  {
    DigitsArePlain(x);
    DigitsArePlain(y);
    DigitsArePlain(z);
    SplitOff(x, '.', y + ['.'] + z);
    SplitOff(y, '.', z);
    SplitWhole(z, '.');
    assert [x] + ([y] + [z]) == [x, y, z];
  }

  /**
   * The suffix is dropped, so a release never supersedes its own pre-release, nor the other way
   * round, where section 11 of Semantic Versioning 2.0.0 ranks the release higher.
   */
  lemma PreReleaseTies(a: nat, b: nat, c: nat, suffix: string)
    requires a <= MAX_INT64 && b <= MAX_INT64 && c <= MAX_INT64
    requires suffix != [] && (suffix[0] == '-' || suffix[0] == '+') && Free(suffix, FieldSep)
    ensures VersionText(a, b, c, suffix) != VersionText(a, b, c, [])
    ensures !ShouldUpdate(VersionText(a, b, c, suffix), "", VersionText(a, b, c, []))
    ensures !ShouldUpdate(VersionText(a, b, c, []), "", VersionText(a, b, c, suffix))
  {
    VersionRoundTrip(a, b, c, suffix, "", "");
    VersionRoundTrip(a, b, c, [], "", "");
    assert |VersionText(a, b, c, suffix)| == |VersionText(a, b, c, [])| + |suffix|;
  }
}
