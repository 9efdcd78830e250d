/** Strings as the agent handles them: fields of a line, comma-joined lists, decimal numbers. */
module Text {

  /** Shared by every module that returns an optional value. */
  datatype Option<+T> = None | Some(value: T)

  /** One scan of the input: `cur` is the field being accumulated. */
  function Scan(s: string, sep: char -> bool, cur: string): seq<string> {
    if s == [] then
      if cur == [] then [] else [cur]
    else if sep(s[0]) then
      (if cur == [] then [] else [cur]) + Scan(s[1..], sep, [])
    else
      Scan(s[1..], sep, cur + [s[0]])
  }

  /** The fields of `s`, as `splitFields` and `strings.FieldsFunc` deliver them. */
  function Fields(s: string, sep: char -> bool): seq<string> {
    Scan(s, sep, [])
  }

  predicate Free(s: string, sep: char -> bool) {
    forall i :: 0 <= i < |s| ==> !sep(s[i])
  }

  predicate AllSep(s: string, sep: char -> bool) {
    forall i :: 0 <= i < |s| ==> sep(s[i])
  }

  /**
   * `fs` are exactly the maximal runs of non-separator characters of `s`: peel off the
   * separators in front, then a non-empty run that ends at a separator or at the end of `s`.
   */
  ghost predicate MaximalRuns(s: string, sep: char -> bool, fs: seq<string>)
    decreases |fs|
  {
    if fs == [] then AllSep(s, sep)
    else
      exists a: nat, b: nat :: RunAt(s, sep, a, b) && fs[0] == s[a..b] && MaximalRuns(s[b..], sep, fs[1..])
  }

  /** The first maximal run of `s` occupies the positions from `a` up to, not including, `b`. */
  predicate RunAt(s: string, sep: char -> bool, a: nat, b: nat) {
    && a < b <= |s|
    && AllSep(s[..a], sep)
    && Free(s[a..b], sep)
    && (b == |s| || sep(s[b]))
  }

  lemma {:induction false} ScanField(s: string, sep: char -> bool, cur: string, k: nat)
    requires k <= |s| && Free(s[..k], sep)
    ensures Scan(s, sep, cur) == Scan(s[k..], sep, cur + s[..k])
  {
    if k == 0 {
      assert cur + s[..0] == cur;
    } else {
      assert s[0] == s[..k][0];
      assert s[1..][..k - 1] == s[..k][1..];
      ScanField(s[1..], sep, cur + [s[0]], k - 1);
      assert s[1..][k - 1..] == s[k..];
      assert cur + [s[0]] + s[1..][..k - 1] == cur + s[..k];
    }
  }

  lemma {:induction false} ScanGap(s: string, sep: char -> bool, k: nat)
    requires k <= |s| && AllSep(s[..k], sep)
    ensures Fields(s, sep) == Fields(s[k..], sep)
  {
    if k > 0 {
      assert s[0] == s[..k][0];
      assert s[1..][..k - 1] == s[..k][1..];
      ScanGap(s[1..], sep, k - 1);
      assert s[1..][k - 1..] == s[k..];
      assert Fields(s, sep) == [] + Fields(s[1..], sep);
    }
  }

  lemma FieldsOfRun(s: string, sep: char -> bool, a: nat, b: nat)
    requires RunAt(s, sep, a, b)
    ensures Fields(s, sep) == [s[a..b]] + Fields(s[b..], sep)
  {
    ScanGap(s, sep, a);
    var t := s[a..];
    assert t[..b - a] == s[a..b] && t[b - a..] == s[b..];
    ScanField(t, sep, [], b - a);
    assert [] + t[..b - a] == s[a..b];
    assert Fields(s, sep) == Scan(s[b..], sep, s[a..b]);
    if b < |s| {
      assert s[b..][0] == s[b];
      assert Fields(s[b..], sep) == [] + Scan(s[b..][1..], sep, []);
    } else {
      assert s[b..] == [];
    }
  }

  function FirstRun(s: string, sep: char -> bool): (r: Option<(nat, nat)>)
    ensures r.None? ==> AllSep(s, sep)
    ensures r.Some? ==> RunAt(s, sep, r.value.0, r.value.1)
  {
    if s == [] then None
    else if sep(s[0]) then
      match FirstRun(s[1..], sep)
      case None => None
      case Some((a, b)) =>
        assert s[..a + 1] == [s[0]] + s[1..][..a];
        assert s[a + 1..b + 1] == s[1..][a..b];
        Some((a + 1, b + 1))
    else
      var b := RunEnd(s, sep, 1);
      assert s[..0] == [];
      Some((0, b))
  }

  function RunEnd(s: string, sep: char -> bool, k: nat): (b: nat)
    requires k <= |s| && Free(s[..k], sep)
    ensures k <= b <= |s| && Free(s[..b], sep) && (b == |s| || sep(s[b]))
    decreases |s| - k
  {
    if k == |s| || sep(s[k]) then k
    else
      assert s[..k + 1] == s[..k] + [s[k]];
      RunEnd(s, sep, k + 1)
  }

  /** `Fields` delivers the maximal runs, in order, and no other list is one. */
  lemma {:induction false} FieldsAreTheMaximalRuns(s: string, sep: char -> bool, fs: seq<string>)
    ensures MaximalRuns(s, sep, fs) <==> fs == Fields(s, sep)
    decreases |s| + |fs|
  {
    match FirstRun(s, sep)
    case None =>
      ScanGap(s, sep, |s|);
      assert s[..|s|] == s && s[|s|..] == [];
      forall a: nat, b: nat ensures !RunAt(s, sep, a, b) {
        if a < b <= |s| { assert s[a..b][0] == s[a]; }
      }
    case Some((a, b)) =>
      FieldsOfRun(s, sep, a, b);
      if MaximalRuns(s, sep, fs) {
        assert fs != [] by { assert s[a..b][0] == s[a]; }
        var a': nat, b': nat :| RunAt(s, sep, a', b') && fs[0] == s[a'..b'] && MaximalRuns(s[b'..], sep, fs[1..]);
        FieldsAreTheMaximalRuns(s[b'..], sep, fs[1..]);
        FieldsOfRun(s, sep, a', b');
        assert fs == [fs[0]] + fs[1..];
      }
      if fs == Fields(s, sep) {
        assert fs[1..] == Fields(s[b..], sep);
        FieldsAreTheMaximalRuns(s[b..], sep, fs[1..]);
      }
  }

  /** A separator between two pieces keeps their fields apart. */
  lemma {:induction false} ScanSplit(s: string, c: char, t: string, sep: char -> bool, cur: string)
    requires sep(c)
    ensures Scan(s + [c] + t, sep, cur) == Scan(s, sep, cur) + Fields(t, sep)
  {
    var whole := s + [c] + t;
    if s == [] {
      assert whole[0] == c && whole[1..] == t;
    } else {
      assert whole[0] == s[0] && whole[1..] == s[1..] + [c] + t;
      if sep(s[0]) {
        ScanSplit(s[1..], c, t, sep, []);
      } else {
        ScanSplit(s[1..], c, t, sep, cur + [s[0]]);
      }
    }
  }

  function Concat<T>(xss: seq<seq<T>>): seq<T> {
    if xss == [] then [] else xss[0] + Concat(xss[1..])
  }

  lemma {:induction false} ConcatSnoc<T>(xss: seq<seq<T>>, xs: seq<T>)
    ensures Concat(xss + [xs]) == Concat(xss) + xs
  {
    if xss == [] {
      assert xss + [xs] == [xs] && Concat([xs]) == xs + Concat<T>([]);
    } else {
      ConcatSnoc(xss[1..], xs);
      assert (xss + [xs])[1..] == xss[1..] + [xs];
    }
  }
}
