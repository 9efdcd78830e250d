/** The printer half of the lists: how the configuration hands them to the parser. */
module Config {
  import opened Text
  import opened Egress

  function Joined(items: seq<string>): string {
    if items == [] then "" else if |items| == 1 then items[0] else Joined(items[..|items| - 1]) + [','] + items[|items| - 1]
  }

  method JoinList(items: seq<string>) returns (out: string)
    ensures out == Joined(items)
  {
    out := "";
    for i := 0 to |items|
      invariant out == Joined(items[..i])
    {
      if i > 0 {
        out := out + ",";
      }
      assert items[..i + 1][..i] == items[..i] && items[..i + 1][i] == items[i];
      out := out + items[i];
    }
    assert items[..|items|] == items;
  }

  function TokensOf(items: seq<string>): seq<seq<string>> {
    seq(|items|, i requires 0 <= i < |items| => Fields(items[i], ListSep))
  }

  /** Joining and tokenising is tokenising item by item: no item runs into its neighbour, the order stays. */
  lemma {:induction false} JoinedTokens(items: seq<string>)
    ensures Fields(Joined(items), ListSep) == Concat(TokensOf(items))
  {
    if items == [] {
    } else if |items| == 1 {
      assert TokensOf(items) == [Fields(items[0], ListSep)];
      assert TokensOf(items)[1..] == [];
    } else {
      var front, last := items[..|items| - 1], items[|items| - 1];
      JoinedTokens(front);
      ScanSplit(Joined(front), ',', last, ListSep, []);
      ConcatSnoc(TokensOf(front), Fields(last, ListSep));
      assert TokensOf(items) == TokensOf(front) + [Fields(last, ListSep)];
    }
  }

  /** An operator list is accepted iff each token of each of its items is a network. */
  lemma ListAcceptedIff(lib: Library, items: seq<string>)
    ensures
      ParseTokens(lib, Fields(Joined(items), ListSep)).Nets? <==>
        forall i, t :: 0 <= i < |items| && t in Fields(items[i], ListSep) ==> ParseToken(lib, t).Some?
  {
    var all := Concat(TokensOf(items));
    JoinedTokens(items);
    ParsesIffEveryTokenDoes(lib, all);
    if ParseTokens(lib, all).Nets? {
      forall i, t | 0 <= i < |items| && t in Fields(items[i], ListSep) ensures ParseToken(lib, t).Some? {
        assert t in TokensOf(items)[i];
        ConcatMember(TokensOf(items), t);
        var j :| 0 <= j < |all| && all[j] == t;
      }
    } else {
      var j :| 0 <= j < |all| && ParseToken(lib, all[j]).None?;
      ConcatMember(TokensOf(items), all[j]);
      var i :| 0 <= i < |items| && all[j] in TokensOf(items)[i];
      assert all[j] in Fields(items[i], ListSep);
    }
  }

  lemma {:induction false} ConcatMember<T>(xss: seq<seq<T>>, x: T)
    ensures x in Concat(xss) <==> exists i :: 0 <= i < |xss| && x in xss[i]
  {
    if xss != [] {
      ConcatMember(xss[1..], x);
      if i :| 0 <= i < |xss| && x in xss[i] {
        if i > 0 { assert xss[i] == xss[1..][i - 1]; }
      }
      if i :| 0 <= i < |xss[1..]| && x in xss[1..][i] {
        assert xss[i + 1] == xss[1..][i];
      }
    }
  }
}
