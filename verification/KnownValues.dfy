/** Reducing stored preference values to the known ones, in the order of the known list. */
module KnownValues {

  /** Position of the first occurrence; past the end by one more when there is none. */
  function IndexOf(values: seq<string>, target: string): (i: nat)
    ensures i < |values| ==> values[i] == target
    ensures i < |values| <==> target in values
    ensures i < |values| || i == |values| + 1
  {
    if values == [] then 1
    else if values[0] == target then 0
    else 1 + IndexOf(values[1..], target)
  }

  /** The specification: the known values, without repetitions, that occur among `values`. */
  function Wanted(values: seq<string>, known: seq<string>): seq<string> {
    if known == [] then []
    else
      var n := |known| - 1;
      Wanted(values, known[..n]) + (if known[n] in values && known[n] !in known[..n] then [known[n]] else [])
  }

  predicate Distinct(s: seq<string>) {
    forall i, j :: 0 <= i < j < |s| ==> s[i] != s[j]
  }

  /** Strictly increasing position in `known`. */
  predicate InOrder(known: seq<string>, s: seq<string>) {
    forall i, j :: 0 <= i < j < |s| ==> IndexOf(known, s[i]) < IndexOf(known, s[j])
  }

  ghost predicate Selects(s: seq<string>, values: seq<string>, known: seq<string>) {
    forall v :: v in s <==> v in values && v in known
  }

  lemma {:induction false} IndexOfPrefix(known: seq<string>, n: nat, v: string)
    requires n <= |known| && v in known[..n]
    ensures IndexOf(known, v) == IndexOf(known[..n], v)
  {
    if known[0] != v {
      assert known[..n][1..] == known[1..][..n - 1];
      IndexOfPrefix(known[1..], n - 1, v);
    }
  }

  lemma {:induction false} IndexOfLast(known: seq<string>, n: nat)
    requires n < |known| && known[n] !in known[..n]
    ensures IndexOf(known, known[n]) == n
  {
    if n > 0 {
      assert known[0] in known[..n];
      assert known[..n][1..] == known[1..][..n - 1];
      IndexOfLast(known[1..], n - 1);
    }
  }

  lemma {:induction false} WantedSpec(values: seq<string>, known: seq<string>)
    ensures Selects(Wanted(values, known), values, known) && InOrder(known, Wanted(values, known))
  {
    if known != [] {
      var n := |known| - 1;
      var init := Wanted(values, known[..n]);
      var w := Wanted(values, known);
      WantedSpec(values, known[..n]);
      assert known == known[..n] + [known[n]];
      forall i, j | 0 <= i < j < |w|
        ensures IndexOf(known, w[i]) < IndexOf(known, w[j])
      {
        assert w[i] == init[i] && init[i] in init;
        IndexOfPrefix(known, n, w[i]);
        if j < |init| {
          assert init[j] in init;
          IndexOfPrefix(known, n, w[j]);
        } else {
          IndexOfLast(known, n);
        }
      }
    }
  }

  /** Two selections in the order of the known list are equal. */
  lemma {:induction false} SelectionUnique(known: seq<string>, a: seq<string>, b: seq<string>)
    requires InOrder(known, a) && InOrder(known, b)
    requires forall v :: v in a <==> v in b
    ensures a == b
  {
    if a == [] {
      if b != [] {
        HasFirst(b);
        assert false;
      }
    } else {
      assert a[0] in b;
      assert b[0] in a;
      HeadIsLeast(known, a, b[0]);
      HeadIsLeast(known, b, a[0]);
      SameIndex(known, a, a[0], b[0]);
      HeadOnce(known, a);
      HeadOnce(known, b);
      forall v
        ensures v in a[1..] <==> v in b[1..]
      {
        assert v in a <==> v == a[0] || v in a[1..];
        assert v in b <==> v == b[0] || v in b[1..];
      }
      SelectionUnique(known, a[1..], b[1..]);
      assert a == [a[0]] + a[1..] && b == [b[0]] + b[1..];
    }
  }

  lemma HasFirst(s: seq<string>)
    requires s != []
    ensures exists v :: v in s
  {
    assert s[0] in s;
  }

  lemma HeadIsLeast(known: seq<string>, s: seq<string>, v: string)
    requires InOrder(known, s) && v in s
    ensures IndexOf(known, s[0]) <= IndexOf(known, v)
  {
    var i :| 0 <= i < |s| && s[i] == v;
  }

  lemma SameIndex(known: seq<string>, s: seq<string>, v: string, w: string)
    requires InOrder(known, s) && v in s && w in s
    requires IndexOf(known, v) == IndexOf(known, w)
    ensures v == w
  {
    var i :| 0 <= i < |s| && s[i] == v;
    var j :| 0 <= j < |s| && s[j] == w;
  }

  lemma HeadOnce(known: seq<string>, s: seq<string>)
    requires InOrder(known, s) && s != []
    ensures s[0] !in s[1..]
  {
  }

  // ---------- the filter ----------

  /** Position lookup as the loop computes it. */
  method FindIndex(values: seq<string>, target: string) returns (i: nat)
    ensures i == IndexOf(values, target)
  {
    for k := 0 to |values|
      invariant IndexOf(values, target) == k + IndexOf(values[k..], target)
    {
      if values[k] == target {
        return k;
      }
      assert values[k..][1..] == values[k + 1..];
    }
    return |values| + 1;
  }

  /** The first loop: known values, each once, in the order of `values`. */
  method CollectKnown(values: seq<string>, known: seq<string>) returns (filtered: seq<string>)
    ensures Selects(filtered, values, known) && Distinct(filtered)
  {
    var knownSet := set v | v in known;
    filtered := [];
    var seen: set<string> := {};
    for i := 0 to |values|
      invariant Selects(filtered, values[..i], known) && Distinct(filtered)
      invariant forall v :: v in seen <==> v in filtered
    {
      var value := values[i];
      assert values[..i + 1] == values[..i] + [value];
      if value !in knownSet || value in seen {
        continue;
      }
      filtered := filtered + [value];
      seen := seen + {value};
    }
    assert values[..|values|] == values;
  }

  /** The sort, by position in `known`. Positions of distinct known values differ, so any sort gives this result. */
  method SortByIndex(s: seq<string>, known: seq<string>) returns (r: seq<string>)
    requires Distinct(s) && forall v :: v in s ==> v in known
    ensures InOrder(known, r) && forall v :: v in r <==> v in s
  {
    r := [];
    for i := 0 to |s|
      invariant InOrder(known, r)
      invariant forall v :: v in r <==> v in s[..i]
    {
      assert s[..i + 1] == s[..i] + [s[i]];
      assert s[i] in known && s[i] !in s[..i];
      r := InsertByIndex(r, s[i], known);
    }
    assert s[..|s|] == s;
  }

  /** The positions in `known` of the values of `s`. */
  function Ranks(known: seq<string>, s: seq<string>): seq<nat> {
    seq(|s|, i requires 0 <= i < |s| => IndexOf(known, s[i]))
  }

  predicate Rising(ranks: seq<nat>) {
    forall i, j :: 0 <= i < j < |ranks| ==> ranks[i] < ranks[j]
  }

  lemma InOrderRises(known: seq<string>, s: seq<string>)
    ensures InOrder(known, s) <==> Rising(Ranks(known, s))
  {
    if Rising(Ranks(known, s)) {
      forall i, j | 0 <= i < j < |s|
        ensures IndexOf(known, s[i]) < IndexOf(known, s[j])
      {
        assert Ranks(known, s)[i] < Ranks(known, s)[j];
      }
    }
  }

  lemma RanksAppend(known: seq<string>, a: seq<string>, b: seq<string>)
    ensures Ranks(known, a + b) == Ranks(known, a) + Ranks(known, b)
  {
  }

  /** `x` belongs behind the first `j` ranks. */
  predicate Splits(ranks: seq<nat>, x: nat, j: nat) {
    && j <= |ranks|
    && (forall k :: 0 <= k < j ==> ranks[k] < x)
    && (forall k :: j <= k < |ranks| ==> x < ranks[k])
  }

  lemma RisingInsert(ranks: seq<nat>, x: nat, j: nat)
    requires Rising(ranks) && Splits(ranks, x, j)
    ensures Rising(ranks[..j] + [x] + ranks[j..])
  {
  }

  /** What a search from the right has seen when it stops decides all of it. */
  lemma SplitsWhere(ranks: seq<nat>, x: nat, j: nat)
    requires Rising(ranks) && j <= |ranks|
    requires j > 0 ==> ranks[j - 1] < x
    requires forall k :: j <= k < |ranks| ==> x < ranks[k]
    ensures Splits(ranks, x, j)
  {
  }

  lemma RanksInsert(known: seq<string>, s: seq<string>, v: string, j: nat)
    requires j <= |s|
    ensures Ranks(known, s[..j] + [v] + s[j..])
         == Ranks(known, s)[..j] + [IndexOf(known, v)] + Ranks(known, s)[j..]
  {
    RanksAppend(known, s[..j], [v]);
    RanksAppend(known, s[..j] + [v], s[j..]);
    RanksAppend(known, s[..j], s[j..]);
    assert s == s[..j] + s[j..];
  }

  lemma InsertAdds(s: seq<string>, v: string, j: nat)
    requires j <= |s|
    ensures forall w :: w in s[..j] + [v] + s[j..] <==> w == v || w in s
  {
    assert s == s[..j] + s[j..];
    assert v in [v];
  }

  lemma DifferentRanks(known: seq<string>, v: string, w: string)
    requires v in known && w in known && v != w
    ensures IndexOf(known, v) != IndexOf(known, w)
  {
  }

  /** Where `v` goes, searched from the right. */
  method PlaceOf(sorted: seq<string>, v: string, known: seq<string>) returns (j: nat)
    requires Rising(Ranks(known, sorted)) && v !in sorted && v in known
    requires forall w :: w in sorted ==> w in known
    ensures Splits(Ranks(known, sorted), IndexOf(known, v), j)
  {
    j := |sorted|;
    var index := FindIndex(known, v);
    while j > 0
      invariant j <= |sorted|
      invariant forall k :: j <= k < |sorted| ==> index < Ranks(known, sorted)[k]
    {
      var other := FindIndex(known, sorted[j - 1]);
      if index >= other {
        assert sorted[j - 1] in sorted;
        DifferentRanks(known, v, sorted[j - 1]);
        SplitsWhere(Ranks(known, sorted), index, j);
        return;
      }
      j := j - 1;
    }
  }

  method InsertByIndex(sorted: seq<string>, v: string, known: seq<string>) returns (r: seq<string>)
    requires InOrder(known, sorted) && v !in sorted && v in known
    requires forall w :: w in sorted ==> w in known
    ensures InOrder(known, r) && forall w :: w in r <==> w == v || w in sorted
  {
    InOrderRises(known, sorted);
    var j := PlaceOf(sorted, v, known);
    r := sorted[..j] + [v] + sorted[j..];
    RisingInsert(Ranks(known, sorted), IndexOf(known, v), j);
    RanksInsert(known, sorted, v, j);
    InOrderRises(known, r);
    InsertAdds(sorted, v, j);
  }

  /**
  The known values that occur among `values`, in the order of the known list, whatever the
  order and repetitions of `values`.
  */
  method FilterKnownValues(values: seq<string>, known: seq<string>) returns (filtered: seq<string>)
    ensures filtered == Wanted(values, known)
  {
    WantedSpec(values, known);
    if |values| == 0 || |known| == 0 {
      SelectionUnique(known, [], Wanted(values, known));
      return [];
    }
    var collected := CollectKnown(values, known);
    filtered := SortByIndex(collected, known);
    SelectionUnique(known, filtered, Wanted(values, known));
  }
}
