/**
The canonical field order of exports. `order` is the table of names that come first;
the comparison is a strict total order on names, so the stable sort of a record depends
only on the fields under each name.
*/
module AdifSort {
  import opened AdifSyntax
  import opened AdifRecord
  import opened Sequences

  // ---------- the comparison ----------

  /** Byte-wise string comparison. */
  predicate StringLess(a: string, b: string) {
    b != [] && (a == [] || a[0] < b[0] || (a[0] == b[0] && StringLess(a[1..], b[1..])))
  }

  /** `a` and `b` agree before position k, and there `a` has ended or has the smaller byte. */
  predicate FirstDiffers(a: string, b: string, k: int) {
    0 <= k <= |a| && k < |b| && a[..k] == b[..k] && (k == |a| || a[k] < b[k])
  }

  /** Alphabetical order, byte by byte: the first difference decides, and a prefix comes first. */
  ghost predicate Alphabetical(a: string, b: string) {
    exists k :: FirstDiffers(a, b, k)
  }

  /** A common first byte moves the first difference. */
  lemma DiffersBehind(a: string, b: string, k: int)
    requires a != [] && b != [] && a[0] == b[0]
    ensures FirstDiffers(a, b, k) <==> FirstDiffers(a[1..], b[1..], k - 1)
  {
    if 0 < k <= |a| && k < |b| {
      assert a[..k] == [a[0]] + a[1..][..k - 1] && b[..k] == [b[0]] + b[1..][..k - 1];
      assert a[1..][..k - 1] == a[..k][1..] && b[1..][..k - 1] == b[..k][1..];
    }
  }

  lemma SameFront(a: string, b: string, k: int)
    requires FirstDiffers(a, b, k) && k > 0
    ensures a[0] == b[0]
  {
    assert a[..k][0] == b[..k][0];
  }

  lemma {:induction false} StringLessIff(a: string, b: string)
    ensures StringLess(a, b) <==> Alphabetical(a, b)
  {
    if a != [] && b != [] && a[0] == b[0] {
      StringLessIff(a[1..], b[1..]);
      if StringLess(a, b) {
        var k :| FirstDiffers(a[1..], b[1..], k);
        DiffersBehind(a, b, k + 1);
      }
      if Alphabetical(a, b) {
        var k :| FirstDiffers(a, b, k);
        DiffersBehind(a, b, k);
      }
    } else {
      if StringLess(a, b) {
        assert FirstDiffers(a, b, 0);
      }
      forall k | FirstDiffers(a, b, k)
        ensures StringLess(a, b)
      {
        if k > 0 {
          SameFront(a, b, k);
        }
      }
    }
  }

  lemma {:induction false} StringLessTransitive(a: string, b: string, c: string)
    requires StringLess(a, b) && StringLess(b, c)
    ensures StringLess(a, c)
  {
    if a != [] && a[0] == b[0] == c[0] {
      StringLessTransitive(a[1..], b[1..], c[1..]);
    }
  }

  lemma {:induction false} StringLessTotal(a: string, b: string)
    ensures !StringLess(a, a)
    ensures a != b ==> StringLess(a, b) != StringLess(b, a)
  {
    if a != [] {
      StringLessTotal(a[1..], a[1..]);
      if b != [] && a[0] == b[0] {
        StringLessTotal(a[1..], b[1..]);
        assert a == [a[0]] + a[1..] && b == [b[0]] + b[1..];
      }
    }
  }

  /** Position of `name` in the table, the last one if it is repeated; -1 when it is not there. */
  function Position(order: seq<string>, name: string): (p: int)
    ensures -1 <= p < |order|
    ensures p >= 0 ==> order[p] == name
  {
    if order == [] then -1
    else if order[|order| - 1] == name then |order| - 1
    else Position(order[..|order| - 1], name)
  }

  /** A field name with what the comparison looks at. */
  datatype Key = Key(name: string, pos: int, isApp: bool, isKnown: bool)

  function KeyOf(order: seq<string>, name: string): Key {
    var p := Position(order, name);
    Key(name, if p >= 0 then p else 0, "APP_" <= name, p >= 0)
  }

  /** The comparison that sort.SliceStable is given: application fields last, then table order, then by name. */
  predicate Less(a: Key, b: Key) {
    if a.isApp != b.isApp then !a.isApp
    else if a.isApp && b.isApp then StringLess(a.name, b.name)
    else if a.isKnown && b.isKnown then a.pos < b.pos
    else if a.isKnown != b.isKnown then a.isKnown
    else StringLess(a.name, b.name)
  }

  predicate Before(order: seq<string>, a: string, b: string) {
    Less(KeyOf(order, a), KeyOf(order, b))
  }

  /** The comparison is a strict order in which only equal names tie. */
  lemma BeforeIsStrictTotalOrder(order: seq<string>, a: string, b: string, c: string)
    ensures !Before(order, a, a)
    ensures Before(order, a, b) && Before(order, b, c) ==> Before(order, a, c)
    ensures a != b ==> Before(order, a, b) != Before(order, b, a)
  {
    StringLessTotal(a, b);
    if StringLess(a, b) && StringLess(b, c) {
      StringLessTransitive(a, b, c);
    }
  }

  // ---------- the sort ----------

  predicate IsSorted(order: seq<string>, fields: seq<Field>) {
    forall i, j :: 0 <= i < j < |fields| ==> !Before(order, fields[j].name, fields[i].name)
  }

  /** `f` put behind the last field of `sorted` that it does not come before. */
  function Insert(order: seq<string>, sorted: seq<Field>, f: Field): (r: seq<Field>)
    ensures |r| == |sorted| + 1
  {
    if sorted == [] || !Before(order, f.name, sorted[|sorted| - 1].name) then sorted + [f]
    else Insert(order, sorted[..|sorted| - 1], f) + [sorted[|sorted| - 1]]
  }

  /** Stable sort by insertion. */
  function Sort(order: seq<string>, fields: seq<Field>): (r: seq<Field>)
    ensures |r| == |fields|
  {
    if fields == [] then [] else Insert(order, Sort(order, fields[..|fields| - 1]), fields[|fields| - 1])
  }

  /** The same fields under each name, in the same order. */
  ghost predicate SameFields(a: seq<Field>, b: seq<Field>) {
    forall name :: Named(a, name) == Named(b, name)
  }

  lemma NamedOne(f: Field, name: string)
    ensures Named([f], name) == IfNamed(f, name)
  {
    assert [f][1..] == [];
    assert IfNamed(f, name) + [] == IfNamed(f, name);
  }

  lemma Swap(a: seq<Field>, x: seq<Field>, y: seq<Field>)
    requires x == [] || y == []
    ensures a + x + y == a + y + x
  {
  }

  lemma NotBoth(order: seq<string>, f: Field, g: Field, name: string)
    requires Before(order, f.name, g.name)
    ensures IfNamed(f, name) == [] || IfNamed(g, name) == []
  {
    BeforeIsStrictTotalOrder(order, name, name, name);
  }

  /** Passing `f` behind a field under another name. */
  lemma NamedPassed(inserted: seq<Field>, init: seq<Field>, last: Field, f: Field, name: string)
    requires Named(inserted, name) == Named(init, name) + IfNamed(f, name)
    requires IfNamed(f, name) == [] || IfNamed(last, name) == []
    ensures Named(inserted + [last], name) == Named(init + [last], name) + IfNamed(f, name)
  {
    NamedOne(last, name);
    NamedAppend(inserted, [last], name);
    NamedAppend(init, [last], name);
    Swap(Named(init, name), IfNamed(f, name), IfNamed(last, name));
  }

  lemma {:induction false} InsertNamed(order: seq<string>, sorted: seq<Field>, f: Field, name: string)
    ensures Named(Insert(order, sorted, f), name) == Named(sorted, name) + IfNamed(f, name)
  {
    if sorted == [] || !Before(order, f.name, sorted[|sorted| - 1].name) {
      NamedOne(f, name);
      NamedAppend(sorted, [f], name);
    } else {
      var init, last := sorted[..|sorted| - 1], sorted[|sorted| - 1];
      InsertNamed(order, init, f, name);
      NotBoth(order, f, last, name);
      NamedPassed(Insert(order, init, f), init, last, f, name);
      Unsnoc(sorted);
    }
  }

  lemma {:induction false} SortKeepsFields(order: seq<string>, fields: seq<Field>, name: string)
    ensures Named(Sort(order, fields), name) == Named(fields, name)
  {
    if fields != [] {
      var init, last := fields[..|fields| - 1], fields[|fields| - 1];
      SortKeepsFields(order, init, name);
      InsertNamed(order, Sort(order, init), last, name);
      NamedOne(last, name);
      NamedAppend(init, [last], name);
      assert fields == init + [last];
    }
  }

  lemma {:induction false} InsertMultiset(order: seq<string>, sorted: seq<Field>, f: Field)
    ensures multiset(Insert(order, sorted, f)) == multiset(sorted) + multiset{f}
  {
    if sorted != [] && Before(order, f.name, sorted[|sorted| - 1].name) {
      InsertMultiset(order, sorted[..|sorted| - 1], f);
      assert sorted == sorted[..|sorted| - 1] + [sorted[|sorted| - 1]];
    }
  }

  lemma {:induction false} SortMultiset(order: seq<string>, fields: seq<Field>)
    ensures multiset(Sort(order, fields)) == multiset(fields)
  {
    if fields != [] {
      SortMultiset(order, fields[..|fields| - 1]);
      InsertMultiset(order, Sort(order, fields[..|fields| - 1]), fields[|fields| - 1]);
      assert fields == fields[..|fields| - 1] + [fields[|fields| - 1]];
    }
  }

  lemma {:induction false} InsertSorted(order: seq<string>, sorted: seq<Field>, f: Field)
    requires IsSorted(order, sorted)
    ensures IsSorted(order, Insert(order, sorted, f))
  {
    var n := |sorted|;
    if n == 0 {
    } else if Before(order, f.name, sorted[n - 1].name) {
      var init, last := sorted[..n - 1], sorted[n - 1];
      InsertSorted(order, init, f);
      var r := Insert(order, init, f);
      InsertMultiset(order, init, f);
      forall i | 0 <= i < |r|
        ensures !Before(order, last.name, r[i].name)
      {
        assert r[i] in multiset(r);
        assert r[i] == f || r[i] in init;
        BeforeIsStrictTotalOrder(order, f.name, last.name, f.name);
      }
    } else {
      forall i | 0 <= i < n
        ensures !Before(order, f.name, sorted[i].name)
      {
        BeforeIsStrictTotalOrder(order, sorted[i].name, sorted[n - 1].name, f.name);
        BeforeIsStrictTotalOrder(order, f.name, sorted[i].name, sorted[n - 1].name);
      }
    }
  }

  lemma {:induction false} SortSorted(order: seq<string>, fields: seq<Field>)
    ensures IsSorted(order, Sort(order, fields))
  {
    if fields != [] {
      SortSorted(order, fields[..|fields| - 1]);
      InsertSorted(order, Sort(order, fields[..|fields| - 1]), fields[|fields| - 1]);
    }
  }

  lemma {:induction false} InNamed(fields: seq<Field>, f: Field)
    ensures f in Named(fields, f.name) <==> f in fields
  {
    if fields != [] {
      InNamed(fields[1..], f);
      assert fields == [fields[0]] + fields[1..];
    }
  }

  lemma SortedSameHead(order: seq<string>, a: seq<Field>, b: seq<Field>)
    requires IsSorted(order, a) && IsSorted(order, b) && SameFields(a, b) && a != []
    ensures b != [] && a[0] == b[0]
  {
    var x := a[0];
    InNamed(a, x);
    InNamed(b, x);
    assert x in b;
    var y := b[0];
    InNamed(a, y);
    InNamed(b, y);
    assert y in a;
    BeforeIsStrictTotalOrder(order, x.name, y.name, x.name);
    assert x == Named(a, x.name)[0] == Named(b, x.name)[0] == y;
  }

  lemma SameFieldsTail(a: seq<Field>, b: seq<Field>)
    requires a != [] && b != [] && a[0] == b[0] && SameFields(a, b)
    ensures SameFields(a[1..], b[1..])
  {
    forall name
      ensures Named(a[1..], name) == Named(b[1..], name)
    {
      assert Named(a, name) == Named(b, name);
      CancelPrefix(IfNamed(a[0], name), Named(a[1..], name), Named(b[1..], name));
    }
  }

  /** Two sorted lists with the same fields under each name are equal. */
  lemma {:induction false} SortedUnique(order: seq<string>, a: seq<Field>, b: seq<Field>)
    requires IsSorted(order, a) && IsSorted(order, b) && SameFields(a, b)
    ensures a == b
  {
    if a != [] {
      SortedSameHead(order, a, b);
      SameFieldsTail(a, b);
      SortedUnique(order, a[1..], b[1..]);
      assert a == [a[0]] + a[1..] && b == [b[0]] + b[1..];
    } else if b != [] {
      SortedSameHead(order, b, a);
    }
  }

  /**
  The canonical order is the only sorted arrangement that keeps the fields under each name
  in their order, whatever stable algorithm computes it; it loses and adds nothing.
  */
  lemma SortSpec(order: seq<string>, fields: seq<Field>, r: seq<Field>)
    ensures r == Sort(order, fields) <==> IsSorted(order, r) && SameFields(r, fields)
    ensures multiset(Sort(order, fields)) == multiset(fields)
  {
    SortSorted(order, fields);
    SortMultiset(order, fields);
    forall name
      ensures Named(Sort(order, fields), name) == Named(fields, name)
    {
      SortKeepsFields(order, fields, name);
    }
    if IsSorted(order, r) && SameFields(r, fields) {
      SortedUnique(order, r, Sort(order, fields));
    }
  }

  /** Two records export alike exactly when they have the same fields under each name. */
  lemma SortEqualIff(order: seq<string>, a: seq<Field>, b: seq<Field>)
    ensures Sort(order, a) == Sort(order, b) <==> SameFields(a, b)
  {
    SortSpec(order, a, Sort(order, a));
    SortSpec(order, b, Sort(order, b));
    SortSpec(order, a, Sort(order, b));
  }

  /** 0 for names in the table, 1 for other names, 2 for application names. */
  function Class(order: seq<string>, name: string): int {
    if "APP_" <= name then 2 else if name in order then 0 else 1
  }

  lemma {:induction false} PositionIff(order: seq<string>, name: string)
    ensures Position(order, name) >= 0 <==> name in order
    ensures forall k :: Position(order, name) < k < |order| ==> order[k] != name
  {
    if order != [] {
      var n := |order| - 1;
      PositionIff(order[..n], name);
      assert order == order[..n] + [order[n]];
    }
  }

  lemma BeforeByClass(order: seq<string>, a: string, b: string)
    ensures !Before(order, b, a) ==>
      && Class(order, a) <= Class(order, b)
      && (Class(order, a) == Class(order, b) == 0 ==> Position(order, a) <= Position(order, b))
      && (Class(order, a) == Class(order, b) > 0 ==> a == b || Alphabetical(a, b))
  {
    PositionIff(order, a);
    PositionIff(order, b);
    StringLessTotal(a, b);
    StringLessIff(a, b);
  }

  /**
  The layout of an exported record: the fields of the table in table order, then the other
  fields in alphabetical order, then the application fields in alphabetical order.
  */
  lemma SortLayout(order: seq<string>, fields: seq<Field>, i: nat, j: nat)
    requires i < j < |fields|
    ensures var a, b := Sort(order, fields)[i].name, Sort(order, fields)[j].name;
      && Class(order, a) <= Class(order, b)
      && (Class(order, a) == Class(order, b) == 0 ==> Position(order, a) <= Position(order, b))
      && (Class(order, a) == Class(order, b) > 0 ==> a == b || Alphabetical(a, b))
  {
    SortSorted(order, fields);
    BeforeByClass(order, Sort(order, fields)[i].name, Sort(order, fields)[j].name);
  }

  // ---------- the sort of the writer ----------

  /** Inserting into a prefix and keeping the rest is inserting into the whole, one place further left. */
  lemma InsertMoves(order: seq<string>, pre: seq<Field>, f: Field, j: nat)
    requires 0 < j <= |pre| && Before(order, f.name, pre[j - 1].name)
    ensures Insert(order, pre[..j], f) + pre[j..] == Insert(order, pre[..j - 1], f) + pre[j - 1..]
  {
    assert pre[..j][..j - 1] == pre[..j - 1] && pre[..j][j - 1] == pre[j - 1];
    Associative(Insert(order, pre[..j - 1], f), [pre[j - 1]], pre[j..]);
    assert [pre[j - 1]] + pre[j..] == pre[j - 1..];
  }

  lemma InsertStops(order: seq<string>, pre: seq<Field>, f: Field, j: nat)
    requires j <= |pre| && (j == 0 || !Before(order, f.name, pre[j - 1].name))
    ensures Insert(order, pre[..j], f) == pre[..j] + [f]
  {
  }

  /** `f` put behind the first `j` fields of `pre`. */
  function Placed(pre: seq<Field>, f: Field, j: nat, rest: seq<Field>): (s: seq<Field>)
    requires j <= |pre|
    ensures |s| == |pre| + 1 + |rest| && s[j] == f && (j > 0 ==> s[j - 1] == pre[j - 1])
  {
    pre[..j] + [f] + pre[j..] + rest
  }

  lemma PlacedSwap(pre: seq<Field>, f: Field, j: nat, rest: seq<Field>)
    requires 0 < j <= |pre|
    ensures Placed(pre, f, j - 1, rest) == Placed(pre, f, j, rest)[j := pre[j - 1]][j - 1 := f]
  {
  }

  lemma PlacedParts(s: seq<Field>, i: nat)
    requires i < |s|
    ensures s == Placed(s[..i], s[i], i, s[i + 1..])
  {
  }

  /** Where the sift stops the field has been inserted. */
  lemma PlacedIsInserted(order: seq<string>, pre: seq<Field>, f: Field, j: nat, rest: seq<Field>)
    requires j <= |pre| && (j == 0 || !Before(order, f.name, pre[j - 1].name))
    requires Insert(order, pre, f) == Insert(order, pre[..j], f) + pre[j..]
    ensures Placed(pre, f, j, rest) == Insert(order, pre, f) + rest
  {
    InsertStops(order, pre, f, j);
  }

  method SwapLeft(a: array<Field>, j: nat)
    requires 0 < j < a.Length
    modifies a
    ensures a[..] == old(a[..])[j := old(a[j - 1])][j - 1 := old(a[j])]
  {
    a[j], a[j - 1] := a[j - 1], a[j];
  }

  /** Moves a[i] left while it comes before its neighbour. */
  method SiftLeft(order: seq<string>, a: array<Field>, i: nat)
    requires i < a.Length
    modifies a
    ensures a[..] == Insert(order, old(a[..i]), old(a[i])) + old(a[i + 1..])
  {
    ghost var pre, f, rest := a[..i], a[i], a[i + 1..];
    var j := i;
    PlacedParts(a[..], i);
    assert a[..][..i] == pre && a[..][i + 1..] == rest;
    assert pre[..i] == pre && Insert(order, pre, f) == Insert(order, pre, f) + pre[i..];
    while j > 0 && Less(KeyOf(order, a[j].name), KeyOf(order, a[j - 1].name))
      invariant j <= i && a[..] == Placed(pre, f, j, rest)
      invariant Insert(order, pre, f) == Insert(order, pre[..j], f) + pre[j..]
    {
      assert a[..][j] == f && a[..][j - 1] == pre[j - 1];
      InsertMoves(order, pre, f, j);
      PlacedSwap(pre, f, j, rest);
      SwapLeft(a, j);
      j := j - 1;
    }
    assert a[..][j] == f && (j > 0 ==> a[..][j - 1] == pre[j - 1]);
    PlacedIsInserted(order, pre, f, j, rest);
  }

  /** sortFields: a sorted copy of the fields. */
  method SortFields(order: seq<string>, fields: seq<Field>) returns (r: seq<Field>)
    ensures r == Sort(order, fields)
  {
    var n := |fields|;
    var a := new Field[n](i requires 0 <= i < n => fields[i]);
    for i := 0 to n
      invariant a[..i] == Sort(order, fields[..i])
      invariant forall k :: i <= k < n ==> a[k] == fields[k]
    {
      assert fields[..i + 1][..i] == fields[..i];
      SiftLeft(order, a, i);
    }
    assert fields[..n] == fields;
    r := a[..];
  }
}
