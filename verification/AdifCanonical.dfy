/** What mode canonicalisation and the canonical order do to a record together. */
module AdifCanonical {
  import opened Wrappers
  import opened AdifSyntax
  import opened AdifRecord
  import opened AdifModes
  import opened AdifSort
  import opened Sequences

  // ---------- updates, name by name ----------

  function FirstValue(named: seq<Field>): string {
    if named == [] then "" else named[0].value
  }

  lemma {:induction false} ValueIsFirst(fields: seq<Field>, name: string)
    ensures ValueOf(fields, name) == FirstValue(Named(fields, name))
    ensures (Find(fields, name) == |fields|) <==> Named(fields, name) == []
  {
    if fields != [] && fields[0].name != name {
      ValueIsFirst(fields[1..], name);
    }
  }

  /** What setting `name` makes of the fields under it. */
  function Reset(named: seq<Field>, name: string, value: string): seq<Field> {
    if named == [] then [Field(name, value, "")] else [named[0].(value := value)] + named[1..]
  }

  lemma ResetCons(f: Field, named: seq<Field>, name: string, value: string)
    ensures Reset([f] + named, name, value) == [f.(value := value)] + named
  {
    assert ([f] + named)[1..] == named;
  }

  lemma {:induction false} WithValueTail(fields: seq<Field>, name: string, value: string)
    requires fields != [] && fields[0].name != name
    ensures WithValue(fields, name, value) == [fields[0]] + WithValue(fields[1..], name, value)
  {
    var i := Find(fields[1..], name);
    assert Find(fields, name) == i + 1;
    assert fields == [fields[0]] + fields[1..];
    if i < |fields| - 1 {
      assert fields[i + 1 := fields[i + 1].(value := value)]
          == [fields[0]] + fields[1..][i := fields[1..][i].(value := value)];
    } else {
      Associative([fields[0]], fields[1..], [Field(name, value, "")]);
    }
  }

  lemma {:induction false} WithValueNamed(fields: seq<Field>, name: string, value: string, other: string)
    ensures Named(WithValue(fields, name, value), other)
         == if other == name then Reset(Named(fields, name), name, value) else Named(fields, other)
  {
    if fields == [] {
      NamedCons(Field(name, value, ""), [], other);
    } else {
      var f, rest := fields[0], fields[1..];
      assert fields == [f] + rest;
      if f.name == name {
        assert WithValue(fields, name, value) == [f.(value := value)] + rest;
        NamedCons(f.(value := value), rest, other);
        NamedCons(f, rest, other);
        ResetCons(f, Named(rest, other), name, value);
      } else {
        WithValueTail(fields, name, value);
        WithValueNamed(rest, name, value, other);
        NamedCons(f, WithValue(rest, name, value), other);
      }
    }
  }

  lemma {:induction false} WithoutNamed(fields: seq<Field>, name: string, other: string)
    ensures Named(Without(fields, name), other) == if other == name then [] else Named(fields, other)
  {
    if fields != [] {
      WithoutNamed(fields[1..], name, other);
      var rest := Without(fields[1..], name);
      assert ([fields[0]] + rest)[1..] == rest;
      assert IfOther(fields[0], name) + rest == if fields[0].name == name then rest else [fields[0]] + rest;
    }
  }

  lemma {:induction false} WithoutAbsent(fields: seq<Field>, name: string)
    requires Named(fields, name) == []
    ensures Without(fields, name) == fields
  {
    if fields != [] {
      assert Named(fields, name) == IfNamed(fields[0], name) + Named(fields[1..], name);
      WithoutAbsent(fields[1..], name);
      assert fields == [fields[0]] + fields[1..];
    }
  }

  lemma WithSameValue(fields: seq<Field>, name: string, value: string)
    requires ValueOf(fields, name) == value != ""
    ensures WithValue(fields, name, value) == fields
  {
    var i := Find(fields, name);
    assert fields[i].(value := value) == fields[i];
  }

  // ---------- canonical records ----------

  /** The MODE/SUBMODE pair of the record. */
  function Pair(fields: seq<Field>): (string, string) {
    (ValueOf(fields, "MODE"), ValueOf(fields, "SUBMODE"))
  }

  /** The mode pair is unknown, or stored in canonical form. */
  predicate Settled(t: ModeTables, fields: seq<Field>) {
    var v := NormalizeModePair(t, ValueOf(fields, "MODE"), ValueOf(fields, "SUBMODE"));
    v.Some? ==>
      && Pair(fields) == (v.value.mode, v.value.submode)
      && v.value.mode != ""
      && (v.value.submode == "" ==> Named(fields, "SUBMODE") == [])
  }

  /** The fields under `name` after canonicalisation to the pair `v`. */
  function CanonicalNamed(named: seq<Field>, v: Option<ModeValue>, name: string): seq<Field> {
    if v.None? then named
    else if name == "MODE" then Reset(named, name, v.value.mode)
    else if name == "SUBMODE" then (if v.value.submode == "" then [] else Reset(named, name, v.value.submode))
    else named
  }

  /** Canonicalisation acts on the fields under each name separately. */
  lemma CanonicalByName(t: ModeTables, fields: seq<Field>, name: string)
    ensures var v := NormalizeModePair(t, ValueOf(fields, "MODE"), ValueOf(fields, "SUBMODE"));
      Named(Canonical(t, fields), name) == CanonicalNamed(Named(fields, name), v, name)
  {
    var v := NormalizeModePair(t, ValueOf(fields, "MODE"), ValueOf(fields, "SUBMODE"));
    if v.Some? {
      var withMode := WithValue(fields, "MODE", v.value.mode);
      WithValueNamed(fields, "MODE", v.value.mode, name);
      WithValueNamed(withMode, "SUBMODE", v.value.submode, name);
      WithoutNamed(withMode, "SUBMODE", name);
      assert "MODE" != "SUBMODE";
    }
  }

  /** Records with the same fields under each name still have that after canonicalisation. */
  lemma CanonicalSameFields(t: ModeTables, a: seq<Field>, b: seq<Field>)
    requires SameFields(a, b)
    ensures SameFields(Canonical(t, a), Canonical(t, b))
  {
    ValueIsFirst(a, "MODE");
    ValueIsFirst(b, "MODE");
    ValueIsFirst(a, "SUBMODE");
    ValueIsFirst(b, "SUBMODE");
    forall name
      ensures Named(Canonical(t, a), name) == Named(Canonical(t, b), name)
    {
      CanonicalByName(t, a, name);
      CanonicalByName(t, b, name);
    }
  }

  lemma CanonicalSettles(t: ModeTables, fields: seq<Field>)
    requires Coherent(t)
    ensures Settled(t, Canonical(t, fields))
  {
    var r := Canonical(t, fields);
    var v := NormalizeModePair(t, ValueOf(fields, "MODE"), ValueOf(fields, "SUBMODE"));
    if v.Some? {
      NormalizeCloses(t, ValueOf(fields, "MODE"), ValueOf(fields, "SUBMODE"));
      CanonicalByName(t, fields, "MODE");
      CanonicalByName(t, fields, "SUBMODE");
      ValueIsFirst(r, "MODE");
      ValueIsFirst(r, "SUBMODE");
      assert "MODE" != "SUBMODE";
      assert Pair(r) == (v.value.mode, v.value.submode);
    }
  }

  lemma SettledIsFixed(t: ModeTables, fields: seq<Field>)
    requires Settled(t, fields)
    ensures Canonical(t, fields) == fields
  {
    var v := NormalizeModePair(t, ValueOf(fields, "MODE"), ValueOf(fields, "SUBMODE"));
    if v.Some? {
      WithSameValue(fields, "MODE", v.value.mode);
      if v.value.submode == "" {
        WithoutAbsent(fields, "SUBMODE");
      } else {
        WithSameValue(fields, "SUBMODE", v.value.submode);
      }
    }
  }

  lemma SettledSameFields(t: ModeTables, a: seq<Field>, b: seq<Field>)
    requires SameFields(a, b) && Settled(t, a)
    ensures Settled(t, b)
  {
    ValueIsFirst(a, "MODE");
    ValueIsFirst(b, "MODE");
    ValueIsFirst(a, "SUBMODE");
    ValueIsFirst(b, "SUBMODE");
  }

  /** The fields of a record as they are exported. */
  function Exported(t: ModeTables, order: seq<string>, fields: seq<Field>): seq<Field> {
    Sort(order, Canonical(t, fields))
  }

  /** Exporting an exported record changes nothing, also with repeated MODE or SUBMODE fields. */
  lemma ExportedIdempotent(t: ModeTables, order: seq<string>, fields: seq<Field>)
    requires Coherent(t)
    ensures Exported(t, order, Exported(t, order, fields)) == Exported(t, order, fields)
  {
    var c := Canonical(t, fields);
    var e := Sort(order, c);
    CanonicalSettles(t, fields);
    SortSpec(order, c, e);
    SettledSameFields(t, c, e);
    SettledIsFixed(t, e);
    SortSpec(order, e, e);
  }

  /** Records with the same fields under each name are exported alike. */
  lemma ExportedSameFields(t: ModeTables, order: seq<string>, a: seq<Field>, b: seq<Field>)
    requires SameFields(a, b)
    ensures Exported(t, order, a) == Exported(t, order, b)
  {
    CanonicalSameFields(t, a, b);
    SortEqualIff(order, Canonical(t, a), Canonical(t, b));
  }

  // ---------- field order ----------

  predicate DistinctNames(fields: seq<Field>) {
    forall i, j :: 0 <= i < j < |fields| ==> fields[i].name != fields[j].name
  }

  lemma {:induction false} NamedDistinct(fields: seq<Field>, i: nat)
    requires DistinctNames(fields) && i < |fields|
    ensures Named(fields, fields[i].name) == [fields[i]]
  {
    if i > 0 {
      NamedDistinct(fields[1..], i - 1);
    } else {
      NamedAbsent(fields[1..], fields[0].name);
    }
  }

  lemma {:induction false} NamedAbsent(fields: seq<Field>, name: string)
    requires forall i :: 0 <= i < |fields| ==> fields[i].name != name
    ensures Named(fields, name) == []
  {
    if fields != [] {
      NamedAbsent(fields[1..], name);
    }
  }

  /** Fields with distinct names, in whatever order, are the same fields under each name. */
  lemma PermutedSameFields(a: seq<Field>, b: seq<Field>)
    requires DistinctNames(a) && DistinctNames(b) && multiset(a) == multiset(b)
    ensures SameFields(a, b)
  {
    forall name
      ensures Named(a, name) == Named(b, name)
    {
      var i := Find(a, name);
      if i < |a| {
        NamedDistinct(a, i);
        assert a[i] in multiset(b);
        var k :| 0 <= k < |b| && b[k] == a[i];
        NamedDistinct(b, k);
      } else {
        forall k | 0 <= k < |b|
          ensures b[k].name != name
        {
          assert b[k] in multiset(a);
          assert b[k] in a;
        }
        NamedAbsent(a, name);
        NamedAbsent(b, name);
      }
    }
  }

  /** Records with the same distinct-named fields are exported alike, whatever their field order. */
  lemma PermutedExportAlike(t: ModeTables, order: seq<string>, a: seq<Field>, b: seq<Field>)
    requires DistinctNames(a) && DistinctNames(b) && multiset(a) == multiset(b)
    ensures Exported(t, order, a) == Exported(t, order, b)
  {
    PermutedSameFields(a, b);
    ExportedSameFields(t, order, a, b);
  }
}
