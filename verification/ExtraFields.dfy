/**
Merging a QSO's extra JSON fields into its export record. Go visits a map in any order;
`keys` is the order of one run.
*/
module ExtraFields {
  import opened Wrappers
  import opened GoStrings
  import opened AdifSyntax
  import opened AdifRecord
  import opened AdifModes
  import opened AdifSort
  import opened AdifCanonical
  import opened Sequences

  /** One visit: blank values, nameless keys and names the record already has are passed over. */
  function AddExtra(fields: seq<Field>, key: string, value: string): seq<Field> {
    var name := Normal(key);
    if name == "" || Named(fields, name) != [] || TrimSpace(value) == "" then fields
    else WithValue(fields, name, value)
  }

  function Merged(fields: seq<Field>, extra: map<string, string>, keys: seq<string>): seq<Field>
    requires forall k :: k in keys ==> k in extra
    decreases |keys|
  {
    if keys == [] then fields
    else Merged(AddExtra(fields, keys[0], extra[keys[0]]), extra, keys[1..])
  }

  /** An order in which a map with these keys can be visited. */
  ghost predicate IsOrder(keys: seq<string>, extra: map<string, string>) {
    && (forall k :: k in keys <==> k in extra)
    && (forall i, j :: 0 <= i < j < |keys| ==> keys[i] != keys[j])
  }

  method MergeExtraFields(rec: Record, extra: map<string, string>, keys: seq<string>)
    requires rec.Valid() && IsOrder(keys, extra)
    modifies rec, rec.buf
    ensures rec.Valid() && (rec.buf == old(rec.buf) || fresh(rec.buf))
    ensures rec.Fields() == Merged(old(rec.Fields()), extra, keys)
  {
    for i := 0 to |keys|
      invariant rec.Valid() && (rec.buf == old(rec.buf) || fresh(rec.buf))
      invariant Merged(rec.Fields(), extra, keys[i..]) == Merged(old(rec.Fields()), extra, keys)
    {
      var key, value := keys[i], extra[keys[i]];
      assert keys[i..][0] == key && keys[i..][1..] == keys[i + 1..];
      AddOne(rec, key, value);
    }
  }

  method AddOne(rec: Record, key: string, value: string)
    requires rec.Valid()
    modifies rec, rec.buf
    ensures rec.Valid() && (rec.buf == old(rec.buf) || fresh(rec.buf))
    ensures rec.Fields() == AddExtra(old(rec.Fields()), key, value)
  {
    var name := ToUpper(TrimSpace(key));
    UpperOfUpper(TrimSpace(key));
    UpperOfUpper(name);
    if name == "" {
      return;
    }
    var present := rec.Has(name);
    PresentIff(rec.Fields(), name);
    if present || TrimSpace(value) == "" {
      return;
    }
    rec.Set(name, value);
  }

  lemma {:induction false} PresentIff(fields: seq<Field>, name: string)
    ensures (exists f :: f in fields && f.name == name) <==> Named(fields, name) != []
  {
    ValueIsFirst(fields, name);
    if Find(fields, name) < |fields| {
      assert fields[Find(fields, name)] in fields;
    }
  }

  // ---------- what a merge leaves under each name ----------

  /** The key competes for `name`. */
  predicate Offers(key: string, extra: map<string, string>, name: string) {
    key in extra && Normal(key) == name && name != "" && TrimSpace(extra[key]) != ""
  }

  /** The first visited key that competes for `name`. */
  function FirstOffer(keys: seq<string>, extra: map<string, string>, name: string): (r: Option<string>)
    ensures r.Some? ==> r.value in keys && Offers(r.value, extra, name)
    ensures r.None? ==> forall k :: k in keys ==> !Offers(k, extra, name)
  {
    if keys == [] then None
    else if Offers(keys[0], extra, name) then Some(keys[0])
    else FirstOffer(keys[1..], extra, name)
  }

  lemma AddExtraNamed(fields: seq<Field>, extra: map<string, string>, key: string, name: string)
    requires key in extra
    ensures Named(AddExtra(fields, key, extra[key]), name)
         == if Named(fields, name) == [] && Offers(key, extra, name) then [Field(name, extra[key], "")] else Named(fields, name)
  {
    WithValueNamed(fields, Normal(key), extra[key], name);
  }

  /** A name keeps its fields when it has any; otherwise the first key that offers it wins. */
  lemma {:induction false} MergedNamed(fields: seq<Field>, extra: map<string, string>, keys: seq<string>, name: string)
    requires forall k :: k in keys ==> k in extra
    ensures Named(Merged(fields, extra, keys), name) ==
      var first := FirstOffer(keys, extra, name);
      if Named(fields, name) == [] && first.Some? then [Field(name, extra[first.value], "")] else Named(fields, name)
    decreases |keys|
  {
    if keys != [] {
      AddExtraNamed(fields, extra, keys[0], name);
      MergedNamed(AddExtra(fields, keys[0], extra[keys[0]]), extra, keys[1..], name);
    }
  }

  // ---------- when the order matters ----------

  /** No two keys put different values under a name the record does not have. */
  ghost predicate NoConflict(fields: seq<Field>, extra: map<string, string>) {
    forall a, b, name :: Named(fields, name) == [] && Offers(a, extra, name) && Offers(b, extra, name)
      ==> extra[a] == extra[b]
  }

  ghost predicate OrderIrrelevant(fields: seq<Field>, extra: map<string, string>) {
    forall p, q :: IsOrder(p, extra) && IsOrder(q, extra)
      ==> SameFields(Merged(fields, extra, p), Merged(fields, extra, q))
  }

  lemma NoConflictSuffices(fields: seq<Field>, extra: map<string, string>, p: seq<string>, q: seq<string>)
    requires IsOrder(p, extra) && IsOrder(q, extra) && NoConflict(fields, extra)
    ensures SameFields(Merged(fields, extra, p), Merged(fields, extra, q))
  {
    forall name
      ensures Named(Merged(fields, extra, p), name) == Named(Merged(fields, extra, q), name)
    {
      MergedNamed(fields, extra, p, name);
      MergedNamed(fields, extra, q, name);
    }
  }

  /** Every finite set of keys can be visited, starting with any of them. */
  lemma {:induction false} OrderExists(s: set<string>, first: string) returns (keys: seq<string>)
    requires first in s
    ensures |keys| > 0 && keys[0] == first
    ensures forall k :: k in keys <==> k in s
    ensures forall i, j :: 0 <= i < j < |keys| ==> keys[i] != keys[j]
    decreases |s|
  {
    var rest := s - {first};
    if rest == {} {
      keys := [first];
    } else {
      var next :| next in rest;
      var tail := OrderExists(rest, next);
      keys := [first] + tail;
    }
  }

  /** The merged record does not depend on the order of the visit exactly when no keys conflict. */
  lemma OrderIrrelevantIff(fields: seq<Field>, extra: map<string, string>)
    ensures OrderIrrelevant(fields, extra) <==> NoConflict(fields, extra)
  {
    if NoConflict(fields, extra) {
      forall p, q | IsOrder(p, extra) && IsOrder(q, extra)
        ensures SameFields(Merged(fields, extra, p), Merged(fields, extra, q))
      {
        NoConflictSuffices(fields, extra, p, q);
      }
    } else {
      var a, b, name :| Named(fields, name) == [] && Offers(a, extra, name) && Offers(b, extra, name)
        && extra[a] != extra[b];
      var p := OrderExists(extra.Keys, a);
      var q := OrderExists(extra.Keys, b);
      assert IsOrder(p, extra) && IsOrder(q, extra);
      MergedNamed(fields, extra, p, name);
      MergedNamed(fields, extra, q, name);
      assert !SameFields(Merged(fields, extra, p), Merged(fields, extra, q));
    }
  }

  /** Distinct normalised keys never conflict, so the order of the visit cannot show in an export. */
  lemma DistinctKeysExportAlike(t: ModeTables, order: seq<string>, fields: seq<Field>, extra: map<string, string>,
      p: seq<string>, q: seq<string>)
    requires IsOrder(p, extra) && IsOrder(q, extra)
    requires forall a, b :: a in extra && b in extra && a != b ==> Normal(a) != Normal(b)
    ensures Exported(t, order, Merged(fields, extra, p)) == Exported(t, order, Merged(fields, extra, q))
  {
    NoConflictSuffices(fields, extra, p, q);
    ExportedSameFields(t, order, Merged(fields, extra, p), Merged(fields, extra, q));
  }

  // ---------- records built by setting fields ----------

  datatype Assignment = Assignment(name: string, value: string)

  /** setField: a blank value is passed over, others are trimmed. */
  function SetField(fields: seq<Field>, a: Assignment): seq<Field> {
    var trimmed := TrimSpace(a.value);
    if trimmed == "" then fields else WithValue(fields, ToUpper(a.name), trimmed)
  }

  function SetFields(fields: seq<Field>, assignments: seq<Assignment>): seq<Field>
    decreases |assignments|
  {
    if assignments == [] then fields else SetFields(SetField(fields, assignments[0]), assignments[1..])
  }

  /** toADIFRecord: what the row sets before and after the mode is canonicalised, then the extra fields. */
  function Built(t: ModeTables, before: seq<Assignment>, after: seq<Assignment>, extra: map<string, string>, keys: seq<string>):
      seq<Field>
    requires forall k :: k in keys ==> k in extra
  {
    Merged(SetFields(Canonical(t, SetFields([], before)), after), extra, keys)
  }

  /** The value a record holds under a name: that of the first field. */
  function Held(fields: seq<Field>, name: string): Option<string> {
    FirstHeld(Named(fields, name))
  }

  function FirstHeld(named: seq<Field>): Option<string> {
    if named == [] then None else Some(named[0].value)
  }

  /** The assignment sets a field called `name`. */
  predicate Sets(a: Assignment, name: string) {
    ToUpper(a.name) == name && TrimSpace(a.value) != ""
  }

  /** The last assignment that sets `name`. */
  function LastSet(assignments: seq<Assignment>, name: string): (i: int)
    ensures -1 <= i < |assignments|
    ensures i >= 0 ==> Sets(assignments[i], name)
    ensures forall j :: i < j < |assignments| ==> !Sets(assignments[j], name)
  {
    var n := |assignments| - 1;
    if n < 0 then -1 else if Sets(assignments[n], name) then n else LastSet(assignments[..n], name)
  }

  /** What a list of assignments leaves under `name`, if it sets it at all. */
  function Given(assignments: seq<Assignment>, name: string): Option<string> {
    var i := LastSet(assignments, name);
    if i >= 0 then Some(TrimSpace(assignments[i].value)) else None
  }

  function OrElse(a: Option<string>, b: Option<string>): Option<string> {
    if a.Some? then a else b
  }

  lemma {:induction false} SetFieldsSnoc(fields: seq<Field>, assignments: seq<Assignment>, a: Assignment)
    ensures SetFields(fields, assignments + [a]) == SetField(SetFields(fields, assignments), a)
    decreases |assignments|
  {
    if assignments == [] {
      assert assignments + [a] == [a] && [a][1..] == [];
    } else {
      SetFieldsSnoc(SetField(fields, assignments[0]), assignments[1..], a);
      Uncons(assignments, [a]);
    }
  }

  lemma SetFieldHeld(fields: seq<Field>, a: Assignment, name: string)
    ensures Held(SetField(fields, a), name) == if Sets(a, name) then Some(TrimSpace(a.value)) else Held(fields, name)
  {
    WithValueNamed(fields, ToUpper(a.name), TrimSpace(a.value), name);
  }

  /** After a list of assignments a record holds what the last one for a name gave, or what it held before. */
  lemma {:induction false} LastAssignmentWins(fields: seq<Field>, assignments: seq<Assignment>, name: string)
    ensures Held(SetFields(fields, assignments), name) == OrElse(Given(assignments, name), Held(fields, name))
    decreases |assignments|
  {
    if assignments != [] {
      var n := |assignments| - 1;
      LastAssignmentWins(fields, assignments[..n], name);
      SetFieldsSnoc(fields, assignments[..n], assignments[n]);
      assert assignments == assignments[..n] + [assignments[n]];
      SetFieldHeld(SetFields(fields, assignments[..n]), assignments[n], name);
    }
  }

  /** What canonicalising a record with the given mode and submode leaves under `name`. */
  function AfterCanonical(v: Option<ModeValue>, name: string, before: Option<string>): Option<string> {
    if v.None? then before
    else if name == "MODE" then Some(v.value.mode)
    else if name == "SUBMODE" then (if v.value.submode == "" then None else Some(v.value.submode))
    else before
  }

  function TextOf(o: Option<string>): string {
    if o.Some? then o.value else ""
  }

  lemma HeldText(fields: seq<Field>, name: string)
    ensures ValueOf(fields, name) == TextOf(Held(fields, name))
  {
    ValueIsFirst(fields, name);
  }

  lemma CanonicalFirst(named: seq<Field>, v: Option<ModeValue>, name: string)
    ensures FirstHeld(CanonicalNamed(named, v, name)) == AfterCanonical(v, name, FirstHeld(named))
  {
  }

  lemma CanonicalHeld(t: ModeTables, fields: seq<Field>, name: string)
    ensures var v := NormalizeModePair(t, TextOf(Held(fields, "MODE")), TextOf(Held(fields, "SUBMODE")));
      Held(Canonical(t, fields), name) == AfterCanonical(v, name, Held(fields, name))
  {
    HeldText(fields, "MODE");
    HeldText(fields, "SUBMODE");
    CanonicalByName(t, fields, name);
    var v := NormalizeModePair(t, ValueOf(fields, "MODE"), ValueOf(fields, "SUBMODE"));
    CanonicalFirst(Named(fields, name), v, name);
  }

  function Offered(extra: map<string, string>, keys: seq<string>, name: string): Option<string> {
    var first := FirstOffer(keys, extra, name);
    if first.Some? then Some(extra[first.value]) else None
  }

  lemma MergedHeld(fields: seq<Field>, extra: map<string, string>, keys: seq<string>, name: string)
    requires forall k :: k in keys ==> k in extra
    ensures Held(Merged(fields, extra, keys), name) == OrElse(Held(fields, name), Offered(extra, keys, name))
  {
    MergedNamed(fields, extra, keys, name);
  }

  /** The record as it is when the mode has been canonicalised. */
  lemma HeadHolds(t: ModeTables, before: seq<Assignment>, name: string)
    ensures var v := NormalizeModePair(t, TextOf(Given(before, "MODE")), TextOf(Given(before, "SUBMODE")));
      Held(Canonical(t, SetFields([], before)), name) == AfterCanonical(v, name, Given(before, name))
  {
    LastAssignmentWins([], before, "MODE");
    LastAssignmentWins([], before, "SUBMODE");
    LastAssignmentWins([], before, name);
    CanonicalHeld(t, SetFields([], before), name);
  }

  /**
  What the record built from a row holds under a name: what was set last after the mode was
  canonicalised, else what canonicalising left of what was set before, else what the first
  extra field for the name offers.
  */
  lemma BuiltHolds(t: ModeTables, before: seq<Assignment>, after: seq<Assignment>,
      extra: map<string, string>, keys: seq<string>, name: string)
    requires forall k :: k in keys ==> k in extra
    ensures var v := NormalizeModePair(t, TextOf(Given(before, "MODE")), TextOf(Given(before, "SUBMODE")));
      Held(Built(t, before, after, extra, keys), name) ==
        OrElse(Given(after, name), OrElse(AfterCanonical(v, name, Given(before, name)), Offered(extra, keys, name)))
  {
    var c := Canonical(t, SetFields([], before));
    HeadHolds(t, before, name);
    LastAssignmentWins(c, after, name);
    MergedHeld(SetFields(c, after), extra, keys, name);
  }

  /** No name occurs twice, seen name by name. */
  ghost predicate EachOnce(fields: seq<Field>) {
    forall name :: |Named(fields, name)| <= 1
  }

  lemma {:induction false} EachOnceIsDistinct(fields: seq<Field>)
    requires EachOnce(fields)
    ensures DistinctNames(fields)
  {
    if fields != [] {
      var f, rest := fields[0], fields[1..];
      assert fields == [f] + rest;
      forall name
        ensures |Named(rest, name)| <= 1
      {
        NamedCons(f, rest, name);
        assert |Named(fields, name)| <= 1;
      }
      EachOnceIsDistinct(rest);
      forall i | 0 < i < |fields|
        ensures fields[0].name != fields[i].name
      {
        InNamed(rest, fields[i]);
        NamedCons(f, rest, f.name);
        assert |Named(fields, f.name)| <= 1;
      }
    }
  }

  lemma WithValueOnce(fields: seq<Field>, name: string, value: string)
    requires EachOnce(fields)
    ensures EachOnce(WithValue(fields, name, value))
  {
    forall other
      ensures |Named(WithValue(fields, name, value), other)| <= 1
    {
      WithValueNamed(fields, name, value, other);
      assert |Named(fields, other)| <= 1;
    }
  }

  lemma {:induction false} SetFieldsOnce(fields: seq<Field>, assignments: seq<Assignment>)
    requires EachOnce(fields)
    ensures EachOnce(SetFields(fields, assignments))
    decreases |assignments|
  {
    if assignments != [] {
      var a := assignments[0];
      WithValueOnce(fields, ToUpper(a.name), TrimSpace(a.value));
      SetFieldsOnce(SetField(fields, a), assignments[1..]);
    }
  }

  lemma CanonicalOnce(t: ModeTables, fields: seq<Field>)
    requires EachOnce(fields)
    ensures EachOnce(Canonical(t, fields))
  {
    forall name
      ensures |Named(Canonical(t, fields), name)| <= 1
    {
      CanonicalByName(t, fields, name);
      assert |Named(fields, name)| <= 1;
    }
  }

  lemma MergedOnce(fields: seq<Field>, extra: map<string, string>, keys: seq<string>)
    requires EachOnce(fields) && forall k :: k in keys ==> k in extra
    ensures EachOnce(Merged(fields, extra, keys))
  {
    forall name
      ensures |Named(Merged(fields, extra, keys), name)| <= 1
    {
      MergedNamed(fields, extra, keys, name);
      assert |Named(fields, name)| <= 1;
    }
  }

  lemma SortOnce(order: seq<string>, fields: seq<Field>)
    requires EachOnce(fields)
    ensures EachOnce(Sort(order, fields))
  {
    forall name
      ensures |Named(Sort(order, fields), name)| <= 1
    {
      SortKeepsFields(order, fields, name);
      assert |Named(fields, name)| <= 1;
    }
  }

  /**
  Whatever a row and its extra fields hold, no name is repeated, neither in the record built
  from them nor in its export.
  */
  lemma BuiltDistinct(t: ModeTables, order: seq<string>, before: seq<Assignment>, after: seq<Assignment>,
      extra: map<string, string>, keys: seq<string>)
    requires forall k :: k in keys ==> k in extra
    ensures var fields := Built(t, before, after, extra, keys);
      DistinctNames(fields) && DistinctNames(Exported(t, order, fields))
  {
    var head := SetFields([], before);
    SetFieldsOnce([], before);
    CanonicalOnce(t, head);
    SetFieldsOnce(Canonical(t, head), after);
    MergedOnce(SetFields(Canonical(t, head), after), extra, keys);
    var fields := Built(t, before, after, extra, keys);
    CanonicalOnce(t, fields);
    SortOnce(order, Canonical(t, fields));
    EachOnceIsDistinct(fields);
    EachOnceIsDistinct(Exported(t, order, fields));
  }
}
