/**
MODE/SUBMODE normalisation over a mode catalogue. The properties hold for every coherent
catalogue; module ModeCatalogue shows that the built-in one is coherent.
*/
module AdifModes {
  import opened Wrappers
  import opened GoStrings
  import opened AdifSyntax
  import opened AdifRecord

  datatype ModeValue = ModeValue(mode: string, submode: string)

  /** Canonical modes, the mode of each submode, and what each accepted alias stands for. */
  datatype ModeTables = ModeTables(
    modes: set<string>, submodes: map<string, string>, aliases: map<string, ModeValue>)

  // ---------- the alias table ----------

  /** The explicit aliases, and every other submode as an alias of itself. */
  function AllAliases(explicit: map<string, ModeValue>, submodes: map<string, string>): map<string, ModeValue> {
    explicit + map s | s in submodes && s !in explicit :: ModeValue(submodes[s], s)
  }

  /** buildModeAliases: the submodes are visited in any order. */
  method BuildModeAliases(explicit: map<string, ModeValue>, submodes: map<string, string>)
    returns (aliases: map<string, ModeValue>)
    ensures aliases == AllAliases(explicit, submodes)
  {
    aliases := explicit;
    var todo := submodes.Keys;
    while todo != {}
      invariant todo <= submodes.Keys
      invariant aliases == AllAliases(explicit, submodes - todo)
      decreases |todo|
    {
      var submode :| submode in todo;
      ghost var before := todo;
      todo := todo - {submode};
      if submode !in aliases {
        aliases := aliases[submode := ModeValue(submodes[submode], submode)];
      }
      OneMore(explicit, submodes, before, submode);
    }
    assert submodes - {} == submodes;
  }

  lemma OneMore(explicit: map<string, ModeValue>, submodes: map<string, string>, todo: set<string>, s: string)
    requires todo <= submodes.Keys && s in todo
    ensures var a := AllAliases(explicit, submodes - todo);
      AllAliases(explicit, submodes - (todo - {s})) == if s in a then a else a[s := ModeValue(submodes[s], s)]
  {
  }

  // ---------- normalisation ----------

  function Normal(s: string): string {
    ToUpper(TrimSpace(s))
  }

  function ResolveMode(t: ModeTables, mode: string): Option<ModeValue> {
    var m := Normal(mode);
    if m == "" then None
    else if m in t.aliases then Some(t.aliases[m])
    else if m in t.modes then Some(ModeValue(m, ""))
    else None
  }

  function NormalizeModePair(t: ModeTables, mode: string, submode: string): Option<ModeValue> {
    var m, s := Normal(mode), Normal(submode);
    if m == "" then None
    else if s == "" then ResolveMode(t, m)
    else
      var resolved := ResolveMode(t, m);
      if resolved.None? then None
      else if resolved.value.submode != "" && resolved.value.submode != s then None
      else if resolved.value.submode == s then resolved
      else
        var canonical := resolved.value.mode;
        if s in t.submodes && t.submodes[s] == canonical then Some(ModeValue(canonical, s))
        else
          var other := ResolveMode(t, s);
          if other.None? then None
          else if other.value == ModeValue(canonical, s) then Some(other.value)
          else if canonical == "MFSK" && other.value == ModeValue(s, "") then other
          else None
  }

  // ---------- coherence ----------

  /** Non-empty, upper-case, trimmed ASCII: a table entry. */
  predicate IsCode(s: string) {
    s != "" && Normal(s) == s && |s| <= MAX_INT64 && forall i :: 0 <= i < |s| ==> s[i] as int < 0x80
  }

  /** `s` is a submode of mode `m`. */
  predicate Belongs(t: ModeTables, s: string, m: string) {
    s != "" && ((s in t.submodes && t.submodes[s] == m) || (s in t.aliases && t.aliases[s] == ModeValue(m, s)))
  }

  /** A canonical mode, alone or with one of its submodes. */
  predicate IsCanonical(t: ModeTables, v: ModeValue) {
    v.mode in t.modes && (v.submode == "" || Belongs(t, v.submode, v.mode))
  }

  predicate ModeOk(t: ModeTables, m: string) {
    IsCode(m) && m !in t.aliases
  }

  predicate ModesCoherent(t: ModeTables) {
    forall m :: m in t.modes ==> ModeOk(t, m)
  }

  predicate SubmodesCoherent(t: ModeTables) {
    forall s :: s in t.submodes ==> IsCode(s) && t.submodes[s] in t.modes
  }

  predicate AliasesCoherent(t: ModeTables) {
    forall k :: k in t.aliases ==> IsCode(k) && IsCanonical(t, t.aliases[k])
  }

  predicate Coherent(t: ModeTables) {
    ModesCoherent(t) && SubmodesCoherent(t) && AliasesCoherent(t)
  }

  lemma ResolveCanonical(t: ModeTables, mode: string)
    requires Coherent(t)
    ensures var r := ResolveMode(t, mode);
      r.Some? ==> IsCanonical(t, r.value)
    ensures mode in t.modes ==> ResolveMode(t, mode) == Some(ModeValue(mode, ""))
  {
  }

  lemma BelongsIsCode(t: ModeTables, s: string, m: string)
    requires Coherent(t) && Belongs(t, s, m)
    ensures IsCode(s)
  {
  }

  /** An accepted pair becomes canonical and then stays as it is; the pair is left alone exactly when it is canonical. */
  predicate Closes(t: ModeTables, mode: string, submode: string) {
    var r := NormalizeModePair(t, mode, submode);
    && (r.Some? ==> IsCanonical(t, r.value) && NormalizeModePair(t, r.value.mode, r.value.submode) == r)
    && (IsCanonical(t, ModeValue(mode, submode)) <==> r == Some(ModeValue(mode, submode)))
  }

  /** Every accepted pair becomes canonical, and the canonical pairs are the ones left alone. */
  lemma NormalizeCloses(t: ModeTables, mode: string, submode: string)
    requires Coherent(t)
    ensures Closes(t, mode, submode)
  {
    NormalizeIsCanonical(t, mode, submode);
    var r := NormalizeModePair(t, mode, submode);
    if r.Some? {
      CanonicalIsFixed(t, r.value);
    }
    if IsCanonical(t, ModeValue(mode, submode)) {
      CanonicalIsFixed(t, ModeValue(mode, submode));
    }
  }

  lemma NormalIdempotent(s: string)
    ensures Normal(Normal(s)) == Normal(s)
  {
    TrimSpaceSpec(s);
    UpperTrimmed(TrimSpace(s));
    TrimSpaceSpec(Normal(s));
    UpperOfUpper(TrimSpace(s));
    UpperOfUpper(Normal(s));
  }

  lemma NormalizeIsCanonical(t: ModeTables, mode: string, submode: string)
    requires Coherent(t)
    ensures var r := NormalizeModePair(t, mode, submode);
      r.Some? ==> IsCanonical(t, r.value)
  {
    NormalIdempotent(mode);
    NormalIdempotent(submode);
    ResolveCanonical(t, Normal(mode));
    ResolveCanonical(t, Normal(submode));
  }

  lemma CanonicalIsFixed(t: ModeTables, v: ModeValue)
    requires Coherent(t) && IsCanonical(t, v)
    ensures NormalizeModePair(t, v.mode, v.submode) == Some(v)
  {
    ResolveCanonical(t, v.mode);
    if v.submode == "" {
      assert TrimSpace("") == "";
    } else {
      BelongsIsCode(t, v.submode, v.mode);
      assert Normal(v.submode) == v.submode;
    }
  }

  /** The pair that the tables give for a normalised name: that of an alias, or a canonical mode alone. */
  function Entry(t: ModeTables, name: string): Option<ModeValue> {
    if name in t.aliases then Some(t.aliases[name])
    else if name in t.modes then Some(ModeValue(name, ""))
    else None
  }

  /** A mode given alone, in any spelling, becomes what the tables give for it. */
  lemma AloneMeans(t: ModeTables, mode: string, submode: string)
    requires Coherent(t) && Normal(submode) == ""
    ensures NormalizeModePair(t, mode, submode) == Entry(t, Normal(mode))
  {
    NormalIdempotent(mode);
  }

  /**
  What a pair means, from the tables. The mode is taken over with a submode that belongs to
  it; a canonical mode given as a submode of MFSK replaces it; anything else is refused.
  */
  lemma NormalizeMeaning(t: ModeTables, mode: string, submode: string)
    requires Coherent(t)
    ensures var m, s := Entry(t, Normal(mode)), Normal(submode);
      NormalizeModePair(t, mode, submode) ==
        if m.None? || s == "" then m
        else if m.value.submode != "" then (if m.value.submode == s then m else None)
        else if Belongs(t, s, m.value.mode) then Some(ModeValue(m.value.mode, s))
        else if m.value.mode == "MFSK" && s in t.modes then Some(ModeValue(s, ""))
        else None
  {
    NormalIdempotent(mode);
    NormalIdempotent(submode);
    ResolveCanonical(t, mode);
    ResolveCanonical(t, Normal(submode));
    assert ResolveMode(t, Normal(mode)) == Entry(t, Normal(mode));
  }

  /** The alias table: the explicit aliases as they are, and every other submode standing for itself. */
  lemma AliasTable(explicit: map<string, ModeValue>, submodes: map<string, string>, name: string)
    ensures var all := AllAliases(explicit, submodes);
      && (name in all <==> name in explicit || name in submodes)
      && (name in explicit ==> all[name] == explicit[name])
      && (name in submodes && name !in explicit ==> all[name] == ModeValue(submodes[name], name))
  {
  }

  // ---------- records ----------

  /** The record with its MODE/SUBMODE pair made canonical, when the pair is known. */
  function Canonical(t: ModeTables, fields: seq<Field>): seq<Field> {
    var v := NormalizeModePair(t, ValueOf(fields, "MODE"), ValueOf(fields, "SUBMODE"));
    if v.None? then fields
    else
      var withMode := WithValue(fields, "MODE", v.value.mode);
      if v.value.submode == "" then Without(withMode, "SUBMODE")
      else WithValue(withMode, "SUBMODE", v.value.submode)
  }

  lemma NamesAreUpper()
    ensures ToUpper("MODE") == "MODE" && ToUpper("SUBMODE") == "SUBMODE"
  {
    UpperOfUpper("MODE");
    UpperOfUpper("SUBMODE");
  }

  method CanonicalizeRecordMode(t: ModeTables, rec: Record) returns (applied: bool)
    requires rec.Valid()
    modifies rec, rec.buf
    ensures rec.Valid() && (rec.buf == old(rec.buf) || fresh(rec.buf))
    ensures rec.Fields() == Canonical(t, old(rec.Fields()))
    ensures applied <==> NormalizeModePair(t, ValueOf(old(rec.Fields()), "MODE"), ValueOf(old(rec.Fields()), "SUBMODE")).Some?
  {
    NamesAreUpper();
    var mode := rec.Get("MODE");
    var submode := rec.Get("SUBMODE");
    var v := NormalizeModePair(t, mode, submode);
    if v.None? {
      return false;
    }
    rec.Set("MODE", v.value.mode);
    if v.value.submode == "" {
      var _ := rec.Delete("SUBMODE");
    } else {
      rec.Set("SUBMODE", v.value.submode);
    }
    applied := true;
  }
}
