/** The main results about printing and parsing whole files. */
module AdifExport {
  import opened Wrappers
  import opened GoStrings
  import opened Sequences
  import opened AdifSyntax
  import opened AdifReference
  import opened AdifGuarantees
  import opened AdifRecord
  import opened AdifModes
  import opened AdifSort
  import opened AdifCanonical
  import opened AdifWriter
  import opened AdifRoundTrip
  import Utf8

  // ---------- what an export contains ----------

  function HeaderFields(header: Option<seq<Field>>, programVersion: string): seq<Field> {
    StandardFields(programVersion) + (if header.Some? then Extras(header.value) else [])
  }

  /** Values no longer than a Go string can be. */
  predicate GoSized(fields: seq<Field>) {
    forall i :: 0 <= i < |fields| ==> |fields[i].value| <= MAX_INT64
  }

  lemma WellFormedPart(fields: seq<Field>, part: seq<Field>)
    requires forall f :: f in part ==> f in fields
    ensures AllWellFormed(fields) ==> AllWellFormed(part)
    ensures GoSized(fields) ==> GoSized(part)
  {
    forall i | 0 <= i < |part|
      ensures AllWellFormed(fields) ==> WellFormed(part[i])
      ensures GoSized(fields) ==> |part[i].value| <= MAX_INT64
    {
      assert part[i] in part;
    }
  }

  lemma {:induction false} WithoutPart(fields: seq<Field>, name: string)
    ensures forall f :: f in Without(fields, name) ==> f in fields
  {
    if fields != [] {
      WithoutPart(fields[1..], name);
    }
  }

  lemma {:induction false} ExtrasPart(fields: seq<Field>)
    ensures forall f :: f in Extras(fields) ==> f in fields
  {
    if fields != [] {
      ExtrasPart(fields[1..]);
    }
  }

  lemma CodeIsText(s: string)
    requires s == "" || IsCode(s)
    ensures Utf8.Valid(s) && |s| <= MAX_INT64
  {
    Utf8.AsciiValid(s);
  }

  lemma WithValueAt(fields: seq<Field>, name: string, value: string, i: nat)
    requires i < |WithValue(fields, name, value)|
    ensures var f := WithValue(fields, name, value)[i];
      || (i < |fields| && (f == fields[i] || f == Field(fields[i].name, value, fields[i].dataType)))
      || f == Field(name, value, "")
  {
  }

  lemma WithValueWellFormed(fields: seq<Field>, name: string, value: string)
    requires IsName(name) && Utf8.Valid(value) && |value| <= MAX_INT64
    ensures AllWellFormed(fields) ==> AllWellFormed(WithValue(fields, name, value))
    ensures GoSized(fields) ==> GoSized(WithValue(fields, name, value))
  {
    var r := WithValue(fields, name, value);
    assert WellFormed(Field(name, value, ""));
    forall i | 0 <= i < |r|
      ensures AllWellFormed(fields) ==> WellFormed(r[i])
      ensures GoSized(fields) ==> |r[i].value| <= MAX_INT64
    {
      WithValueAt(fields, name, value, i);
    }
  }

  lemma ModeNames()
    ensures IsName("MODE") && IsName("SUBMODE")
  {
  }

  lemma CanonicalWellFormed(t: ModeTables, fields: seq<Field>)
    requires Coherent(t)
    ensures AllWellFormed(fields) ==> AllWellFormed(Canonical(t, fields))
    ensures GoSized(fields) ==> GoSized(Canonical(t, fields))
    ensures fields != [] ==> Canonical(t, fields) != []
  {
    var mode, submode := ValueOf(fields, "MODE"), ValueOf(fields, "SUBMODE");
    var v := NormalizeModePair(t, mode, submode);
    if v.Some? {
      ModeNames();
      NormalizeCloses(t, mode, submode);
      if v.value.submode != "" {
        BelongsIsCode(t, v.value.submode, v.value.mode);
      }
      CodeIsText(v.value.mode);
      CodeIsText(v.value.submode);
      var withMode := WithValue(fields, "MODE", v.value.mode);
      WithValueWellFormed(fields, "MODE", v.value.mode);
      WithValueWellFormed(withMode, "SUBMODE", v.value.submode);
      WithoutPart(withMode, "SUBMODE");
      WellFormedPart(withMode, Without(withMode, "SUBMODE"));
      CanonicalByName(t, fields, "MODE");
    }
  }

  lemma ExportedWellFormed(cat: Catalogue, fields: seq<Field>)
    requires Coherent(cat.tables)
    ensures var e := Exported(cat.tables, cat.order, fields);
      && (AllWellFormed(fields) ==> AllWellFormed(e))
      && (GoSized(fields) ==> GoSized(e))
      && (fields != [] ==> e != [])
  {
    var c := Canonical(cat.tables, fields);
    var e := Exported(cat.tables, cat.order, fields);
    CanonicalWellFormed(cat.tables, fields);
    SortSpec(cat.order, c, e);
    forall f | f in e
      ensures f in c
    {
      assert f in multiset(e);
    }
    WellFormedPart(c, e);
  }

  // ---------- records without fields ----------

  predicate NoneEmpty(recs: seq<seq<Field>>) {
    forall i :: 0 <= i < |recs| ==> recs[i] != []
  }

  lemma {:induction false} NoneEmptyIff(recs: seq<seq<Field>>)
    ensures NoneEmpty(NonEmpty(recs))
    ensures if NoneEmpty(recs) then NonEmpty(recs) == recs else |NonEmpty(recs)| < |recs|
  {
    if recs != [] {
      NoneEmptyIff(recs[1..]);
      assert recs == [recs[0]] + recs[1..];
      if recs[0] != [] && NoneEmpty(recs[1..]) {
        assert NoneEmpty(recs);
      }
    }
  }

  lemma {:induction false} NonEmptyAppend(a: seq<seq<Field>>, b: seq<seq<Field>>)
    ensures NonEmpty(a + b) == NonEmpty(a) + NonEmpty(b)
  {
    if a == [] {
      assert a + b == b;
    } else {
      NonEmptyAppend(a[1..], b);
      Uncons(a, b);
      Associative(if a[0] == [] then [] else [a[0]], NonEmpty(a[1..]), NonEmpty(b));
    }
  }

  lemma NonEmptySnoc(init: seq<seq<Field>>, last: seq<Field>)
    ensures NonEmpty(init + [last]) == if last == [] then NonEmpty(init) else NonEmpty(init) + [last]
  {
    NonEmptyAppend(init, [last]);
    NonEmptyCons(last, []);
  }

  lemma ExportedEmptyIff(cat: Catalogue, fields: seq<Field>)
    requires Coherent(cat.tables)
    ensures Exported(cat.tables, cat.order, fields) == [] <==> fields == []
  {
    if fields != [] {
      ExportedWellFormed(cat, fields);
    }
  }

  lemma ExportedAllLast(cat: Catalogue, recs: seq<seq<Field>>, last: seq<Field>)
    ensures ExportedAll(cat, recs + [last]) == ExportedAll(cat, recs) + [Exported(cat.tables, cat.order, last)]
  {
    assert (recs + [last])[..|recs|] == recs;
  }

  /** Skipping records without fields before or after the export form is the same. */
  lemma {:induction false} NonEmptyExported(cat: Catalogue, recs: seq<seq<Field>>)
    requires Coherent(cat.tables)
    ensures NonEmpty(ExportedAll(cat, recs)) == ExportedAll(cat, NonEmpty(recs))
  {
    if recs != [] {
      var n := |recs| - 1;
      NonEmptyExported(cat, recs[..n]);
      Unsnoc(recs);
      NonEmptySnoc(recs[..n], recs[n]);
      NonEmptySnoc(ExportedAll(cat, recs[..n]), Exported(cat.tables, cat.order, recs[n]));
      ExportedEmptyIff(cat, recs[n]);
      ExportedAllLast(cat, NonEmpty(recs[..n]), recs[n]);
    }
  }

  lemma RecordsTextLast(cat: Catalogue, recs: seq<seq<Field>>, last: seq<Field>)
    ensures RecordsText(cat, recs + [last]) == RecordsText(cat, recs) + RecordText(cat, last)
  {
    assert (recs + [last])[..|recs|] == recs;
  }

  lemma EmptyRecordText(cat: Catalogue)
    requires Coherent(cat.tables)
    ensures |RecordText(cat, [])| == 6
  {
    ExportedEmptyIff(cat, []);
  }

  /** Each record without fields adds a bare end-of-record line of six bytes. */
  lemma {:induction false} EmptyRecordsCost(cat: Catalogue, recs: seq<seq<Field>>)
    requires Coherent(cat.tables)
    ensures |RecordsText(cat, recs)| == |RecordsText(cat, NonEmpty(recs))| + 6 * (|recs| - |NonEmpty(recs)|)
  {
    if recs != [] {
      var n := |recs| - 1;
      EmptyRecordsCost(cat, recs[..n]);
      Unsnoc(recs);
      NonEmptySnoc(recs[..n], recs[n]);
      EmptyRecordText(cat);
      if recs[n] != [] {
        RecordsTextLast(cat, NonEmpty(recs[..n]), recs[n]);
      }
    }
  }

  lemma {:induction false} NonEmptyClosed(groups: seq<seq<Field>>)
    ensures NonEmpty(groups + [[]]) == NonEmpty(groups)
  {
    if groups == [] {
      assert groups + [[]] == [[]];
      NonEmptyCons([], []);
    } else {
      NonEmptyClosed(groups[1..]);
      Uncons(groups, [[]]);
    }
  }

  // ---------- print, then parse ----------

  /** What the writer is given: well-formed fields, a version string that is text, nothing larger than Go allows. */
  predicate CanExport(header: Option<seq<Field>>, recs: seq<seq<Field>>, programVersion: string) {
    && (header.Some? ==> Printable(header.value))
    && AllPrintable(recs)
    && Utf8.Valid(programVersion) && |programVersion| <= MAX_INT64
  }

  predicate ExportFits(cat: Catalogue, header: Option<seq<Field>>, recs: seq<seq<Field>>, programVersion: string, cfg: Config) {
    AllFit(HeaderFields(header, programVersion), cfg) && AllRecordsFit(ExportedAll(cat, recs), cfg)
  }

  lemma NoBom(a: string, b: string, c: string)
    ensures StripBom(PREAMBLE + a + b + c) == PREAMBLE + a + b + c
  {
    var text := PREAMBLE + a + b + c;
    Regroup(PREAMBLE, a, b, c);
    assert text[0] == PREAMBLE[0] == 'R';
  }

  lemma FormatShape(cat: Catalogue, header: Option<seq<Field>>, recs: seq<seq<Field>>, programVersion: string)
    ensures Format(cat, header, recs, programVersion)
         == PREAMBLE + FieldsText(HeaderFields(header, programVersion)) + END_OF_HEADER + PlainText(ExportedAll(cat, recs))
  {
    RecordsTextIsPlain(cat, recs);
  }

  lemma ShapeTokens(header: seq<Field>, recs: seq<seq<Field>>, cfg: Config)
    requires Printable(header) && AllPrintable(recs)
    ensures var toks := TokensOf(PREAMBLE + FieldsText(header) + END_OF_HEADER + PlainText(recs), cfg);
      var c := WithDefaults(cfg);
      if AllFit(header, c) && AllRecordsFit(recs, c) then toks == FileTokens(header, recs) else !NoOversize(toks)
  {
    NoBom(FieldsText(header), END_OF_HEADER, PlainText(recs));
    FileRoundTrip(header, recs, WithDefaults(cfg));
  }

  lemma FormatTokens(cat: Catalogue, header: Option<seq<Field>>, recs: seq<seq<Field>>, programVersion: string, cfg: Config)
    requires Coherent(cat.tables) && CanExport(header, recs, programVersion)
    ensures var toks := TokensOf(Format(cat, header, recs, programVersion), cfg);
      if ExportFits(cat, header, recs, programVersion, WithDefaults(cfg))
      then toks == FileTokens(HeaderFields(header, programVersion), ExportedAll(cat, recs))
      else !NoOversize(toks)
  {
    FormatShape(cat, header, recs, programVersion);
    ExportIsPrintable(cat, header, recs, programVersion);
    ShapeTokens(HeaderFields(header, programVersion), ExportedAll(cat, recs), cfg);
  }

  /**
  Parsing an export gives back the standard header fields, the extra ones, and every
  non-empty record in export form, as far as the record limit lets them through.
  */
  lemma ParseUndoesFormat(cat: Catalogue, header: Option<seq<Field>>, recs: seq<seq<Field>>, programVersion: string, cfg: Config)
    requires Coherent(cat.tables) && CanExport(header, recs, programVersion)
    requires ExportFits(cat, header, recs, programVersion, WithDefaults(cfg))
    ensures var (rs, err) := Limited(ExportedAll(cat, NonEmpty(recs)), WithDefaults(cfg).maxRecords, false, EndOfFile);
      Parse(Format(cat, header, recs, programVersion), cfg) == Finish(HeaderFields(header, programVersion), rs, err)
  {
    var h, e := HeaderFields(header, programVersion), ExportedAll(cat, recs);
    var text := Format(cat, header, recs, programVersion);
    FormatTokens(cat, header, recs, programVersion, cfg);
    NonEmptyExported(cat, recs);
    FileParses(h, e, WithDefaults(cfg).maxRecords, |text|);
  }

  /** The tokens of an export as the parser takes them. */
  lemma FileParses(header: seq<Field>, recs: seq<seq<Field>>, max: nat, total: nat)
    ensures var (rs, err) := Limited(NonEmpty(recs), max, false, EndOfFile);
      ParseTokens(FileTokens(header, recs), max, total) == Finish(header, rs, err)
  {
    var toks := FileTokens(header, recs);
    FileGroups(header, recs);
    NonEmptyClosed(recs);
    FileNoOversize(header, recs);
    StopIsEnd(toks, total);
    RecordBoundaries(toks, max, total);
  }

  lemma {:induction false} RecordTokensNoOversize(recs: seq<seq<Field>>)
    ensures NoOversize(RecordTokens(recs))
  {
    if recs != [] {
      RecordTokensNoOversize(recs[1..]);
    }
  }

  lemma FileNoOversize(header: seq<Field>, recs: seq<seq<Field>>)
    ensures NoOversize(FileTokens(header, recs))
  {
    RecordTokensNoOversize(recs);
  }

  /**
  Reading an export back succeeds exactly when its values fit and its non-empty records are
  below the limit, and then gives back those records in export form.
  */
  lemma ReadsBackIff(cat: Catalogue, header: Option<seq<Field>>, recs: seq<seq<Field>>, programVersion: string, cfg: Config)
    requires Coherent(cat.tables) && CanExport(header, recs, programVersion)
    ensures var o := Parse(Format(cat, header, recs, programVersion), cfg);
      && (o.err == None
          <==> ExportFits(cat, header, recs, programVersion, WithDefaults(cfg))
               && |NonEmpty(recs)| < WithDefaults(cfg).maxRecords)
      && (o.err == None
          ==> o == Outcome(Some(HeaderFields(header, programVersion)), ExportedAll(cat, NonEmpty(recs)), None))
  {
    if ExportFits(cat, header, recs, programVersion, WithDefaults(cfg)) {
      ParseUndoesFormat(cat, header, recs, programVersion, cfg);
    } else {
      OversizeRefused(cat, header, recs, programVersion, cfg);
    }
  }

  /**
  The exact condition for a lossless round trip: every value fits, there are strictly fewer
  records than the limit, and none is without fields.
  */
  lemma RoundTripIff(cat: Catalogue, header: Option<seq<Field>>, recs: seq<seq<Field>>, programVersion: string, cfg: Config)
    requires Coherent(cat.tables) && CanExport(header, recs, programVersion)
    ensures Parse(Format(cat, header, recs, programVersion), cfg)
         == Outcome(Some(HeaderFields(header, programVersion)), ExportedAll(cat, recs), None)
       <==> ExportFits(cat, header, recs, programVersion, WithDefaults(cfg))
            && |recs| < WithDefaults(cfg).maxRecords && NoneEmpty(recs)
  {
    ReadsBackIff(cat, header, recs, programVersion, cfg);
    NoneEmptyIff(recs);
    assert |ExportedAll(cat, NonEmpty(recs))| == |NonEmpty(recs)| && |ExportedAll(cat, recs)| == |recs|;
  }

  /** An export with a value over the limit is refused when it is read back. */
  lemma OversizeRefused(cat: Catalogue, header: Option<seq<Field>>, recs: seq<seq<Field>>, programVersion: string, cfg: Config)
    requires Coherent(cat.tables) && CanExport(header, recs, programVersion)
    requires !ExportFits(cat, header, recs, programVersion, WithDefaults(cfg))
    ensures Parse(Format(cat, header, recs, programVersion), cfg).err.Some?
  {
    var text := Format(cat, header, recs, programVersion);
    FormatTokens(cat, header, recs, programVersion, cfg);
    SucceedsIff(TokensOf(text, cfg), WithDefaults(cfg).maxRecords, |text|);
  }

  /** Canonicalising, sorting and replacing the standard header fields keep everything well-formed. */
  lemma ExportIsPrintable(cat: Catalogue, header: Option<seq<Field>>, recs: seq<seq<Field>>, programVersion: string)
    requires Coherent(cat.tables) && CanExport(header, recs, programVersion)
    ensures Printable(HeaderFields(header, programVersion)) && AllPrintable(ExportedAll(cat, recs))
  {
    ExportedAllPrintable(cat, recs);
    StandardPrintable(programVersion);
    if header.Some? {
      ExtrasPrintable(header.value);
      PrintableAppend(StandardFields(programVersion), Extras(header.value));
    } else {
      PrintableAppend(StandardFields(programVersion), []);
    }
  }

  lemma PrintableAppend(a: seq<Field>, b: seq<Field>)
    requires Printable(a) && Printable(b)
    ensures Printable(a + b)
  {
  }

  lemma ExportedAllPrintable(cat: Catalogue, recs: seq<seq<Field>>)
    requires Coherent(cat.tables) && AllPrintable(recs)
    ensures AllPrintable(ExportedAll(cat, recs))
  {
    var e := ExportedAll(cat, recs);
    forall i | 0 <= i < |recs|
      ensures Printable(e[i])
    {
      ExportedAt(cat, recs, i);
      ExportedPrintable(cat, recs[i]);
    }
  }

  lemma ExportedPrintable(cat: Catalogue, fields: seq<Field>)
    requires Coherent(cat.tables) && Printable(fields)
    ensures Printable(Exported(cat.tables, cat.order, fields))
  {
    assert GoSized(fields);
    ExportedWellFormed(cat, fields);
  }

  lemma ExtrasPrintable(fields: seq<Field>)
    requires Printable(fields)
    ensures Printable(Extras(fields))
  {
    assert GoSized(fields);
    ExtrasPart(fields);
    WellFormedPart(fields, Extras(fields));
  }

  lemma StandardPrintable(programVersion: string)
    requires Utf8.Valid(programVersion) && |programVersion| <= MAX_INT64
    ensures Printable(StandardFields(programVersion))
  {
    var fixed, id, version := ADIF_VERSION, PROGRAM_ID, Version(programVersion);
    StandardText(fixed);
    StandardText(id);
    if programVersion == "" {
      StandardText(version);
    }
    PlainField("ADIF_VER", fixed);
    PlainField("PROGRAMID", id);
    PlainField("PROGRAMVERSION", version);
    Printable3(Field("ADIF_VER", fixed, ""), Field("PROGRAMID", id, ""), Field("PROGRAMVERSION", version, ""));
  }

  lemma Printable3(a: Field, b: Field, c: Field)
    requires Printable([a]) && Printable([b]) && Printable([c])
    ensures Printable([a, b, c])
  {
    assert [a][0] == a && [b][0] == b && [c][0] == c;
  }

  lemma PlainField(name: string, value: string)
    requires IsStandard(name) && Utf8.Valid(value) && |value| <= MAX_INT64
    ensures Printable([Field(name, value, "")])
  {
    StandardNames();
  }

  lemma StandardText(s: string)
    requires s == ADIF_VERSION || s == PROGRAM_ID || s == DEFAULT_VERSION
    ensures Utf8.Valid(s) && |s| <= MAX_INT64
  {
    StandardIsAscii(s);
    Utf8.AsciiValid(s);
  }

  lemma StandardIsAscii(s: string)
    requires s == ADIF_VERSION || s == PROGRAM_ID || s == DEFAULT_VERSION
    ensures |s| <= 11 && forall i :: 0 <= i < |s| ==> Utf8.InRange(s[i], 0, 0x7F)
  {
  }

  lemma StandardNames()
    ensures IsName("ADIF_VER") && IsName("PROGRAMID") && IsName("PROGRAMVERSION")
  {
  }

  // ---------- parse an export and export it again ----------

  lemma ExtrasSkip(f: Field, fields: seq<Field>)
    requires IsStandard(f.name)
    ensures Extras([f] + fields) == Extras(fields)
  {
    UpperOfUpper(f.name);
    StandardNames();
    assert ([f] + fields)[1..] == fields;
  }

  lemma ExtrasSkip3(a: Field, b: Field, c: Field)
    requires IsStandard(a.name) && IsStandard(b.name) && IsStandard(c.name)
    ensures Extras([a, b, c]) == []
  {
    ExtrasSkip(c, []);
    ExtrasSkip(b, [c]);
    ExtrasSkip(a, [b, c]);
    assert [a, b, c] == [a] + [b, c] && [b, c] == [b] + [c] && [c] == [c] + [];
  }

  lemma ExtrasOfStandard(programVersion: string)
    ensures Extras(StandardFields(programVersion)) == []
  {
    var s := StandardFields(programVersion);
    ExtrasSkip3(s[0], s[1], s[2]);
    assert s == [s[0], s[1], s[2]];
  }

  lemma {:induction false} ExtrasIdempotent(fields: seq<Field>)
    ensures Extras(Extras(fields)) == Extras(fields)
  {
    if fields != [] {
      ExtrasIdempotent(fields[1..]);
      var rest := Extras(fields[1..]);
      assert ([fields[0]] + rest)[1..] == rest;
      assert [] + rest == rest;
    }
  }

  lemma ExtrasOfHeader(header: Option<seq<Field>>, programVersion: string)
    ensures HeaderFields(Some(HeaderFields(header, programVersion)), programVersion) == HeaderFields(header, programVersion)
  {
    var extras := if header.Some? then Extras(header.value) else [];
    ExtrasAppend(StandardFields(programVersion), extras);
    ExtrasOfStandard(programVersion);
    if header.Some? {
      ExtrasIdempotent(header.value);
    }
    assert [] + extras == extras;
  }

  lemma ExportedAllIdempotent(cat: Catalogue, recs: seq<seq<Field>>)
    requires Coherent(cat.tables)
    ensures ExportedAll(cat, ExportedAll(cat, recs)) == ExportedAll(cat, recs)
  {
    var e := ExportedAll(cat, recs);
    forall i | 0 <= i < |recs|
      ensures ExportedAll(cat, e)[i] == e[i]
    {
      ExportedAt(cat, recs, i);
      ExportedAt(cat, e, i);
      ExportedIdempotent(cat.tables, cat.order, recs[i]);
    }
  }

  /** Exporting what was exported gives the same bytes. */
  lemma FormatIdempotent(cat: Catalogue, header: Option<seq<Field>>, recs: seq<seq<Field>>, programVersion: string)
    requires Coherent(cat.tables)
    ensures Format(cat, Some(HeaderFields(header, programVersion)), ExportedAll(cat, recs), programVersion)
         == Format(cat, header, recs, programVersion)
  {
    ExtrasOfHeader(header, programVersion);
    RecordsTextIsPlain(cat, recs);
    RecordsTextIsPlain(cat, ExportedAll(cat, recs));
    ExportedAllIdempotent(cat, recs);
  }

  /** Leaving out the records without fields changes the text exactly when there are any. */
  lemma FormatOfNonEmpty(cat: Catalogue, header: Option<seq<Field>>, recs: seq<seq<Field>>, programVersion: string)
    requires Coherent(cat.tables)
    ensures Format(cat, header, NonEmpty(recs), programVersion) == Format(cat, header, recs, programVersion)
       <==> NoneEmpty(recs)
  {
    var head := HeaderText(programVersion, if header.Some? then Extras(header.value) else []);
    var short, long := RecordsText(cat, NonEmpty(recs)), RecordsText(cat, recs);
    NoneEmptyIff(recs);
    EmptyRecordsCost(cat, recs);
    assert |head + short| == |head| + |short| && |head + long| == |head| + |long|;
  }

  /**
  Whenever an export reads back without an error, exporting with the same program version
  what was read gives the same bytes exactly when no record was without fields.
  */
  lemma ExportIsFixpoint(cat: Catalogue, header: Option<seq<Field>>, recs: seq<seq<Field>>, programVersion: string, cfg: Config)
    requires Coherent(cat.tables) && CanExport(header, recs, programVersion)
    ensures var text := Format(cat, header, recs, programVersion);
      var o := Parse(text, cfg);
      o.err == None ==> (Format(cat, o.header, o.records, programVersion) == text <==> NoneEmpty(recs))
  {
    ReadsBackIff(cat, header, recs, programVersion, cfg);
    FormatIdempotent(cat, header, NonEmpty(recs), programVersion);
    FormatOfNonEmpty(cat, header, recs, programVersion);
  }
}
