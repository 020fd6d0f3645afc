/** Inputs on which the code does not do what its documentation says. */
module AdifExamples {
  import opened Wrappers
  import opened GoStrings
  import opened AdifSyntax
  import opened AdifReference
  import opened AdifGuarantees
  import opened AdifModes
  import opened AdifWriter
  import opened AdifRoundTrip
  import opened AdifExport
  import opened AdifRecord
  import opened AdifCanonical
  import opened AdifGrammar
  import opened Sequences
  import Utf8

  /** A record with nothing but a callsign, and its text. */
  function Call(value: string): seq<Field> {
    [Field("CALL", value, "")]
  }

  function CallText(value: string): string {
    "<CALL:4>" + value + "\n<EOR>\n"
  }

  lemma CallTextIs(value: string)
    requires |value| == 4
    ensures FieldsText(Call(value)) + END_OF_RECORD == CallText(value)
  {
    assert Decimal(4) == "4";
    assert TagText(Call(value)[0]) == "CALL:4";
    assert FieldsText(Call(value)) == FieldText(Call(value)[0]) + FieldsText([]);
  }

  lemma CallPrintable(value: string)
    requires |value| == 4 && forall i :: 0 <= i < |value| ==> Utf8.InRange(value[i], 0, 0x7F)
    ensures Printable(Call(value))
  {
    Utf8.AsciiValid(value);
  }

  lemma PlainTextOne(a: seq<Field>)
    ensures PlainText([a]) == FieldsText(a) + END_OF_RECORD
  {
    assert [a][1..] == [];
    assert (FieldsText(a) + END_OF_RECORD) + "" == FieldsText(a) + END_OF_RECORD;
  }

  lemma PlainTextTwo(a: seq<Field>, b: seq<Field>)
    ensures PlainText([a, b]) == (FieldsText(a) + END_OF_RECORD) + (FieldsText(b) + END_OF_RECORD)
  {
    PlainTextOne(b);
    assert [a, b][1..] == [b];
  }

  lemma TwoGroups(a: seq<Field>, b: seq<Field>)
    ensures var toks := RecordTokens([a, b]);
      && NoOversize(toks) && HasMarker(toks) && !HasHeader(toks)
      && RecordGroups(toks) == [a + b, []] && !EndsOpen(toks)
  {
    assert [a, b][1..] == [b];
    GroupsOfRecord(a, Eor, RecordTokens([b]));
    GroupsOfRecords([b]);
    RecordTokensNoOversize([a, b]);
  }

  lemma TwoParse(a: seq<Field>, b: seq<Field>, max: nat, total: nat)
    requires a + b != [] && max > 1
    ensures ParseTokens(RecordTokens([a, b]), max, total) == Outcome(Some([]), [a + b], None)
  {
    TwoGroups(a, b);
    StopIsEnd(RecordTokens([a, b]), total);
    RecordBoundaries(RecordTokens([a, b]), max, total);
    NonEmptyCons(a + b, [[]]);
    NonEmptyCons([], []);
    assert [a + b, []] == [a + b] + [[]];
  }

  /** Any two records with no header before them come back as one. */
  lemma TwoMerge(a: seq<Field>, b: seq<Field>, text: string, cfg: Config)
    requires Printable(a) && Printable(b) && AllFit(a, cfg) && AllFit(b, cfg) && a + b != []
    requires cfg.maxFieldLen > 0 && cfg.maxRecords > 1
    requires text == PlainText([a, b]) && StripBom(text) == text
    ensures Parse(text, cfg) == Outcome(Some([]), [a + b], None)
  {
    RecordsRoundTrip([a, b], cfg);
    TwoParse(a, b, cfg.maxRecords, |text|);
  }

  lemma CallsMerge(a: string, b: string, text: string, cfg: Config)
    requires |a| == |b| == 4 && Printable(Call(a)) && Printable(Call(b))
    requires text == CallText(a) + CallText(b)
    requires cfg.maxFieldLen >= 4 && cfg.maxRecords > 1
    ensures Parse(text, cfg) == Outcome(Some([]), [Call(a) + Call(b)], None)
  {
    CallTextIs(a);
    CallTextIs(b);
    PlainTextTwo(Call(a), Call(b));
    assert text[0] == '<';
    TwoMerge(Call(a), Call(b), text, cfg);
  }

  lemma TwoCallsText()
    ensures CallText("W1AW") + CallText("K1JT") == "<CALL:4>W1AW\n<EOR>\n<CALL:4>K1JT\n<EOR>\n"
  {
    assert CallText("W1AW") == "<CALL:4>W1AW\n<EOR>\n";
    assert CallText("K1JT") == "<CALL:4>K1JT\n<EOR>\n";
  }

  /** Two records without a header are read as one. */
  lemma HeaderlessRecordsMerge(data: string, cfg: Config)
    requires data == "<CALL:4>W1AW\n<EOR>\n<CALL:4>K1JT\n<EOR>\n"
    requires cfg.maxFieldLen >= 4 && cfg.maxRecords > 1
    ensures Parse(data, cfg) == Outcome(Some([]), [Call("W1AW") + Call("K1JT")], None)
  {
    CallPrintable("W1AW");
    CallPrintable("K1JT");
    TwoCallsText();
    CallsMerge("W1AW", "K1JT", data, cfg);
  }

  lemma CallFileText(value: string)
    requires |value| == 4
    ensures END_OF_HEADER + PlainText([Call(value)]) == "<EOH>\n\n" + CallText(value)
  {
    CallTextIs(value);
    PlainTextOne(Call(value));
  }

  lemma OneAtLimit(a: seq<Field>, total: nat)
    requires a != []
    ensures ParseTokens(FileTokens([], [a]), 1, total) == Outcome(Some([]), [a], Some(TooManyRecords))
  {
    NonEmptyCons(a, []);
    FileParses([], [a], 1, total);
  }

  lemma CallAtLimit(value: string, text: string, cfg: Config)
    requires |value| == 4 && Printable(Call(value))
    requires text == "<EOH>\n\n" + CallText(value)
    requires cfg.maxFieldLen >= 4 && cfg.maxRecords == 1
    ensures Parse(text, cfg) == Outcome(Some([]), [Call(value)], Some(TooManyRecords))
  {
    var body := PlainText([Call(value)]);
    CallFileText(value);
    assert text[0] == '<';
    LexEoh(body, cfg);
    RecordsRoundTrip([Call(value)], cfg);
    assert FileTokens([], [Call(value)]) == [Eoh] + RecordTokens([Call(value)]);
    OneAtLimit(Call(value), |text|);
  }

  /** A file with exactly as many records as the limit is refused after its last record. */
  lemma ExactlyTheLimit(data: string, cfg: Config)
    requires data == "<EOH>\n\n<CALL:4>W1AW\n<EOR>\n"
    requires cfg.maxFieldLen >= 4 && cfg.maxRecords == 1
    ensures Parse(data, cfg) == Outcome(Some([]), [Call("W1AW")], Some(TooManyRecords))
  {
    CallPrintable("W1AW");
    assert CallText("W1AW") == "<CALL:4>W1AW\n<EOR>\n";
    CallAtLimit("W1AW", data, cfg);
  }

  /** The export of one record without fields reads back without it, and exports to other bytes. */
  lemma EmptyRecordIsLost(cat: Catalogue, programVersion: string, cfg: Config)
    requires Coherent(cat.tables) && CanExport(None, [[]], programVersion)
    requires AllFit(StandardFields(programVersion), WithDefaults(cfg))
    ensures var text := Format(cat, None, [[]], programVersion);
      var o := Parse(text, cfg);
      && o == Outcome(Some(StandardFields(programVersion)), [], None)
      && Format(cat, o.header, o.records, programVersion) != text
  {
    EmptyOnly(cat);
    assert StandardFields(programVersion) + [] == StandardFields(programVersion);
    ReadsBackIff(cat, None, [[]], programVersion, cfg);
    ExportIsFixpoint(cat, None, [[]], programVersion, cfg);
  }

  lemma EmptyOnly(cat: Catalogue)
    requires Coherent(cat.tables)
    ensures NonEmpty([[]]) == [] && ExportedAll(cat, []) == [] && !NoneEmpty([[]])
    ensures ExportedAll(cat, [[]]) == [[]]
  {
    NonEmptyCons([], []);
    ExportedEmptyIff(cat, []);
    ExportedAllLast(cat, [], []);
    var none: seq<seq<Field>> := [];
    assert none + [[]] == [[]];
  }

  // ---------- the bytes of an export ----------

  lemma Bytes(name: string, digits: string, value: string, tag: string)
    requires tag == name + ":" + digits + ""
    ensures "<" + tag + ">" + value + "\n" == "<" + name + ":" + digits + ">" + value + "\n"
  {
  }

  lemma FieldBytes(name: string, digits: string, value: string, text: string)
    requires Decimal(|value|) == digits && text == "<" + name + ":" + digits + ">" + value + "\n"
    ensures FieldText(Field(name, value, "")) == text
  {
    Bytes(name, digits, value, TagText(Field(name, value, "")));
  }

  lemma TwoDigits()
    ensures Decimal(4) == "4" && Decimal(5) == "5" && Decimal(11) == "11"
  {
    assert Decimal(1) == "1";
  }

  lemma VersionBytes()
    ensures FieldText(Field("ADIF_VER", "3.1.7", "")) == "<ADIF_VER:5>3.1.7\n"
  {
    TwoDigits();
    FieldBytes("ADIF_VER", "5", "3.1.7", "<ADIF_VER:5>3.1.7\n");
  }

  lemma ProgramBytes()
    ensures FieldText(Field("PROGRAMID", "RadioLedger", "")) == "<PROGRAMID:11>RadioLedger\n"
  {
    TwoDigits();
    FieldBytes("PROGRAMID", "11", "RadioLedger", "<PROGRAMID:11>RadioLedger\n");
  }

  lemma ProgramVersionBytes()
    ensures FieldText(Field("PROGRAMVERSION", "1.0.0", "")) == "<PROGRAMVERSION:5>1.0.0\n"
  {
    TwoDigits();
    FieldBytes("PROGRAMVERSION", "5", "1.0.0", "<PROGRAMVERSION:5>1.0.0\n");
  }

  lemma FieldsOfThree(a: Field, b: Field, c: Field)
    ensures FieldsText([a, b, c]) == FieldText(a) + FieldText(b) + FieldText(c)
  {
    FieldsTextAppend([a], [b, c]);
    FieldsTextAppend([b], [c]);
    assert [a, b, c] == [a] + [b, c] && [b, c] == [b] + [c];
    OneFieldText(a);
    OneFieldText(b);
    OneFieldText(c);
    Associative(FieldText(a), FieldText(b), FieldText(c));
  }

  lemma OneFieldText(f: Field)
    ensures FieldsText([f]) == FieldText(f)
  {
    assert FieldText(f) + "" == FieldText(f);
  }

  lemma StandardBytes()
    ensures FieldsText(StandardFields(""))
         == "<ADIF_VER:5>3.1.7\n" + "<PROGRAMID:11>RadioLedger\n" + "<PROGRAMVERSION:5>1.0.0\n"
  {
    VersionBytes();
    ProgramBytes();
    ProgramVersionBytes();
    FieldsOfThree(Field("ADIF_VER", "3.1.7", ""), Field("PROGRAMID", "RadioLedger", ""),
      Field("PROGRAMVERSION", "1.0.0", ""));
  }

  lemma CallExported(cat: Catalogue, value: string)
    ensures Exported(cat.tables, cat.order, Call(value)) == Call(value)
  {
    var fields := Call(value);
    assert Find(fields, "MODE") == |fields|;
    assert TrimSpace("") == "";
    assert fields[..0] == [];
  }

  lemma OneRecordBytes(cat: Catalogue, value: string)
    requires |value| == 4
    ensures RecordsText(cat, [Call(value)]) == CallText(value)
  {
    CallExported(cat, value);
    CallTextIs(value);
    RecordsTextLast(cat, [], Call(value));
    assert "" + CallText(value) == CallText(value);
  }

  lemma HeaderBytes()
    ensures HeaderText("", []) == "RadioLedger ADIF Export\n"
      + ("<ADIF_VER:5>3.1.7\n" + "<PROGRAMID:11>RadioLedger\n" + "<PROGRAMVERSION:5>1.0.0\n") + "<EOH>\n\n"
  {
    StandardBytes();
    assert StandardFields("") + [] == StandardFields("");
  }

  /** The bytes of a whole export of one record. */
  lemma ExportBytes(cat: Catalogue, value: string)
    requires |value| == 4
    ensures Format(cat, None, [Call(value)], "")
         == "RadioLedger ADIF Export\n"
          + ("<ADIF_VER:5>3.1.7\n" + "<PROGRAMID:11>RadioLedger\n" + "<PROGRAMVERSION:5>1.0.0\n")
          + "<EOH>\n\n"
          + ("<CALL:4>" + value + "\n<EOR>\n")
  {
    HeaderBytes();
    OneRecordBytes(cat, value);
  }

  // ---------- other spellings ----------

  /** A marker in any spelling. */
  predicate Spells(m: string, name: string) {
    ':' !in m && '>' !in m && ToUpper(TrimSpace(m)) == name
  }

  lemma MarkerPart(m: string, token: Token, rest: string, cfg: Config)
    requires (Spells(m, "EOR") && token == Eor) || (Spells(m, "EOH") && token == Eoh)
    ensures Lex(PartText(Tagged(Bare(m), "")) + rest, cfg) == [token] + Lex(rest, cfg)
  {
    AnyMarker(m, rest, cfg);
    assert PartText(Tagged(Bare(m), "")) == "<" + m + ">";
  }

  lemma CallPart(name: string, length: string, value: string, rest: string, cfg: Config)
    requires Spells(name, "CALL") && ':' !in length && '>' !in length && ParseInt(TrimSpace(length)) == Some(4)
    requires |value| == 4 <= cfg.maxFieldLen && Utf8.Valid(value)
    ensures Lex(PartText(Tagged(Sized(name, length), value)) + rest, cfg) == [Item(Call(value)[0])] + Lex(rest, cfg)
  {
    PartLexes(Tagged(Sized(name, length), value), rest, cfg);
  }

  /** A header and two records, with their tags spelled as given. */
  function TwoCalls(h: string, name: string, length: string, e: string, a: string, b: string): string {
    PartText(Tagged(Bare(h), ""))
    + (PartText(Tagged(Sized(name, length), a)) + (PartText(Tagged(Bare(e), ""))
    + (PartText(Tagged(Sized(name, length), b)) + (PartText(Tagged(Bare(e), "")) + ""))))
  }

  lemma TwoCallsLex(h: string, name: string, length: string, e: string, a: string, b: string, cfg: Config)
    requires Spells(h, "EOH") && Spells(e, "EOR") && Spells(name, "CALL")
    requires ':' !in length && '>' !in length && ParseInt(TrimSpace(length)) == Some(4)
    requires |a| == |b| == 4 <= cfg.maxFieldLen && Utf8.Valid(a) && Utf8.Valid(b)
    ensures Lex(TwoCalls(h, name, length, e, a, b), cfg)
         == [Eoh] + ([Item(Call(a)[0])] + ([Eor] + ([Item(Call(b)[0])] + ([Eor] + []))))
  {
    var end := PartText(Tagged(Bare(e), "")) + "";
    var second := PartText(Tagged(Sized(name, length), b)) + end;
    var first := PartText(Tagged(Sized(name, length), a)) + (PartText(Tagged(Bare(e), "")) + second);
    MarkerPart(e, Eor, "", cfg);
    CallPart(name, length, b, end, cfg);
    MarkerPart(e, Eor, second, cfg);
    CallPart(name, length, a, PartText(Tagged(Bare(e), "")) + second, cfg);
    MarkerPart(h, Eoh, first, cfg);
  }

  lemma TwoCallsTokens(a: seq<Field>, b: seq<Field>)
    requires |a| == |b| == 1
    ensures AdifRoundTrip.FileTokens([], [a, b]) == [Eoh] + ([Item(a[0])] + ([Eor] + ([Item(b[0])] + ([Eor] + []))))
  {
    assert [a, b][1..] == [b] && [b][1..] == [];
    assert AsItems(a) == [Item(a[0])] && AsItems(b) == [Item(b[0])];
    assert RecordTokens([b]) == AsItems(b) + ([Eor] + []);
    assert RecordTokens([a, b]) == AsItems(a) + ([Eor] + RecordTokens([b]));
  }

  /** However the tags of a file are spelled, its two records come back apart, under the name CALL. */
  lemma AnySpelling(h: string, name: string, length: string, e: string, a: string, b: string, cfg: Config)
    requires Spells(h, "EOH") && Spells(e, "EOR") && Spells(name, "CALL")
    requires ':' !in length && '>' !in length && ParseInt(TrimSpace(length)) == Some(4)
    requires |a| == |b| == 4 <= cfg.maxFieldLen && Utf8.Valid(a) && Utf8.Valid(b) && cfg.maxRecords > 2
    ensures Parse(TwoCalls(h, name, length, e, a, b), cfg) == Outcome(Some([]), [Call(a), Call(b)], None)
  {
    var data := TwoCalls(h, name, length, e, a, b);
    assert data[0] == '<';
    TwoCallsLex(h, name, length, e, a, b, cfg);
    TwoCallsTokens(Call(a), Call(b));
    NoneEmptyIff([Call(a), Call(b)]);
    FileParses([], [Call(a), Call(b)], cfg.maxRecords, |data|);
  }

  lemma LowerCase()
    ensures Spells("eoh", "EOH") && Spells("eor", "EOR") && Spells("call", "CALL")
    ensures ParseInt(TrimSpace("4")) == Some(4)
  {
    TrimSpaceSpec("eoh");
    TrimSpaceSpec("eor");
    TrimSpaceSpec("call");
    TrimSpaceSpec("4");
    TwoDigits();
    ParseDecimal(4);
  }

  lemma LowerCaseText(a: string, b: string)
    ensures TwoCalls("eoh", "call", "4", "eor", a, b)
         == "<eoh>" + ("<call:4>" + a + ("<eor>" + ("<call:4>" + b + "<eor>")))
  {
    assert PartText(Tagged(Bare("eoh"), "")) == "<eoh>" && PartText(Tagged(Bare("eor"), "")) == "<eor>";
    assert "<" + Content(Sized("call", "4")) + ">" == "<call:4>";
    assert "<eor>" + "" == "<eor>";
  }

  /** A file in lower case. */
  lemma LowerCaseFile(a: string, b: string, cfg: Config)
    requires |a| == |b| == 4 <= cfg.maxFieldLen && Utf8.Valid(a) && Utf8.Valid(b) && cfg.maxRecords > 2
    ensures Parse("<eoh>" + ("<call:4>" + a + ("<eor>" + ("<call:4>" + b + "<eor>"))), cfg)
         == Outcome(Some([]), [Call(a), Call(b)], None)
  {
    LowerCase();
    LowerCaseText(a, b);
    AnySpelling("eoh", "call", "4", "eor", a, b, cfg);
  }
}
