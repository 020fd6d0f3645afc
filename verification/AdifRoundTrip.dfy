/** Parsing undoes printing, and an export is a fixed point of parsing and exporting again. */
module AdifRoundTrip {
  import opened Wrappers
  import opened GoStrings
  import opened Sequences
  import opened AdifSyntax
  import opened AdifReference
  import opened AdifGuarantees
  import opened AdifCanonical
  import opened AdifWriter
  import Utf8

  // ---------- what can be written and read back ----------

  predicate IsName(name: string) {
    && name != "" && IsUpper(name) && Trimmed(name)
    && ':' !in name && '>' !in name
    && name != "EOR" && name != "EOH"
  }

  predicate IsType(dataType: string) {
    Trimmed(dataType) && '>' !in dataType
  }

  /** A field whose text reads back: the name and type survive a tag, the value is UTF-8. */
  predicate WellFormed(f: Field) {
    IsName(f.name) && IsType(f.dataType) && Utf8.Valid(f.value)
  }

  predicate AllWellFormed(fields: seq<Field>) {
    forall i :: 0 <= i < |fields| ==> WellFormed(fields[i])
  }

  predicate Fits(f: Field, cfg: Config) {
    |f.value| <= cfg.maxFieldLen
  }

  predicate AllFit(fields: seq<Field>, cfg: Config) {
    forall i :: 0 <= i < |fields| ==> Fits(fields[i], cfg)
  }

  // ---------- tags ----------

  lemma DigitsPlain(s: string)
    requires AllDigits(s) && s != []
    ensures Trimmed(s) && ':' !in s && '>' !in s && '<' !in s
  {
    assert IsDigit(s[0]) && IsDigit(s[|s| - 1]);
  }

  lemma TagTextPlain(f: Field)
    requires IsName(f.name) && IsType(f.dataType)
    ensures var tag := TagText(f);
      tag != "" && Trimmed(tag) && ':' in tag && '>' !in tag
  {
    DigitsPlain(Decimal(|f.value|));
    var tag := TagText(f);
    assert tag[0] == f.name[0] && tag[|f.name|] == ':';
    var digits := Decimal(|f.value|);
    assert tag[|tag| - 1] == if f.dataType != "" then f.dataType[|f.dataType| - 1] else digits[|digits| - 1];
  }

  /** The pieces a tag is made of. */
  function TagParts(name: string, digits: string, dataType: string): seq<string> {
    if dataType != "" then [name, digits, dataType] else [name, digits]
  }

  lemma PartsSplit(name: string, digits: string, dataType: string)
    requires ':' !in name && ':' !in digits
    ensures SplitN(name + ":" + digits + (if dataType != "" then ":" + dataType else ""), ':', 3)
         == TagParts(name, digits, dataType)
  {
    if dataType != "" {
      assert name + ":" + digits + (":" + dataType) == name + [':'] + (digits + [':'] + dataType);
      SplitNHead(name, ':', digits + [':'] + dataType, 3);
      SplitNHead(digits, ':', dataType, 2);
    } else {
      assert name + ":" + digits + "" == name + [':'] + digits;
      SplitNHead(name, ':', digits, 3);
    }
  }

  /** How a tag parses once its parts are known. */
  lemma ParsesAs(tag: string, name: string, digits: string, dataType: string, n: nat)
    requires tag != "" && Trimmed(tag) && ':' in tag
    requires SplitN(tag, ':', 3) == TagParts(name, digits, dataType)
    requires name != "" && Trimmed(name) && Trimmed(digits) && Trimmed(dataType)
    requires ParseInt(digits) == Some(n)
    ensures ParseTag(tag) == Some(Tag(name, n, dataType))
  {
    TrimSpaceSpec(tag);
    TrimSpaceSpec(name);
    TrimSpaceSpec(digits);
    TrimSpaceSpec(dataType);
  }

  /** The tag of a well-formed field parses back to its name, length and type. */
  lemma TagRoundTrip(f: Field)
    requires IsName(f.name) && IsType(f.dataType) && |f.value| <= MAX_INT64
    ensures ParseTag(TagText(f)) == Some(Tag(f.name, |f.value|, f.dataType))
  {
    var digits := Decimal(|f.value|);
    TagTextPlain(f);
    DigitsPlain(digits);
    PartsSplit(f.name, digits, f.dataType);
    ParseDecimal(|f.value|);
    ParsesAs(TagText(f), f.name, digits, f.dataType, |f.value|);
  }

  // ---------- text to tokens ----------

  lemma {:induction false} LexSkip(text: string, rest: string, cfg: Config)
    requires '<' !in text
    ensures Lex(text + rest, cfg) == Lex(rest, cfg)
  {
    if text == [] {
      assert text + rest == rest;
    } else {
      assert text[0] in text;
      LexSkip(text[1..], rest, cfg);
      Uncons(text, rest);
    }
  }

  lemma LexTagText(content: string, rest: string, cfg: Config)
    requires '>' !in content
    ensures Lex("<" + content + ">" + rest, cfg) == LexContent(content, rest, cfg)
  {
    var s := "<" + content + ">" + rest;
    assert s[0] == '<' && s[1..] == content + ['>'] + rest;
    LexTagClosed(content, rest, cfg);
  }

  /** A tag without a colon is a name of length 0. */
  lemma NameTag(name: string)
    requires name != "" && Trimmed(name) && IsUpper(name) && ':' !in name
    ensures ParseTag(name) == Some(Tag(name, 0, "")) && ToUpper(name) == name
  {
    TrimSpaceSpec(name);
    UpperOfUpper(name);
  }

  lemma LexMarker(name: string, blank: string, rest: string, cfg: Config)
    requires name == "EOR" || name == "EOH"
    requires '<' !in blank
    ensures Lex("<" + name + ">" + (blank + rest), cfg) == [if name == "EOR" then Eor else Eoh] + Lex(rest, cfg)
  {
    NameTag(name);
    LexTagText(name, blank + rest, cfg);
    LexSkip(blank, rest, cfg);
  }

  lemma LexEor(rest: string, cfg: Config)
    ensures Lex(END_OF_RECORD + rest, cfg) == [Eor] + Lex(rest, cfg)
  {
    assert END_OF_RECORD + rest == "<" + "EOR" + ">" + ("\n" + rest);
    LexMarker("EOR", "\n", rest, cfg);
  }

  lemma LexEoh(rest: string, cfg: Config)
    ensures Lex(END_OF_HEADER + rest, cfg) == [Eoh] + Lex(rest, cfg)
  {
    assert END_OF_HEADER + rest == "<" + "EOH" + ">" + ("\n\n" + rest);
    LexMarker("EOH", "\n\n", rest, cfg);
  }

  lemma FieldTextShape(f: Field, rest: string)
    ensures FieldText(f) + rest == "<" + TagText(f) + ">" + (f.value + ("\n" + rest))
  {
  }

  predicate StartsOversize(toks: seq<Token>) {
    toks != [] && toks[0].Oversize?
  }

  /** What follows a tag that parsed to (name, |value|, type), read as a field. */
  lemma ContentRoundTrip(tag: string, f: Field, after: string, cfg: Config)
    requires ParseTag(tag) == Some(Tag(f.name, |f.value|, f.dataType))
    requires IsName(f.name) && Utf8.Valid(f.value)
    ensures Fits(f, cfg) ==> LexContent(tag, f.value + after, cfg) == [Item(f)] + Lex(after, cfg)
    ensures !Fits(f, cfg) ==> StartsOversize(LexContent(tag, f.value + after, cfg))
  {
    UpperOfUpper(f.name);
    if Fits(f, cfg) {
      LexItem(tag, f.value, after, cfg);
    }
  }

  /** A field that fits is read back as it is, whatever its value contains; one that does not is refused. */
  lemma FieldRoundTrip(f: Field, rest: string, cfg: Config)
    requires WellFormed(f) && |f.value| <= MAX_INT64
    ensures Fits(f, cfg) ==> Lex(FieldText(f) + rest, cfg) == [Item(f)] + Lex(rest, cfg)
    ensures !Fits(f, cfg) ==> StartsOversize(Lex(FieldText(f) + rest, cfg))
  {
    FieldTextShape(f, rest);
    TagTextPlain(f);
    TagRoundTrip(f);
    LexTagText(TagText(f), f.value + ("\n" + rest), cfg);
    ContentRoundTrip(TagText(f), f, "\n" + rest, cfg);
    LexSkip("\n", rest, cfg);
  }

  predicate Printable(fields: seq<Field>) {
    AllWellFormed(fields) && forall i :: 0 <= i < |fields| ==> |fields[i].value| <= MAX_INT64
  }

  lemma OversizeSpreads(a: seq<Token>, b: seq<Token>)
    ensures !NoOversize(a) || !NoOversize(b) ==> !NoOversize(a + b)
  {
    if !NoOversize(a) {
      var i :| 0 <= i < |a| && a[i].Oversize?;
      assert (a + b)[i].Oversize?;
    } else if !NoOversize(b) {
      var i :| 0 <= i < |b| && b[i].Oversize?;
      assert (a + b)[|a| + i].Oversize?;
    }
  }

  lemma AsItemsCons(fields: seq<Field>, tail: seq<Token>)
    requires fields != []
    ensures AsItems(fields) + tail == [Item(fields[0])] + (AsItems(fields[1..]) + tail)
  {
  }

  lemma {:induction false} FieldsRoundTrip(fields: seq<Field>, rest: string, cfg: Config)
    requires Printable(fields)
    ensures AllFit(fields, cfg) ==> Lex(FieldsText(fields) + rest, cfg) == AsItems(fields) + Lex(rest, cfg)
    ensures !AllFit(fields, cfg) ==> !NoOversize(Lex(FieldsText(fields) + rest, cfg))
  {
    if fields == [] {
      assert FieldsText(fields) + rest == rest;
      assert AsItems(fields) + Lex(rest, cfg) == Lex(rest, cfg);
    } else {
      var f, more := fields[0], fields[1..];
      var after := FieldsText(more) + rest;
      Associative(FieldText(f), FieldsText(more), rest);
      FieldRoundTrip(f, after, cfg);
      FieldsRoundTrip(more, rest, cfg);
      assert AllFit(fields, cfg) <==> Fits(f, cfg) && AllFit(more, cfg) by {
        assert fields == [f] + more;
      }
      if Fits(f, cfg) {
        AsItemsCons(fields, Lex(rest, cfg));
        OversizeSpreads([Item(f)], Lex(after, cfg));
      }
    }
  }

  // ---------- whole files ----------

  /** The tokens of records, each ended by EOR. */
  function RecordTokens(recs: seq<seq<Field>>): seq<Token> {
    if recs == [] then [] else AsItems(recs[0]) + ([Eor] + RecordTokens(recs[1..]))
  }

  lemma GroupsOfRecord(fields: seq<Field>, mark: Token, rest: seq<Token>)
    requires mark.Eor? || mark.Eoh?
    ensures var toks := AsItems(fields) + ([mark] + rest);
      && Items(toks) == fields && |fields| < |toks| && toks[|fields|] == mark
      && AfterMarker(toks) == rest && Groups(toks) == [fields] + Groups(rest)
  {
    var toks := AsItems(fields) + ([mark] + rest);
    ItemsUnique(toks, fields);
    assert toks[|fields| + 1..] == rest;
  }

  /** Fields that nothing follows are the last group. */
  lemma GroupsOfTail(fields: seq<Field>)
    ensures Groups(AsItems(fields)) == [fields]
  {
    ItemsUnique(AsItems(fields), fields);
  }

  /** Fields in front of an over-length field are lost with it, and nothing comes after it. */
  lemma GroupsOfBroken(fields: seq<Field>, broken: Token, rest: seq<Token>)
    requires broken.Oversize?
    ensures Groups(AsItems(fields) + ([broken] + rest)) == []
  {
    var toks := AsItems(fields) + ([broken] + rest);
    ItemsUnique(toks, fields);
    assert toks[|fields|] == broken;
  }

  lemma {:induction false} GroupsOfRecords(recs: seq<seq<Field>>)
    ensures Groups(RecordTokens(recs)) == recs + [[]]
  {
    if recs != [] {
      GroupsOfRecord(recs[0], Eor, RecordTokens(recs[1..]));
      GroupsOfRecords(recs[1..]);
      Associative([recs[0]], recs[1..], [[]]);
      assert recs == [recs[0]] + recs[1..];
    }
  }

  function ExportedAll(cat: Catalogue, recs: seq<seq<Field>>): (r: seq<seq<Field>>)
    ensures |r| == |recs|
  {
    if recs == [] then []
    else
      var n := |recs| - 1;
      ExportedAll(cat, recs[..n]) + [Exported(cat.tables, cat.order, recs[n])]
  }

  lemma {:induction false} ExportedAt(cat: Catalogue, recs: seq<seq<Field>>, i: nat)
    requires i < |recs|
    ensures ExportedAll(cat, recs)[i] == Exported(cat.tables, cat.order, recs[i])
  {
    var n := |recs| - 1;
    if i < n {
      assert recs[..n][i] == recs[i];
      ExportedAt(cat, recs[..n], i);
      assert ExportedAll(cat, recs)[i] == ExportedAll(cat, recs[..n])[i];
    } else {
      assert i == |ExportedAll(cat, recs[..n])|;
    }
  }

  predicate AllPrintable(recs: seq<seq<Field>>) {
    forall i :: 0 <= i < |recs| ==> Printable(recs[i])
  }

  predicate AllRecordsFit(recs: seq<seq<Field>>, cfg: Config) {
    forall i :: 0 <= i < |recs| ==> AllFit(recs[i], cfg)
  }

  lemma RecordRoundTrip(fields: seq<Field>, rest: string, cfg: Config)
    requires Printable(fields)
    ensures var text := FieldsText(fields) + END_OF_RECORD + rest;
      && (AllFit(fields, cfg) ==> Lex(text, cfg) == AsItems(fields) + ([Eor] + Lex(rest, cfg)))
      && (!AllFit(fields, cfg) ==> !NoOversize(Lex(text, cfg)))
  {
    Associative(FieldsText(fields), END_OF_RECORD, rest);
    FieldsRoundTrip(fields, END_OF_RECORD + rest, cfg);
    LexEor(rest, cfg);
  }

  /** The text of records that are already in export form. */
  function PlainText(recs: seq<seq<Field>>): string {
    if recs == [] then "" else (FieldsText(recs[0]) + END_OF_RECORD) + PlainText(recs[1..])
  }

  lemma {:induction false} PlainTextAppend(a: seq<seq<Field>>, b: seq<seq<Field>>)
    ensures PlainText(a + b) == PlainText(a) + PlainText(b)
  {
    if a == [] {
      assert a + b == b;
    } else {
      PlainTextAppend(a[1..], b);
      Uncons(a, b);
      Associative(FieldsText(a[0]) + END_OF_RECORD, PlainText(a[1..]), PlainText(b));
    }
  }

  lemma {:induction false} RecordsTextIsPlain(cat: Catalogue, recs: seq<seq<Field>>)
    ensures RecordsText(cat, recs) == PlainText(ExportedAll(cat, recs))
  {
    if recs != [] {
      var n := |recs| - 1;
      var last := Exported(cat.tables, cat.order, recs[n]);
      RecordsTextIsPlain(cat, recs[..n]);
      PlainTextAppend(ExportedAll(cat, recs[..n]), [last]);
      assert PlainText([last]) == (FieldsText(last) + END_OF_RECORD) + "";
    }
  }

  lemma FirstAndRest(recs: seq<seq<Field>>, cfg: Config)
    requires recs != []
    ensures AllRecordsFit(recs, cfg) <==> AllFit(recs[0], cfg) && AllRecordsFit(recs[1..], cfg)
    ensures AllPrintable(recs) <==> Printable(recs[0]) && AllPrintable(recs[1..])
  {
    assert recs == [recs[0]] + recs[1..];
  }

  lemma {:induction false} RecordsRoundTrip(recs: seq<seq<Field>>, cfg: Config)
    requires AllPrintable(recs)
    ensures AllRecordsFit(recs, cfg) ==> Lex(PlainText(recs), cfg) == RecordTokens(recs)
    ensures !AllRecordsFit(recs, cfg) ==> !NoOversize(Lex(PlainText(recs), cfg))
  {
    if recs != [] {
      var first, rest := recs[0], PlainText(recs[1..]);
      FirstAndRest(recs, cfg);
      RecordRoundTrip(first, rest, cfg);
      RecordsRoundTrip(recs[1..], cfg);
      if AllFit(first, cfg) && !AllRecordsFit(recs[1..], cfg) {
        OversizeSpreads([Eor], Lex(rest, cfg));
        OversizeSpreads(AsItems(first), [Eor] + Lex(rest, cfg));
      }
    }
  }

  /** The tokens of a whole export. */
  function FileTokens(header: seq<Field>, recs: seq<seq<Field>>): seq<Token> {
    AsItems(header) + ([Eoh] + RecordTokens(recs))
  }

  lemma HeaderRoundTrip(header: seq<Field>, rest: string, cfg: Config)
    requires Printable(header)
    ensures var text := FieldsText(header) + (END_OF_HEADER + rest);
      && (AllFit(header, cfg) ==> Lex(text, cfg) == AsItems(header) + ([Eoh] + Lex(rest, cfg)))
      && (!AllFit(header, cfg) ==> !NoOversize(Lex(text, cfg)))
  {
    FieldsRoundTrip(header, END_OF_HEADER + rest, cfg);
    LexEoh(rest, cfg);
  }

  lemma LexPreamble(text: string, cfg: Config)
    ensures Lex(PREAMBLE + text, cfg) == Lex(text, cfg)
  {
    LexSkip(PREAMBLE, text, cfg);
  }

  lemma FileRoundTrip(header: seq<Field>, recs: seq<seq<Field>>, cfg: Config)
    requires Printable(header) && AllPrintable(recs)
    ensures var toks := Lex(PREAMBLE + FieldsText(header) + END_OF_HEADER + PlainText(recs), cfg);
      if AllFit(header, cfg) && AllRecordsFit(recs, cfg) then toks == FileTokens(header, recs) else !NoOversize(toks)
  {
    var body := PlainText(recs);
    Regroup(PREAMBLE, FieldsText(header), END_OF_HEADER, body);
    LexPreamble(FieldsText(header) + (END_OF_HEADER + body), cfg);
    HeaderRoundTrip(header, body, cfg);
    RecordsRoundTrip(recs, cfg);
    if AllFit(header, cfg) {
      OversizeSpreads([Eoh], Lex(body, cfg));
      OversizeSpreads(AsItems(header), [Eoh] + Lex(body, cfg));
    }
  }

  lemma FileGroups(header: seq<Field>, recs: seq<seq<Field>>)
    ensures var toks := FileTokens(header, recs);
      && HasHeader(toks) && Groups(toks)[0] == header
      && RecordGroups(toks) == recs + [[]] && !EndsOpen(toks)
  {
    GroupsOfRecord(header, Eoh, RecordTokens(recs));
    GroupsOfRecords(recs);
  }
}
