/**
What a parsed file is like, whatever its bytes: every field can be written back, so one
parse and export brings any file into a normal form that later rounds leave alone.
*/
module AdifImport {
  import opened Wrappers
  import opened GoStrings
  import opened AdifSyntax
  import opened AdifReference
  import opened AdifGuarantees
  import opened AdifModes
  import opened AdifWriter
  import opened AdifRoundTrip
  import opened AdifExport
  import Utf8

  /** Every field token carries a well-formed field. */
  predicate ItemsWellFormed(toks: seq<Token>) {
    forall i :: 0 <= i < |toks| && toks[i].Item? ==> WellFormed(toks[i].field)
  }

  lemma SplitNUnfold(s: string, c: char, n: nat) returns (head: string, tail: string)
    requires n > 1 && c in s
    ensures SplitN(s, c, n) == [head] + SplitN(tail, c, n - 1)
    ensures c !in head && forall x :: x in head || x in tail ==> x in s
  {
    var k := IndexOf(s, c);
    head, tail := s[..k], s[k + 1..];
    IndexOfFirst(s, c);
  }

  lemma {:induction false} SplitNParts(s: string, c: char, n: nat, i: nat)
    requires n > 0 && i < |SplitN(s, c, n)|
    ensures forall x :: x in SplitN(s, c, n)[i] ==> x in s
    ensures i < n - 1 ==> c !in SplitN(s, c, n)[i]
    decreases n
  {
    if n > 1 && c in s {
      var head, tail := SplitNUnfold(s, c, n);
      if i > 0 {
        SplitNParts(tail, c, n - 1, i - 1);
      }
    }
  }

  lemma UpperName(name: string)
    requires name != "" && Trimmed(name) && ':' !in name && '>' !in name
    requires ToUpper(name) != "EOR" && ToUpper(name) != "EOH"
    ensures IsName(ToUpper(name))
  {
    UpperOfUpper(name);
    UpperTrimmed(name);
    UpperKeeps(name, ':');
    UpperKeeps(name, '>');
  }

  /** Names and types taken from a tag are trimmed and free of the characters that end them. */
  lemma ParsedTag(content: string)
    requires '>' !in content && ParseTag(content).Some?
    ensures var tag := ParseTag(content).value;
      && tag.name != "" && Trimmed(tag.name) && ':' !in tag.name && '>' !in tag.name
      && IsType(tag.dataType)
  {
    var tag := TrimSpace(content);
    TrimSpaceSpec(content);
    if ':' in tag {
      var parts := SplitN(tag, ':', 3);
      SplitNParts(tag, ':', 3, 0);
      TrimSpaceSpec(parts[0]);
      if |parts| == 3 {
        SplitNParts(tag, ':', 3, 2);
        TrimSpaceSpec(parts[2]);
      }
    }
  }

  lemma ItemsConcat(a: seq<Token>, b: seq<Token>)
    requires ItemsWellFormed(a) && ItemsWellFormed(b)
    ensures ItemsWellFormed(a + b)
  {
  }

  lemma {:induction false} LexedWellFormed(s: string, cfg: Config)
    ensures ItemsWellFormed(Lex(s, cfg))
    decreases |s|, 0
  {
    if s != [] {
      if s[0] == '<' {
        TagWellFormed(s[1..], cfg);
      } else {
        LexedWellFormed(s[1..], cfg);
      }
    }
  }

  lemma {:induction false} TagWellFormed(s: string, cfg: Config)
    ensures ItemsWellFormed(LexTag(s, cfg))
    decreases |s|, 2
  {
    var j := IndexOf(s, '>');
    IndexOfFirst(s, '>');
    ContentWellFormed(s[..j], if j < |s| then s[j + 1..] else [], cfg);
  }

  lemma {:induction false} ContentWellFormed(content: string, rest: string, cfg: Config)
    requires '>' !in content
    ensures ItemsWellFormed(LexContent(content, rest, cfg))
    decreases |rest|, 1
  {
    LexedWellFormed(rest, cfg);
    var parsed := ParseTag(content);
    if parsed.Some? {
      var tag := parsed.value;
      var upper := ToUpper(tag.name);
      ParsedTag(content);
      if upper == "EOR" {
        ItemsConcat([Eor], Lex(rest, cfg));
      } else if upper == "EOH" {
        ItemsConcat([Eoh], Lex(rest, cfg));
      } else if tag.length > cfg.maxFieldLen {
        ItemsConcat([Oversize(tag.name, tag.length, |rest|)], Lex(rest, cfg));
      } else {
        var n := if tag.length <= |rest| then tag.length else |rest|;
        LexedWellFormed(rest[n..], cfg);
        UpperName(tag.name);
        ItemsConcat([Item(Field(upper, Utf8.Sanitize(rest[..n], cfg.legacy), tag.dataType))], Lex(rest[n..], cfg));
      }
    }
  }

  lemma {:induction false} AllItemsWellFormed(toks: seq<Token>)
    requires ItemsWellFormed(toks)
    ensures AllWellFormed(AllItems(toks))
  {
    if toks != [] {
      AllItemsWellFormed(toks[1..]);
    }
  }

  lemma {:induction false} FlattenHas(groups: seq<seq<Field>>, i: nat)
    requires i < |groups|
    ensures forall f :: f in groups[i] ==> f in Flatten(groups)
  {
    if i > 0 {
      FlattenHas(groups[1..], i - 1);
    }
  }

  lemma {:induction false} RecordsNonEmpty(st: State, max: nat, total: nat)
    ensures var recs := Records(st, max, total).0;
      forall i :: 0 <= i < |recs| ==> recs[i] != []
    decreases |st.toks|, !st.atEOF, |st.prefetch|
  {
    if st.count < max {
      RecordsUnfold(st, max, total);
      NextRecordProgress(st, total);
      var (r, st') := NextRecord(st, total);
      if r.Rec? {
        RecordsNonEmpty(st', max, total);
      }
    }
  }

  /** The header and records that a parse hands out, with or without an error. */
  predicate Importable(o: Outcome) {
    && (o.header.Some? ==> AllWellFormed(o.header.value))
    && forall i :: 0 <= i < |o.records| ==> o.records[i] != [] && AllWellFormed(o.records[i])
  }

  /** Whatever the bytes: the records are not empty and every field can be written back. */
  lemma ParsedIsImportable(data: string, cfg: Config)
    ensures Importable(Parse(data, cfg))
  {
    LexedWellFormed(StripBom(data), WithDefaults(cfg));
    TokensImportable(TokensOf(data, cfg), WithDefaults(cfg).maxRecords, |data|);
  }

  lemma TokensImportable(toks: seq<Token>, max: nat, total: nat)
    requires ItemsWellFormed(toks)
    ensures Importable(ParseTokens(toks, max, total))
  {
    var o := ParseTokens(toks, max, total);
    var (h, st) := HeaderStep(toks, total);
    var all, out := AllItems(toks), FieldsOut(o);
    AllItemsWellFormed(toks);
    Conservation(toks, max, total);
    assert forall f :: f in out ==> f in all;
    if h.HeaderErr? {
      assert o.records == [];
    } else {
      WellFormedPart(all, o.header.value);
      assert o.records == Records(st, max, total).0;
      RecordsNonEmpty(st, max, total);
      forall i | 0 <= i < |o.records|
        ensures AllWellFormed(o.records[i])
      {
        FlattenHas(o.records, i);
        assert forall f :: f in o.records[i] ==> f in out;
        WellFormedPart(all, o.records[i]);
      }
    }
  }

  /** Every value is one that a Go string can hold. */
  predicate GoOutcome(o: Outcome) {
    && (o.header.Some? ==> GoSized(o.header.value))
    && forall i :: 0 <= i < |o.records| ==> GoSized(o.records[i])
  }

  /**
  What was read, `o`, has a normal form. Its export is read back without an error exactly
  when the exported values fit and the records are below the limit; then all that was read
  comes back in export form, and exporting it again gives the same bytes.
  */
  predicate HasNormalForm(cat: Catalogue, o: Outcome, programVersion: string, cfg: Config) {
    var text := Format(cat, o.header, o.records, programVersion);
    var again := Parse(text, cfg);
    && (again.err == None
        <==> ExportFits(cat, o.header, o.records, programVersion, WithDefaults(cfg))
             && |o.records| < WithDefaults(cfg).maxRecords)
    && (again.err == None ==>
          && again.header == Some(HeaderFields(o.header, programVersion))
          && again.records == ExportedAll(cat, o.records)
          && Format(cat, again.header, again.records, programVersion) == text)
  }

  lemma ImportableCanExport(o: Outcome, programVersion: string)
    requires Importable(o) && GoOutcome(o)
    requires Utf8.Valid(programVersion) && |programVersion| <= MAX_INT64
    ensures CanExport(o.header, o.records, programVersion)
    ensures NoneEmpty(o.records)
  {
    forall i | 0 <= i < |o.records|
      ensures Printable(o.records[i])
    {
      assert AllWellFormed(o.records[i]) && GoSized(o.records[i]);
    }
  }

  lemma ImportableHasNormalForm(cat: Catalogue, o: Outcome, programVersion: string, cfg: Config)
    requires Coherent(cat.tables)
    requires CanExport(o.header, o.records, programVersion) && NoneEmpty(o.records)
    ensures HasNormalForm(cat, o, programVersion, cfg)
  {
    ReadsBackIff(cat, o.header, o.records, programVersion, cfg);
    NoneEmptyIff(o.records);
    ExportIsFixpoint(cat, o.header, o.records, programVersion, cfg);
  }

  /** Import, export, import, export: whatever the bytes of the first file, and even if its import stopped at an error. */
  lemma AnyFileNormalizes(cat: Catalogue, data: string, programVersion: string, cfg: Config)
    requires Coherent(cat.tables)
    requires Utf8.Valid(programVersion) && |programVersion| <= MAX_INT64
    requires GoOutcome(Parse(data, cfg))
    ensures HasNormalForm(cat, Parse(data, cfg), programVersion, cfg)
  {
    ParsedIsImportable(data, cfg);
    ImportableCanExport(Parse(data, cfg), programVersion);
    ImportableHasNormalForm(cat, Parse(data, cfg), programVersion, cfg);
  }
}
