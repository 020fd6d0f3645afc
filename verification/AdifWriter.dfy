/** The ADI writer: header, canonical records, and whole-file export. */
module AdifWriter {
  import opened Wrappers
  import opened GoStrings
  import opened AdifSyntax
  import opened AdifRecord
  import opened AdifModes
  import opened AdifSort
  import opened AdifCanonical
  import opened AdifParser
  import opened Sequences

  /** The tables the export depends on. */
  datatype Catalogue = Catalogue(order: seq<string>, tables: ModeTables)

  const ADIF_VERSION: string := "3.1.7"
  const PROGRAM_ID: string := "RadioLedger"
  const DEFAULT_VERSION: string := "1.0.0"
  const END_OF_HEADER: string := "<EOH>\n\n"
  const END_OF_RECORD: string := "<EOR>\n"
  const PREAMBLE: string := "RadioLedger ADIF Export\n"

  // ---------- the text of an export ----------

  /** The inside of a field's tag. */
  function TagText(f: Field): string {
    f.name + ":" + Decimal(|f.value|) + (if f.dataType != "" then ":" + f.dataType else "")
  }

  function FieldText(f: Field): string {
    "<" + TagText(f) + ">" + f.value + "\n"
  }

  function FieldsText(fields: seq<Field>): string {
    if fields == [] then "" else FieldText(fields[0]) + FieldsText(fields[1..])
  }

  function Version(programVersion: string): string {
    if programVersion == "" then DEFAULT_VERSION else programVersion
  }

  function StandardFields(programVersion: string): seq<Field> {
    [Field("ADIF_VER", ADIF_VERSION, ""), Field("PROGRAMID", PROGRAM_ID, ""),
     Field("PROGRAMVERSION", Version(programVersion), "")]
  }

  predicate IsStandard(name: string) {
    name == "ADIF_VER" || name == "PROGRAMID" || name == "PROGRAMVERSION"
  }

  /** The header fields that an export carries over. */
  function Extras(fields: seq<Field>): seq<Field> {
    if fields == [] then []
    else (if IsStandard(ToUpper(fields[0].name)) then [] else [fields[0]]) + Extras(fields[1..])
  }

  function HeaderText(programVersion: string, extras: seq<Field>): string {
    PREAMBLE + FieldsText(StandardFields(programVersion) + extras) + END_OF_HEADER
  }

  function RecordText(cat: Catalogue, fields: seq<Field>): string {
    FieldsText(Exported(cat.tables, cat.order, fields)) + END_OF_RECORD
  }

  function RecordsText(cat: Catalogue, recs: seq<seq<Field>>): string {
    if recs == [] then "" else RecordsText(cat, recs[..|recs| - 1]) + RecordText(cat, recs[|recs| - 1])
  }

  /** The text of a whole export. */
  function Format(cat: Catalogue, header: Option<seq<Field>>, recs: seq<seq<Field>>, programVersion: string): string {
    HeaderText(programVersion, if header.Some? then Extras(header.value) else []) + RecordsText(cat, recs)
  }

  lemma RecordsTextStep(cat: Catalogue, recs: seq<seq<Field>>, i: nat)
    requires i < |recs|
    ensures RecordsText(cat, recs[..i + 1]) == RecordsText(cat, recs[..i]) + RecordText(cat, recs[i])
  {
    assert recs[..i + 1][..i] == recs[..i];
  }

  lemma {:induction false} FieldsTextAppend(a: seq<Field>, b: seq<Field>)
    ensures FieldsText(a + b) == FieldsText(a) + FieldsText(b)
  {
    if a == [] {
      assert a + b == b;
    } else {
      FieldsTextAppend(a[1..], b);
      Uncons(a, b);
      Associative(FieldText(a[0]), FieldsText(a[1..]), FieldsText(b));
    }
  }

  // ---------- the writer ----------

  class Writer {
    const cat: Catalogue
    const programVersion: string
    const includeHeader: bool
    var headerWritten: bool
    var out: string

    constructor (cat: Catalogue, programVersion: string, includeHeader: bool)
      ensures this.cat == cat && this.programVersion == Version(programVersion)
      ensures this.includeHeader == includeHeader && !headerWritten && out == ""
    {
      this.cat := cat;
      this.programVersion := Version(programVersion);
      this.includeHeader := includeHeader;
      headerWritten, out := false, "";
    }

    /** What WriteHeader adds to the output when it is called next. */
    ghost function PendingHeader(extras: seq<Field>): string
      reads this
    {
      if headerWritten || !includeHeader then "" else HeaderText(programVersion, extras)
    }

    /** The output once the header is there that the next record brings with it. */
    ghost function Headed(): (r: string)
      reads this
      ensures headerWritten ==> r == out
    {
      out + PendingHeader([])
    }

    method WriteField(f: Field)
      modifies `out
      ensures out == old(out) + FieldText(f)
    {
      var tag := "<" + f.name + ":" + Decimal(|f.value|);
      if f.dataType != "" {
        tag := tag + ":" + f.dataType;
      }
      out := out + tag + ">" + f.value + "\n";
    }

    method WriteFields(fields: seq<Field>)
      modifies `out
      ensures out == old(out) + FieldsText(fields)
    {
      for i := 0 to |fields|
        invariant out == old(out) + FieldsText(fields[..i])
      {
        WriteField(fields[i]);
        FieldsTextAppend(fields[..i], [fields[i]]);
        assert fields[..i + 1] == fields[..i] + [fields[i]];
        assert FieldsText([fields[i]]) == FieldText(fields[i]);
      }
      assert fields[..|fields|] == fields;
    }

    method WriteHeader(extras: seq<Field>)
      modifies this
      ensures headerWritten && out == old(out) + old(PendingHeader(extras))
    {
      if headerWritten {
        return;
      }
      headerWritten := true;
      if !includeHeader {
        return;
      }
      out := out + PREAMBLE;
      WriteHeaderFields(StandardFields(programVersion), extras);
      out := out + END_OF_HEADER;
      Append3(old(out), PREAMBLE, FieldsText(StandardFields(programVersion) + extras), END_OF_HEADER);
    }

    method WriteHeaderFields(standard: seq<Field>, extras: seq<Field>)
      modifies `out
      ensures out == old(out) + FieldsText(standard + extras)
    {
      WriteFields(standard);
      WriteFields(extras);
      FieldsTextAppend(standard, extras);
      Associative(old(out), FieldsText(standard), FieldsText(extras));
    }

    method WriteRecord(rec: Record)
      requires rec.Valid()
      modifies this
      ensures headerWritten && out == old(Headed()) + RecordText(cat, rec.Fields())
    {
      if !headerWritten {
        WriteHeader([]);
      }
      ghost var headed := out;
      var normalized := rec.Clone();
      var _ := CanonicalizeRecordMode(cat.tables, normalized);
      var ordered := SortFields(cat.order, normalized.buf[..normalized.len]);
      WriteFields(ordered);
      out := out + END_OF_RECORD;
      Associative(headed, FieldsText(ordered), END_OF_RECORD);
    }

    /**
    Without records nothing is written; otherwise the first one brings the header if none was
    written. `texts` are the fields of the records.
    */
    method WriteRecords(records: seq<Record>, ghost texts: seq<seq<Field>>)
      requires |texts| == |records|
      requires forall k :: 0 <= k < |records| ==> records[k].Valid() && records[k].Fields() == texts[k]
      modifies this
      ensures headerWritten == (old(headerWritten) || records != [])
      ensures out == (if records == [] then old(out) else old(Headed()) + RecordsText(cat, texts))
    {
      ghost var headed := Headed();
      assert headed + RecordsText(cat, []) == headed;
      for i := 0 to |records|
        invariant i == 0 ==> headerWritten == old(headerWritten) && out == old(out)
        invariant i > 0 ==> headerWritten
        invariant Headed() == headed + RecordsText(cat, texts[..i])
      {
        ghost var done := RecordsText(cat, texts[..i]);
        WriteRecord(records[i]);
        Associative(headed, done, RecordText(cat, texts[i]));
        RecordsTextStep(cat, texts, i);
      }
      assert texts[..|records|] == texts;
    }
  }

  lemma VersionTwice(programVersion: string, extras: seq<Field>)
    ensures HeaderText(Version(programVersion), extras) == HeaderText(programVersion, extras)
  {
    assert Version(Version(programVersion)) == Version(programVersion);
  }

  /** A single record without a header. */
  method FormatRecord(cat: Catalogue, rec: Record) returns (text: string)
    requires rec.Valid()
    ensures text == RecordText(cat, rec.Fields())
  {
    var w := new Writer(cat, "", false);
    w.WriteRecord(rec);
    text := w.out;
  }

  /** A whole export with its header. */
  method FormatAll(cat: Catalogue, header: Option<seq<Field>>, records: seq<Record>, programVersion: string)
    returns (text: string)
    requires forall rec :: rec in records ==> rec.Valid()
    ensures text == Format(cat, header, old(AllFields(records)), programVersion)
  {
    ghost var texts := AllFields(records);
    AllFieldsAt(records);
    var w := new Writer(cat, programVersion, true);
    var extras := [];
    if header.Some? {
      extras := CopyExtras(header.value);
    }
    w.WriteHeader(extras);
    assert w.out == HeaderText(w.programVersion, extras);
    w.WriteRecords(records, texts);
    VersionTwice(programVersion, extras);
    text := w.out;
  }

  /** The header fields that the writer does not write itself. */
  method CopyExtras(fields: seq<Field>) returns (extras: seq<Field>)
    ensures extras == Extras(fields)
  {
    extras := [];
    for i := 0 to |fields|
      invariant extras == Extras(fields[..i])
    {
      ExtrasAppend(fields[..i], [fields[i]]);
      assert fields[..i + 1] == fields[..i] + [fields[i]];
      if !IsStandard(ToUpper(fields[i].name)) {
        extras := extras + [fields[i]];
      }
    }
    assert fields[..|fields|] == fields;
  }

  lemma {:induction false} ExtrasAppend(a: seq<Field>, b: seq<Field>)
    ensures Extras(a + b) == Extras(a) + Extras(b)
  {
    if a == [] {
      assert a + b == b;
    } else {
      ExtrasAppend(a[1..], b);
      Uncons(a, b);
      Associative(if IsStandard(ToUpper(a[0].name)) then [] else [a[0]], Extras(a[1..]), Extras(b));
    }
  }

  /** The extra header fields are exactly the others, each kept under its name. */
  lemma {:induction false} ExtrasNamed(fields: seq<Field>, name: string)
    ensures Named(Extras(fields), name) == if IsStandard(ToUpper(name)) then [] else Named(fields, name)
  {
    if fields != [] {
      var f, rest := fields[0], fields[1..];
      ExtrasNamed(rest, name);
      NamedCons(f, Extras(rest), name);
      assert [] + Extras(rest) == Extras(rest);
    }
  }
}
