/** The streaming ADI parser over a buffered reader. */
module AdifParser {
  import opened Wrappers
  import opened GoStrings
  import opened AdifSyntax
  import opened AdifReference
  import opened AdifGuarantees
  import opened AdifRecord
  import opened Sequences
  import Utf8

  /** The part of bufio.Reader that the parser uses, over a source held in memory. */
  class Reader {
    const data: string
    var pos: nat

    ghost predicate Valid()
      reads this
    {
      pos <= |data|
    }

    ghost function Left(): string
      reads this
      requires Valid()
    {
      data[pos..]
    }

    constructor (data: string)
      ensures Valid() && this.data == data && pos == 0
    {
      this.data := data;
      pos := 0;
    }

    /** The next `n` bytes without consuming them; fewer at the end of the data. */
    method Peek(n: nat) returns (s: string, eof: bool)
      requires Valid()
      ensures eof <==> |Left()| < n
      ensures s == if eof then Left() else Left()[..n]
    {
      eof := |data| - pos < n;
      s := if eof then data[pos..] else data[pos..pos + n];
    }

    method Discard(n: nat)
      requires Valid() && n <= |Left()|
      modifies this
      ensures Valid() && pos == old(pos) + n && Left() == old(Left())[n..]
    {
      pos := pos + n;
    }

    method ReadByte() returns (b: char, eof: bool)
      requires Valid()
      modifies this
      ensures Valid()
      ensures eof <==> old(Left()) == []
      ensures if eof then pos == old(pos) else pos == old(pos) + 1 && [b] + Left() == old(Left())
    {
      eof := pos == |data|;
      b := ' ';
      if !eof {
        b := data[pos];
        pos := pos + 1;
      }
    }

    /** Everything up to and including the first `delim`, or to the end of the data. */
    method ReadString(delim: char) returns (s: string, eof: bool)
      requires Valid()
      modifies this
      ensures Valid() && pos == old(pos) + |s|
      ensures s + Left() == old(Left())
      ensures eof ==> Left() == [] && delim !in s
      ensures !eof ==> s != [] && s[|s| - 1] == delim && delim !in s[..|s| - 1]
    {
      var start := pos;
      while pos < |data| && data[pos] != delim
        invariant start <= pos <= |data|
        invariant delim !in data[start..pos]
      {
        pos := pos + 1;
      }
      eof := pos == |data|;
      ghost var text := data[start..pos];
      if !eof {
        pos := pos + 1;
      }
      s := data[start..pos];
      assert !eof ==> s == text + [delim];
    }

    /** io.ReadFull for n > 0. */
    method ReadFull(n: nat) returns (s: string, eof: bool)
      requires Valid() && n > 0
      modifies this
      ensures Valid() && pos == old(pos) + |s|
      ensures eof <==> |old(Left())| < n
      ensures |s| == if eof then |old(Left())| else n
      ensures s + Left() == old(Left())
    {
      eof := |data| - pos < n;
      s := if eof then data[pos..] else data[pos..pos + n];
      pos := pos + |s|;
    }
  }

  /** A scan that stops at `stop` after reading `fields`. */
  lemma ScanEnds(toks: seq<Token>, fields: seq<Field>, stop: Token, rest: seq<Token>, total: nat)
    requires !stop.Item? && toks == AsItems(fields) + ([stop] + rest)
    ensures ScanFields(toks, total) ==
      match stop
      case Eor => Scan(fields, MarkerEOR, None, rest)
      case Eoh => Scan(fields, MarkerEOH, None, rest)
      case Oversize(name, length, left) => Scan([], MarkerNone, Some(ParseError(total - left, name, length)), rest)
  {
    ItemsUnique(toks, fields);
    assert toks[|fields|] == stop && toks[|fields| + 1..] == rest;
  }

  lemma ScanExhausted(toks: seq<Token>, fields: seq<Field>, total: nat)
    requires toks == AsItems(fields) + []
    ensures ScanFields(toks, total) == Scan(fields, MarkerNone, Some(EndOfFile), [])
  {
    ItemsUnique(toks, fields);
  }

  lemma ItemRead(toks: seq<Token>, fields: seq<Field>, field: Field, rest: seq<Token>)
    requires toks == AsItems(fields) + ([Item(field)] + rest)
    ensures toks == AsItems(fields + [field]) + rest
  {
    assert AsItems(fields + [field]) == AsItems(fields) + [Item(field)];
  }

  /** What one round of the scan finds; `cutShort` marks a value that the end of the data truncates. */
  datatype Step = Exhausted | Malformed | Got(tok: Token, cutShort: bool)

  class Parser {
    const r: Reader
    const cfg: Config
    var headerDone: bool
    var header: Option<seq<Field>>
    var recordCount: nat
    var offset: nat
    var prefetchedFields: seq<Field>
    var hasPrefetch: bool
    var atEOF: bool

    /** `offset` counts the bytes consumed. */
    ghost predicate Reading()
      reads this, r
    {
      && r.Valid() && offset == r.pos
      && cfg.maxFieldLen > 0 && cfg.maxRecords > 0
    }

    /** The tokens still to be read. */
    ghost function Pending(): seq<Token>
      reads this, r
      requires Reading()
    {
      Lex(r.Left(), cfg)
    }

    ghost predicate Valid()
      reads this, r
    {
      && Reading()
      && (hasPrefetch <==> prefetchedFields != [])
      && (!headerDone ==> offset == 0 && recordCount == 0 && !hasPrefetch && !atEOF && header.None?)
      && recordCount <= cfg.maxRecords
    }

    ghost function Abstract(): State
      reads this, r
      requires Valid()
    {
      State(Pending(), prefetchedFields, atEOF, recordCount)
    }

    constructor (r: Reader, opts: Config)
      requires r.Valid() && r.pos == 0
      ensures Valid() && this.r == r && cfg == WithDefaults(opts) && !headerDone
    {
      this.r := r;
      cfg := WithDefaults(opts);
      headerDone, header, recordCount, offset := false, None, 0, 0;
      prefetchedFields, hasPrefetch, atEOF := [], false, false;
    }

    /** The content of a tag whose '<' has just been read; the '>' may be missing at the end of the data. */
    method ReadTagContent() returns (content: string)
      requires Reading()
      modifies r, `offset
      ensures Reading() && offset >= old(offset)
      ensures '>' !in content
      ensures old(r.Left()) == content + ['>'] + r.Left() || (old(r.Left()) == content && r.Left() == [])
    {
      var eof;
      content, eof := r.ReadString('>');
      offset := offset + |content|;
      if content != [] && content[|content| - 1] == '>' {
        content := content[..|content| - 1];
      }
    }

    /** Skips to the next '<' and reads up to the next '>'. */
    method FindNextTag() returns (content: string, eof: bool)
      requires Reading()
      modifies r, `offset
      ensures Reading() && offset >= old(offset)
      ensures eof ==> old(Pending()) == Pending() == []
      ensures !eof ==> old(Pending()) == LexContent(content, r.Left(), cfg) && offset > old(offset)
    {
      while true
        invariant Reading() && offset >= old(offset)
        invariant Pending() == old(Pending())
        decreases |r.Left()|
      {
        var b;
        b, eof := r.ReadByte();
        if eof {
          return "", true;
        }
        offset := offset + 1;
        if b == '<' {
          ghost var rest := r.Left();
          content := ReadTagContent();
          if rest == content {
            LexTagUnclosed(content, cfg);
          } else {
            LexTagClosed(content, r.Left(), cfg);
          }
          return content, false;
        }
      }
    }

    /** Reads exactly n bytes, or what is left. */
    method ReadFieldValue(n: nat) returns (value: string, eof: bool)
      requires Reading()
      modifies r, `offset
      ensures Reading() && offset >= old(offset)
      ensures eof <==> |old(r.Left())| < n
      ensures |value| == if eof then |old(r.Left())| else n
      ensures value + r.Left() == old(r.Left())
    {
      if n == 0 {
        return "", false;
      }
      value, eof := r.ReadFull(n);
      offset := offset + |value|;
    }

    /** One round of the scan: the next tag, and its value when it is a field. */
    method ReadStep() returns (step: Step)
      requires Reading()
      modifies r, `offset
      ensures Reading() && offset >= old(offset)
      ensures match step
        case Exhausted => old(Pending()) == Pending() == []
        case Malformed => old(Pending()) == Pending() && offset > old(offset)
        case Got(tok, cutShort) =>
          && old(Pending()) == [tok] + Pending()
          && offset > old(offset)
          && (cutShort ==> tok.Item? && Pending() == [])
          && (tok.Oversize? ==> tok.left == |r.data| - offset)
    {
      var content, eof := FindNextTag();
      if eof {
        return Exhausted;
      }
      var parsed := ParseTag(content);
      if parsed.None? {
        return Malformed;
      }
      var tag := parsed.value;
      var upper := ToUpper(tag.name);
      if upper == "EOR" {
        return Got(Eor, false);
      }
      if upper == "EOH" {
        return Got(Eoh, false);
      }
      if tag.length > cfg.maxFieldLen {
        return Got(Oversize(tag.name, tag.length, |r.data| - offset), false);
      }
      var value, cutShort := ReadFieldValue(tag.length);
      LexItem(content, value, r.Left(), cfg);
      step := Got(Item(Field(upper, Utf8.Sanitize(value, cfg.legacy), tag.dataType)), cutShort);
    }

    /** Reads fields until a marker or the end of the data. */
    method ScanFields() returns (fields: seq<Field>, marker: EndMarker, err: Option<Error>)
      requires Reading()
      modifies r, `offset
      ensures Reading()
      ensures Scan(fields, marker, err, Pending()) == AdifReference.ScanFields(old(Pending()), |r.data|)
    {
      ghost var toks := Pending();
      fields := [];
      while true
        invariant Reading()
        invariant toks == AsItems(fields) + Pending()
        decreases |r.data| - r.pos
      {
        var step := ReadStep();
        if step.Exhausted? {
          assert Pending() == [];
          ScanExhausted(toks, fields, |r.data|);
          return fields, MarkerNone, Some(EndOfFile);
        }
        if step.Malformed? {
          continue;
        }
        match step.tok {
          case Eor =>
            ScanEnds(toks, fields, Eor, Pending(), |r.data|);
            return fields, MarkerEOR, None;
          case Eoh =>
            ScanEnds(toks, fields, Eoh, Pending(), |r.data|);
            return fields, MarkerEOH, None;
          case Oversize(name, length, left) =>
            ScanEnds(toks, fields, step.tok, Pending(), |r.data|);
            return [], MarkerNone, Some(ParseError(offset, name, length));
          case Item(field) =>
            ItemRead(toks, fields, field, Pending());
            fields := fields + [field];
        }
        if step.cutShort {
          ScanExhausted(toks, fields, |r.data|);
          return fields, MarkerNone, Some(EndOfFile);
        }
      }
    }

    /** Parses the header; later calls return the cached result. */
    method Header() returns (h: Option<seq<Field>>, err: Option<Error>)
      requires Valid()
      modifies this, r
      ensures Valid() && headerDone && h == header
      ensures old(headerDone) ==> err == None && h == old(header) && Abstract() == old(Abstract())
      ensures !old(headerDone) ==>
        var (res, st) := HeaderStep(Lex(StripBom(r.data), cfg), |r.data|);
        && Abstract() == st
        && match res
           case HeaderOk(fields) => h == Some(fields) && err == None
           case HeaderErr(e) => h == None && err == Some(e)
    {
      if headerDone {
        return header, None;
      }
      headerDone := true;
      var bom, short := r.Peek(3);
      if !short && bom == BOM {
        r.Discard(3);
        offset := offset + 3;
      }
      assert r.Left() == StripBom(r.data);
      var fields, marker, e := ScanFields();
      if e.Some? && e.value != EndOfFile {
        return None, e;
      }
      if marker.MarkerEOH? {
        header := Some(fields);
      } else {
        header := Some([]);
        prefetchedFields := fields;
        hasPrefetch := |fields| > 0;
        atEOF := marker.MarkerNone?;
      }
      return header, None;
    }

    /** A record result as an object or an error. */
    ghost static predicate Returns(res: NextResult, rec: Record?, err: Option<Error>)
      reads if rec != null then {rec, rec.buf} else {}
    {
      match res
      case Rec(fields) => rec != null && rec.Valid() && rec.Fields() == fields && err == None
      case End(e) => rec == null && err == Some(e)
    }

    /** The next record, or the error that ends the file; the header is parsed first if it has not been. */
    method Next() returns (rec: Record?, err: Option<Error>)
      requires Valid()
      modifies this, r
      ensures Valid() && headerDone && (old(headerDone) ==> header == old(header))
      ensures rec != null ==> fresh(rec) && fresh(rec.buf)
      ensures var (h, st) := if old(headerDone) then (HeaderOk([]), old(Abstract()))
                             else HeaderStep(Lex(StripBom(r.data), cfg), |r.data|);
        match h
        case HeaderErr(e) => header == None && Abstract() == st && Returns(End(e), rec, err)
        case HeaderOk(fields) =>
          var (res, st') := NextStep(st, cfg.maxRecords, |r.data|);
          (!old(headerDone) ==> header == Some(fields)) && Abstract() == st' && Returns(res, rec, err)
    {
      if !headerDone {
        var _, e := Header();
        if e.Some? {
          return null, e;
        }
      }
      if atEOF && !hasPrefetch {
        return null, Some(EndOfFile);
      }
      if recordCount >= cfg.maxRecords {
        return null, Some(TooManyRecords);
      }
      rec, err := NextGroup();
    }

    method TakePrefetch() returns (fields: seq<Field>)
      requires Valid() && headerDone
      modifies `hasPrefetch, `prefetchedFields
      ensures Valid() && fields == old(prefetchedFields)
      ensures Abstract() == old(Abstract()).(prefetch := [])
    {
      fields := [];
      if hasPrefetch {
        fields := prefetchedFields;
        hasPrefetch, prefetchedFields := false, [];
      }
    }

    method Deliver(fields: seq<Field>) returns (rec: Record)
      requires Valid() && headerDone && recordCount < cfg.maxRecords
      modifies `recordCount
      ensures Valid() && fresh(rec) && fresh(rec.buf) && rec.Valid() && rec.Fields() == fields
      ensures Abstract() == old(Abstract()).(count := old(recordCount) + 1)
    {
      recordCount := recordCount + 1;
      rec := new Record(fields);
    }

    /** Scans one group behind the prefetched fields, and remembers the end of the data. */
    method ScanGroup(ghost st: State) returns (fields: seq<Field>, err: Option<Error>)
      requires Valid() && headerDone && !st.atEOF && Abstract() == st.(prefetch := [])
      modifies `atEOF, `offset, r
      ensures Valid()
      ensures var s := AdifReference.ScanFields(st.toks, |r.data|);
        && fields == s.fields
        && err == (if s.err == Some(EndOfFile) then None else s.err)
        && Abstract() == State(s.rest, [], s.err == Some(EndOfFile), st.count)
    {
      var marker;
      fields, marker, err := ScanFields();
      if err == Some(EndOfFile) {
        atEOF := true;
        err := None;
      }
    }

    /** The loop of Next, which skips groups without fields. */
    method NextGroup() returns (rec: Record?, err: Option<Error>)
      requires Valid() && headerDone && recordCount < cfg.maxRecords
      modifies this, r
      ensures Valid() && headerDone && header == old(header)
      ensures rec != null ==> fresh(rec) && fresh(rec.buf)
      ensures var (res, st) := NextRecord(old(Abstract()), |r.data|);
        Abstract() == st && Returns(res, rec, err)
    {
      while true
        invariant Valid() && headerDone && header == old(header) && recordCount == old(recordCount)
        invariant NextRecord(Abstract(), |r.data|) == NextRecord(old(Abstract()), |r.data|)
        decreases |Pending()|
      {
        ghost var st := Abstract();
        var startFields := TakePrefetch();
        if atEOF {
          if |startFields| == 0 {
            return null, Some(EndOfFile);
          }
          rec := Deliver(startFields);
          return rec, None;
        }
        var fields, e := ScanGroup(st);
        if e.Some? {
          return null, e;
        }
        var allFields := startFields + fields;
        if |allFields| == 0 {
          if atEOF {
            return null, Some(EndOfFile);
          }
          continue;
        }
        rec := Deliver(allFields);
        return rec, None;
      }
    }
  }

  /** The fields of each record. */
  ghost function AllFields(records: seq<Record>): seq<seq<Field>>
    requires forall rec :: rec in records ==> rec.Valid()
    reads set rec | rec in records, set rec | rec in records :: rec.buf
  {
    if records == [] then [] else AllFields(records[..|records| - 1]) + [records[|records| - 1].Fields()]
  }

  lemma AllFieldsAppend(records: seq<Record>, rec: Record)
    requires forall r :: r in records ==> r.Valid()
    requires rec.Valid()
    ensures AllFields(records + [rec]) == AllFields(records) + [rec.Fields()]
  {
    assert (records + [rec])[..|records|] == records;
  }

  lemma {:induction false} AllFieldsAt(records: seq<Record>)
    requires forall r :: r in records ==> r.Valid()
    ensures |AllFields(records)| == |records|
    ensures forall k :: 0 <= k < |records| ==> AllFields(records)[k] == records[k].Fields()
  {
    if records != [] {
      AllFieldsAt(records[..|records| - 1]);
    }
  }

  /** One more step of a run of Next, for a run that has returned `done` so far. */
  lemma RecordsStep(st: State, done: seq<seq<Field>>, max: nat, total: nat)
    ensures var (recs, e) := Records(st, max, total);
      var (res, st') := NextStep(st, max, total);
      match res
      case End(err) => (done + recs, e) == (done, err)
      case Rec(fields) =>
        && (done + recs, e) == ((done + [fields]) + Records(st', max, total).0, Records(st', max, total).1)
        && (|st'.toks| < |st.toks| || (|st'.toks| == |st.toks|
          && ((st'.atEOF && !st.atEOF) || (st'.atEOF == st.atEOF && |st'.prefetch| < |st.prefetch|))))
  {
    NextRecordProgress(st, total);
    var (res, st') := NextStep(st, max, total);
    if res.End? {
      assert done + [] == done;
    } else {
      Associative(done, [res.fields], Records(st', max, total).0);
    }
  }

  /** Next on a parser whose header has been parsed. */
  method NextAfterHeader(p: Parser) returns (rec: Record?, err: Option<Error>)
    requires p.Valid() && p.headerDone
    modifies p, p.r
    ensures p.Valid() && p.headerDone
    ensures var (res, st) := NextStep(old(p.Abstract()), p.cfg.maxRecords, |p.r.data|);
      p.Abstract() == st
      && match res
         case Rec(fields) => rec != null && fresh(rec) && fresh(rec.buf) && rec.Valid() && rec.Fields() == fields && err == None
         case End(e) => err == Some(e)
  {
    rec, err := p.Next();
  }

  /** Calls Next until it returns an error. */
  method ReadRecords(p: Parser) returns (records: seq<Record>, err: Error)
    requires p.Valid() && p.headerDone
    modifies p, p.r
    ensures p.Valid()
    ensures forall rec :: rec in records ==> rec.Valid() && fresh(rec) && fresh(rec.buf)
    ensures (AllFields(records), err) == Records(old(p.Abstract()), p.cfg.maxRecords, |p.r.data|)
  {
    ghost var start, max, total := p.Abstract(), p.cfg.maxRecords, |p.r.data|;
    records := [];
    assert AllFields(records) + Records(start, max, total).0 == Records(start, max, total).0;
    while true
      invariant p.Valid() && p.headerDone
      invariant forall rec :: rec in records ==> rec.Valid() && fresh(rec) && fresh(rec.buf)
      invariant var (recs, e) := Records(p.Abstract(), max, total);
        Records(start, max, total) == (AllFields(records) + recs, e)
      decreases |p.Pending()|, !p.atEOF, |p.prefetchedFields|
    {
      RecordsStep(p.Abstract(), AllFields(records), max, total);
      var rec, e := NextAfterHeader(p);
      if e.Some? {
        return records, e.value;
      }
      AllFieldsAppend(records, rec);
      records := records + [rec];
    }
  }

  /** Reads a whole file. On an error the records read so far are returned with it. */
  method ParseAll(data: string, opts: Config)
    returns (header: Option<seq<Field>>, records: seq<Record>, err: Option<Error>)
    ensures forall rec :: rec in records ==> rec.Valid()
    ensures Outcome(header, AllFields(records), err) == Parse(data, opts)
  {
    var r := new Reader(data);
    var p := new Parser(r, opts);
    records := [];
    header, err := p.Header();
    if err.Some? {
      return;
    }
    var e;
    records, e := ReadRecords(p);
    err := if e == EndOfFile then None else Some(e);
  }
}
