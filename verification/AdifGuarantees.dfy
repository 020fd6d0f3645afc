/**
The result of parsing a whole file, and what holds of it on every byte string: which
records come back, that no field is lost, duplicated or moved, and when a parse fails.
*/
module AdifGuarantees {
  import opened Wrappers
  import opened AdifSyntax
  import opened AdifReference

  const BOM: string := ['\U{EF}', '\U{BB}', '\U{BF}']

  function StripBom(data: string): string {
    if BOM <= data then data[3..] else data
  }

  function TokensOf(data: string, cfg: Config): seq<Token> {
    Lex(StripBom(data), WithDefaults(cfg))
  }

  datatype Outcome = Outcome(header: Option<seq<Field>>, records: seq<seq<Field>>, err: Option<Error>)

  /** The error that ends the parse, with None for the normal end of file. */
  function Finish(header: seq<Field>, recs: seq<seq<Field>>, err: Error): Outcome {
    Outcome(Some(header), recs, if err == EndOfFile then None else Some(err))
  }

  /** The header, every record, and the error that ended the parse, for the tokens of a file of `total` bytes. */
  function ParseTokens(toks: seq<Token>, max: nat, total: nat): Outcome {
    var (h, st) := HeaderStep(toks, total);
    match h
    case HeaderErr(e) => Outcome(None, [], Some(e))
    case HeaderOk(fields) =>
      var (recs, err) := Records(st, max, total);
      Finish(fields, recs, err)
  }

  function Parse(data: string, cfg: Config): Outcome {
    ParseTokens(TokensOf(data, cfg), WithDefaults(cfg).maxRecords, |data|)
  }

  // ---------- record boundaries ----------

  predicate HasHeader(toks: seq<Token>) {
    HasMarker(toks) && toks[|Items(toks)|].Eoh?
  }

  /** An over-length field comes before the first marker. */
  predicate FailsInHeader(toks: seq<Token>) {
    !HasMarker(toks) && !HasEnd(toks)
  }

  lemma HeaderCases(toks: seq<Token>, total: nat)
    ensures HeaderStep(toks, total) ==
      if FailsInHeader(toks) then (HeaderErr(Stop(toks, total)), State(AfterMarker(toks), [], false, 0))
      else if HasHeader(toks) then (HeaderOk(Items(toks)), State(AfterMarker(toks), [], false, 0))
      else (HeaderOk([]), State(AfterMarker(toks), Items(toks), HasEnd(toks), 0))
  {
    StopsAtFirst(toks, total);
  }

  /** The groups that become records: those behind the header, or all with the first two joined. */
  function RecordGroups(toks: seq<Token>): (r: seq<seq<Field>>)
    ensures NoOversize(toks) ==> r != []
  {
    if !HasMarker(toks) then Groups(toks)
    else
      AfterMarkerClean(toks);
      if HasHeader(toks) then Groups(AfterMarker(toks))
      else JoinFirst(Items(toks), Groups(AfterMarker(toks)))
  }

  /** The last record runs to the end of the file, with no marker after it. */
  predicate EndsOpen(toks: seq<Token>) {
    HasEnd(toks) || (NoOversize(toks) && Last(RecordGroups(toks)) != [])
  }

  lemma PendingAfterHeader(toks: seq<Token>, total: nat)
    requires !FailsInHeader(toks)
    ensures var st := HeaderStep(toks, total).1;
      Pending(st) == RecordGroups(toks) && SeesEnd(st) == EndsOpen(toks) && StopOf(st, total) == Stop(toks, total)
  {
    HeaderCases(toks, total);
    StopsAtFirst(toks, total);
    if HasMarker(toks) {
      AfterMarkerClean(toks);
      PendingFresh(AfterMarker(toks), 0);
    }
  }

  /** What a parse returns when `groups` become its records. */
  function Returned(header: seq<Field>, groups: seq<seq<Field>>, toks: seq<Token>, max: nat, total: nat): Outcome {
    var (recs, err) := Limited(NonEmpty(groups), max, EndsOpen(toks), Stop(toks, total));
    Finish(header, recs, err)
  }

  /**
  A parse described by the groups of the file. The header is the first group when
  EOH is the first marker and empty otherwise; the records are the non-empty record groups
  closed before the first over-length field, in order, as far as the limit lets them through.
  */
  function Described(toks: seq<Token>, max: nat, total: nat): Outcome {
    if FailsInHeader(toks) then Outcome(None, [], Some(Stop(toks, total)))
    else Returned(if HasHeader(toks) then Groups(toks)[0] else [], RecordGroups(toks), toks, max, total)
  }

  /** What every parse returns, with and without a header. */
  lemma RecordBoundaries(toks: seq<Token>, max: nat, total: nat)
    ensures ParseTokens(toks, max, total) == Described(toks, max, total)
  {
    HeaderCases(toks, total);
    if !FailsInHeader(toks) {
      PendingAfterHeader(toks, total);
      RecordsAreGroups(HeaderStep(toks, total).1, max, total);
    }
  }

  /**
  The documented reading of a headerless file, one record per non-empty group, is what the
  parser returns exactly when one of the first two groups is there and empty.
  */
  lemma HeaderlessAsDocumented(toks: seq<Token>, max: nat, total: nat)
    requires HasMarker(toks) && !HasHeader(toks) && max > 0
    ensures var groups := Groups(toks);
      ParseTokens(toks, max, total) == Returned([], groups, toks, max, total)
      <==> groups[0] == [] || (|groups| > 1 && groups[1] == [])
  {
    RecordBoundaries(toks, max, total);
    JoinedReads(Items(toks), Groups(AfterMarker(toks)), max, EndsOpen(toks), Stop(toks, total));
  }

  /** Lists that begin differently are cut differently. */
  lemma LimitedDiffers(a: seq<seq<Field>>, b: seq<seq<Field>>, max: nat, seesEnd: bool, stop: Error)
    requires max > 0 && b != [] && (a == [] || a[0] != b[0])
    ensures Limited(a, max, seesEnd, stop).0 != Limited(b, max, seesEnd, stop).0
  {
    assert Limited(b, max, seesEnd, stop).0[0] == b[0];
    assert a != [] ==> Limited(a, max, seesEnd, stop).0[0] == a[0];
  }

  /** The records of the joined groups and of all groups: the same, or different from the first one on. */
  lemma JoinedRecords(first: seq<Field>, groups: seq<seq<Field>>)
    ensures var joined, all := NonEmpty(JoinFirst(first, groups)), NonEmpty([first] + groups);
      if first == [] || (groups != [] && groups[0] == []) then joined == all
      else all != [] && (joined == [] || joined[0] != all[0])
  {
    NonEmptyCons(first, groups);
    if groups != [] {
      var second, rest := groups[0], groups[1..];
      NonEmptyCons(first + second, rest);
      if first == [] {
        assert first + second == second;
      } else if second == [] {
        assert first + second == first;
      }
    }
  }

  lemma JoinedReads(first: seq<Field>, groups: seq<seq<Field>>, max: nat, seesEnd: bool, stop: Error)
    requires max > 0
    ensures Limited(NonEmpty(JoinFirst(first, groups)), max, seesEnd, stop)
         == Limited(NonEmpty([first] + groups), max, seesEnd, stop)
       <==> first == [] || (groups != [] && groups[0] == [])
  {
    JoinedRecords(first, groups);
    if !(first == [] || (groups != [] && groups[0] == [])) {
      LimitedDiffers(NonEmpty(JoinFirst(first, groups)), NonEmpty([first] + groups), max, seesEnd, stop);
    }
  }

  // ---------- conservation ----------

  lemma ScanConserves(toks: seq<Token>, total: nat)
    ensures var s := ScanFields(toks, total);
      && (s.err.None? ==> AllItems(toks) == s.fields + AllItems(s.rest))
      && (s.err == Some(EndOfFile) ==> AllItems(toks) == s.fields && s.rest == [])
      && (s.err.None? && NoOversize(s.rest) ==> NoOversize(toks))
      && (s.err == Some(EndOfFile) ==> NoOversize(toks))
  {
    StopsAtFirst(toks, total);
    StopIsEnd(toks, total);
    AllItemsSplit(toks);
    if HasMarker(toks) {
      AfterMarkerClean(toks);
    }
  }

  lemma {:induction false} NextConserves(st: State, total: nat)
    requires st.atEOF ==> st.toks == []
    ensures var (r, st') := NextRecord(st, total);
      && (st'.atEOF ==> st'.toks == [])
      && (r == End(EndOfFile) ==> st.prefetch == AllItems(st.toks) == [] && NoOversize(st.toks))
      && (r.Rec? ==> st.prefetch + AllItems(st.toks) == r.fields + AllItems(st'.toks))
      && (r.Rec? && NoOversize(st'.toks) ==> NoOversize(st.toks))
    decreases |st.toks|
  {
    if !st.atEOF {
      var s := ScanFields(st.toks, total);
      ScanConserves(st.toks, total);
      if s.err.None? {
        if st.prefetch + s.fields == [] {
          NextConserves(State(s.rest, [], false, st.count), total);
        } else {
          assert st.prefetch + (s.fields + AllItems(s.rest)) == (st.prefetch + s.fields) + AllItems(s.rest);
        }
      }
    }
  }

  lemma FlattenCons(group: seq<Field>, groups: seq<seq<Field>>)
    ensures Flatten([group] + groups) == group + Flatten(groups)
  {
    assert ([group] + groups)[1..] == groups;
  }

  lemma {:induction false} RecordsConserve(st: State, max: nat, total: nat)
    requires st.atEOF ==> st.toks == []
    requires st.count <= max
    ensures var (recs, err) := Records(st, max, total);
      && |recs| <= max - st.count
      && Flatten(recs) <= st.prefetch + AllItems(st.toks)
      && (err == EndOfFile ==> Flatten(recs) == st.prefetch + AllItems(st.toks) && NoOversize(st.toks))
    decreases |st.toks|, !st.atEOF, |st.prefetch|
  {
    if st.count < max {
      var (r, st') := NextRecord(st, total);
      NextConserves(st, total);
      NextRecordProgress(st, total);
      RecordsUnfold(st, max, total);
      if r.Rec? {
        RecordsConserve(st', max, total);
        FlattenCons(r.fields, Records(st', max, total).0);
      }
    }
  }

  /** The fields a parse hands out, in order. */
  function FieldsOut(o: Outcome): seq<Field> {
    (if o.header.Some? then o.header.value else []) + Flatten(o.records)
  }

  lemma HeaderConserves(toks: seq<Token>, total: nat)
    ensures var (h, st) := HeaderStep(toks, total);
      h.HeaderOk? ==>
        && h.fields + (st.prefetch + AllItems(st.toks)) == AllItems(toks)
        && (st.atEOF ==> st.toks == [])
        && st.count == 0
        && (NoOversize(st.toks) ==> NoOversize(toks))
  {
    var s := ScanFields(toks, total);
    ScanConserves(toks, total);
    assert s.err.None? <==> !s.marker.MarkerNone?;
    if s.err == Some(EndOfFile) {
      assert AllItems(s.rest) == [] && [] + (s.fields + []) == s.fields;
    } else if s.marker.MarkerEOH? {
      assert [] + AllItems(s.rest) == AllItems(s.rest);
    } else {
      assert [] + (s.fields + AllItems(s.rest)) == s.fields + AllItems(s.rest);
    }
  }

  /**
  Whatever the input: the fields handed out are a prefix of the fields of the file, and
  all of them, none oversize, when the parse reaches the end of the file. At most `max`
  records are returned.
  */
  lemma Conservation(toks: seq<Token>, max: nat, total: nat)
    ensures var o := ParseTokens(toks, max, total);
      && |o.records| <= max
      && FieldsOut(o) <= AllItems(toks)
      && (o.err.None? ==> FieldsOut(o) == AllItems(toks) && NoOversize(toks))
  {
    var (h, st) := HeaderStep(toks, total);
    HeaderConserves(toks, total);
    if h.HeaderOk? {
      RecordsConserve(st, max, total);
    }
  }

  /**
  A parse reaches the end of the file exactly when no field claims more than the maximum
  length and the records stay below the limit, or meet it with the last one unterminated.
  */
  lemma SucceedsIff(toks: seq<Token>, max: nat, total: nat)
    ensures var n := |NonEmpty(RecordGroups(toks))|;
      ParseTokens(toks, max, total).err.None? <==> NoOversize(toks) && (n < max || (n == max && EndsOpen(toks)))
  {
    RecordBoundaries(toks, max, total);
    StopIsEnd(toks, total);
    StopsAtFirst(toks, total);
  }

  // ---------- positions and the byte-order mark ----------

  /** The same error, reported `n` bytes further on. */
  function Later(e: Error, n: nat): Error {
    match e
    case ParseError(offset, name, length) => ParseError(offset + n, name, length)
    case _ => e
  }

  lemma {:induction false} StopLater(toks: seq<Token>, total: nat, n: nat)
    ensures Stop(toks, total + n) == Later(Stop(toks, total), n)
  {
    if toks != [] && !toks[0].Oversize? {
      StopLater(toks[1..], total, n);
    }
  }

  function OutcomeLater(o: Outcome, n: nat): Outcome {
    o.(err := match o.err case None => None case Some(e) => Some(Later(e, n)))
  }

  lemma DescribedLater(toks: seq<Token>, max: nat, total: nat, n: nat)
    ensures Described(toks, max, total + n) == OutcomeLater(Described(toks, max, total), n)
  {
    StopLater(toks, total, n);
  }

  /** The size of the file shows only in the position of an over-length field. */
  lemma ParseLater(toks: seq<Token>, max: nat, total: nat, n: nat)
    ensures ParseTokens(toks, max, total + n) == OutcomeLater(ParseTokens(toks, max, total), n)
  {
    RecordBoundaries(toks, max, total);
    RecordBoundaries(toks, max, total + n);
    DescribedLater(toks, max, total, n);
    SameLater(ParseTokens(toks, max, total), Described(toks, max, total), n);
  }

  lemma SameLater(o: Outcome, o': Outcome, n: nat)
    requires o == o'
    ensures OutcomeLater(o, n) == OutcomeLater(o', n)
  {
  }

  /** With an over-length field a parse ends at it, unless the record limit ends it before. */
  lemma FailsWith(toks: seq<Token>, max: nat, total: nat)
    requires !NoOversize(toks)
    ensures ParseTokens(toks, max, total).err ==
      if FailsInHeader(toks) || |NonEmpty(RecordGroups(toks))| < max then Some(Stop(toks, total)) else Some(TooManyRecords)
  {
    RecordBoundaries(toks, max, total);
    StopIsEnd(toks, total);
    StopsAtFirst(toks, total);
  }

  /** A byte-order mark changes nothing but the positions of errors. */
  lemma BomIgnored(data: string, cfg: Config)
    requires !(BOM <= data)
    ensures Parse(BOM + data, cfg) == OutcomeLater(Parse(data, cfg), 3)
  {
    assert (BOM + data)[3..] == data;
    ParseLater(TokensOf(data, cfg), WithDefaults(cfg).maxRecords, |data|, 3);
  }
}
