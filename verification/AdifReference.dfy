/**
What a parse of an ADI file must return, stated on the token sequence: first as the
state machine behind Header and Next, then as marker-delimited groups. The lemmas
connect the two.
*/
module AdifReference {
  import opened Wrappers
  import opened AdifSyntax
  import opened Sequences

  datatype Error = EndOfFile | TooManyRecords | ParseError(offset: int, name: string, length: nat)

  datatype EndMarker = MarkerNone | MarkerEOR | MarkerEOH

  // ---------- scanning up to a marker ----------

  function AsItems(fields: seq<Field>): (toks: seq<Token>)
    ensures |toks| == |fields|
    ensures forall i :: 0 <= i < |toks| ==> toks[i] == Item(fields[i])
  {
    seq(|fields|, i requires 0 <= i < |fields| => Item(fields[i]))
  }

  /** The fields before the first token that is not a field. */
  function Items(toks: seq<Token>): (fields: seq<Field>)
    ensures |fields| <= |toks|
    ensures |fields| < |toks| ==> !toks[|fields|].Item?
  {
    if toks == [] || !toks[0].Item? then [] else [toks[0].field] + Items(toks[1..])
  }

  /** Only the leading fields satisfy the description of Items. */
  lemma {:induction false} ItemsUnique(toks: seq<Token>, fields: seq<Field>)
    requires |fields| <= |toks|
    requires forall i :: 0 <= i < |fields| ==> toks[i] == Item(fields[i])
    requires |fields| < |toks| ==> !toks[|fields|].Item?
    ensures Items(toks) == fields
  {
    if fields != [] {
      ItemsUnique(toks[1..], fields[1..]);
      assert fields == [fields[0]] + fields[1..];
    }
  }

  lemma {:induction false} ItemsPrefix(toks: seq<Token>)
    ensures toks == AsItems(Items(toks)) + toks[|Items(toks)|..]
  {
    if toks != [] && toks[0].Item? {
      ItemsPrefix(toks[1..]);
      assert toks == [toks[0]] + toks[1..];
    }
  }

  /** The result of one scanFields call, and the tokens it leaves. */
  datatype Scan = Scan(fields: seq<Field>, marker: EndMarker, err: Option<Error>, rest: seq<Token>)

  function ScanFields(toks: seq<Token>, total: nat): (s: Scan)
    ensures |s.rest| <= |toks|
    ensures s.err != Some(EndOfFile) ==> |s.rest| < |toks|
  {
    var fields := Items(toks);
    if |fields| == |toks| then Scan(fields, MarkerNone, Some(EndOfFile), [])
    else
      var rest := toks[|fields| + 1..];
      match toks[|fields|]
      case Eor => Scan(fields, MarkerEOR, None, rest)
      case Eoh => Scan(fields, MarkerEOH, None, rest)
      case Oversize(name, length, left) => Scan([], MarkerNone, Some(ParseError(total - left, name, length)), rest)
  }

  // ---------- the parser as a state machine ----------

  /** What the parser still has: tokens unread, fields read ahead by the header scan, EOF seen, records returned. */
  datatype State = State(toks: seq<Token>, prefetch: seq<Field>, atEOF: bool, count: nat)

  datatype HeaderResult = HeaderOk(fields: seq<Field>) | HeaderErr(err: Error)

  function HeaderStep(toks: seq<Token>, total: nat): (HeaderResult, State) {
    var s := ScanFields(toks, total);
    if s.err.Some? && s.err.value != EndOfFile then (HeaderErr(s.err.value), State(s.rest, [], false, 0))
    else if s.marker.MarkerEOH? then (HeaderOk(s.fields), State(s.rest, [], false, 0))
    else (HeaderOk([]), State(s.rest, s.fields, s.marker.MarkerNone?, 0))
  }

  datatype NextResult = Rec(fields: seq<Field>) | End(err: Error)

  function NextStep(st: State, max: nat, total: nat): (NextResult, State) {
    if st.atEOF && st.prefetch == [] then (End(EndOfFile), st)
    else if st.count >= max then (End(TooManyRecords), st)
    else NextRecord(st, total)
  }

  /** The loop of Next: empty groups are skipped. */
  function NextRecord(st: State, total: nat): (NextResult, State)
    decreases |st.toks|
  {
    if st.atEOF then
      if st.prefetch == [] then (End(EndOfFile), st)
      else (Rec(st.prefetch), st.(prefetch := [], count := st.count + 1))
    else
      var s := ScanFields(st.toks, total);
      var eof := s.err == Some(EndOfFile);
      if s.err.Some? && !eof then (End(s.err.value), State(s.rest, [], false, st.count))
      else
        var fields := st.prefetch + s.fields;
        if fields != [] then (Rec(fields), State(s.rest, [], eof, st.count + 1))
        else if eof then (End(EndOfFile), State(s.rest, [], true, st.count))
        else NextRecord(State(s.rest, [], false, st.count), total)
  }

  lemma {:induction false} NextRecordProgress(st: State, total: nat)
    ensures var (r, st') := NextRecord(st, total);
      && |st'.toks| <= |st.toks|
      && (st.atEOF ==> st'.atEOF)
      && st'.prefetch == []
      && (r.Rec? ==> r.fields != [] && st'.count == st.count + 1)
      && (r.Rec? && st'.atEOF == st.atEOF && |st'.toks| == |st.toks| ==> st.prefetch != [])
    decreases |st.toks|
  {
    if !st.atEOF {
      var s := ScanFields(st.toks, total);
      if s.err.None? && st.prefetch + s.fields == [] {
        NextRecordProgress(State(s.rest, [], false, st.count), total);
      }
    }
  }

  /** Every record Next returns until it returns an error, and that error. */
  function Records(st: State, max: nat, total: nat): (r: (seq<seq<Field>>, Error))
    decreases |st.toks|, !st.atEOF, |st.prefetch|
  {
    var (next, st') := NextStep(st, max, total);
    match next
    case End(err) => ([], err)
    case Rec(fields) =>
      NextRecordProgress(st, total);
      var (recs, err) := Records(st', max, total);
      ([fields] + recs, err)
  }

  // ---------- marker-delimited groups ----------

  predicate NoOversize(toks: seq<Token>) {
    forall i :: 0 <= i < |toks| ==> !toks[i].Oversize?
  }

  /** What ends the reading: the first over-length field, or the end of input. */
  function Stop(toks: seq<Token>, total: nat): Error {
    if toks == [] then EndOfFile
    else
      match toks[0]
      case Oversize(name, length, left) => ParseError(total - left, name, length)
      case _ => Stop(toks[1..], total)
  }

  /**
  The groups that can be handed out: the fields between consecutive markers, where the last
  group runs to the end of input. An over-length field ends them, and its own group is lost.
  */
  function Groups(toks: seq<Token>): (groups: seq<seq<Field>>)
    ensures groups != [] ==> groups[0] == Items(toks)
    ensures NoOversize(toks) ==> groups != []
    decreases |toks|
  {
    var fields := Items(toks);
    if |fields| == |toks| then [fields]
    else if toks[|fields|].Oversize? then []
    else [fields] + Groups(toks[|fields| + 1..])
  }

  function NonEmpty(groups: seq<seq<Field>>): (r: seq<seq<Field>>)
    ensures |r| <= |groups|
  {
    if groups == [] then []
    else (if groups[0] == [] then [] else [groups[0]]) + NonEmpty(groups[1..])
  }

  /** All fields of the input, in order. */
  function AllItems(toks: seq<Token>): seq<Field> {
    if toks == [] then []
    else (if toks[0].Item? then [toks[0].field] else []) + AllItems(toks[1..])
  }

  function Flatten(groups: seq<seq<Field>>): seq<Field> {
    if groups == [] then [] else groups[0] + Flatten(groups[1..])
  }

  lemma {:induction false} AllItemsAppend(a: seq<Token>, b: seq<Token>)
    ensures AllItems(a + b) == AllItems(a) + AllItems(b)
  {
    if a == [] {
      assert a + b == b;
    } else {
      AllItemsAppend(a[1..], b);
      Uncons(a, b);
      Associative(if a[0].Item? then [a[0].field] else [], AllItems(a[1..]), AllItems(b));
    }
  }

  lemma {:induction false} AllItemsOfItems(fields: seq<Field>)
    ensures AllItems(AsItems(fields)) == fields
  {
    if fields != [] {
      AllItemsOfItems(fields[1..]);
      assert AsItems(fields)[1..] == AsItems(fields[1..]);
    }
  }

  lemma AllItemsSkip(tok: Token, rest: seq<Token>)
    requires !tok.Item?
    ensures AllItems([tok] + rest) == AllItems(rest)
  {
    assert ([tok] + rest)[1..] == rest;
    assert [] + AllItems(rest) == AllItems(rest);
  }

  /** The first scan takes exactly the leading fields off the input. */
  lemma AllItemsSplit(toks: seq<Token>)
    ensures var n := |Items(toks)|;
      AllItems(toks) == Items(toks) + (if n == |toks| then [] else AllItems(toks[n + 1..]))
  {
    var fields := Items(toks);
    var n := |fields|;
    var tail := toks[n..];
    ItemsPrefix(toks);
    AllItemsAppend(AsItems(fields), tail);
    AllItemsOfItems(fields);
    if n < |toks| {
      AllItemsSkip(toks[n], toks[n + 1..]);
      assert tail == [toks[n]] + toks[n + 1..];
    } else {
      assert tail == [];
    }
  }

  // ---------- the machine returns the groups ----------

  lemma {:induction false} StopsAtFirst(toks: seq<Token>, total: nat)
    ensures var n := |Items(toks)|;
      Stop(toks, total) ==
        if n == |toks| then EndOfFile
        else if toks[n].Oversize? then ParseError(total - toks[n].left, toks[n].name, toks[n].length)
        else Stop(toks[n + 1..], total)
  {
    if toks != [] && toks[0].Item? {
      StopsAtFirst(toks[1..], total);
    }
  }

  lemma {:induction false} StopIsEnd(toks: seq<Token>, total: nat)
    ensures Stop(toks, total) == EndOfFile <==> NoOversize(toks)
  {
    if toks != [] {
      StopIsEnd(toks[1..], total);
      assert toks == [toks[0]] + toks[1..];
      if !toks[0].Oversize? && NoOversize(toks[1..]) {
        assert forall i :: 0 < i < |toks| ==> toks[i] == toks[1..][i - 1];
      }
    }
  }

  /** `fields` put in front of the first group, and lost when there is none. */
  function JoinFirst(fields: seq<Field>, groups: seq<seq<Field>>): seq<seq<Field>> {
    if groups == [] then [] else [fields + groups[0]] + groups[1..]
  }

  /** The groups still to come, with the prefetched fields joined to the first of them. */
  function Pending(st: State): (groups: seq<seq<Field>>)
    ensures st.atEOF || NoOversize(st.toks) ==> groups != []
  {
    if st.atEOF then [st.prefetch] else JoinFirst(st.prefetch, Groups(st.toks))
  }

  /** What ends the reading from here on. */
  function StopOf(st: State, total: nat): Error {
    if st.atEOF then EndOfFile else Stop(st.toks, total)
  }

  function Last(groups: seq<seq<Field>>): seq<Field>
    requires groups != []
  {
    groups[|groups| - 1]
  }

  /** The parser has seen EOF by the time it has returned the last pending group. */
  predicate SeesEnd(st: State) {
    st.atEOF || (NoOversize(st.toks) && Last(Pending(st)) != [])
  }

  lemma {:induction false} LastSurvives(groups: seq<seq<Field>>)
    requires groups != [] && Last(groups) != []
    ensures NonEmpty(groups) != []
  {
    if |groups| > 1 {
      LastSurvives(groups[1..]);
    }
  }

  lemma NonEmptyCons(group: seq<Field>, groups: seq<seq<Field>>)
    ensures NonEmpty([group] + groups) == (if group == [] then [] else [group]) + NonEmpty(groups)
  {
    assert ([group] + groups)[1..] == groups;
  }

  /** The tokens after the first marker. */
  function AfterMarker(toks: seq<Token>): seq<Token> {
    var n := |Items(toks)|;
    if n == |toks| then [] else toks[n + 1..]
  }

  /** The first token that is not a field is EOR or EOH. */
  predicate HasMarker(toks: seq<Token>) {
    |Items(toks)| < |toks| && !toks[|Items(toks)|].Oversize?
  }

  /** Nothing but fields is left. */
  predicate HasEnd(toks: seq<Token>) {
    |Items(toks)| == |toks|
  }

  lemma {:induction false} AfterMarkerClean(toks: seq<Token>)
    requires HasMarker(toks)
    ensures NoOversize(toks) <==> NoOversize(AfterMarker(toks))
  {
    var n := |Items(toks)|;
    ItemsPrefix(toks);
    if NoOversize(AfterMarker(toks)) {
      forall i | 0 <= i < |toks|
        ensures !toks[i].Oversize?
      {
        if i > n {
          assert toks[i] == AfterMarker(toks)[i - n - 1];
        }
      }
    }
  }

  /** The state after a group without a record: the marker passed, nothing prefetched. */
  function Passed(st: State): State {
    State(AfterMarker(st.toks), [], false, st.count)
  }

  lemma PendingFresh(toks: seq<Token>, count: nat)
    ensures Pending(State(toks, [], false, count)) == Groups(toks)
  {
    if Groups(toks) != [] {
      assert [] + Groups(toks)[0] == Groups(toks)[0];
    }
  }

  /** What passing a marker means for what is to come. */
  lemma PendingUnfold(st: State, total: nat)
    requires !st.atEOF && HasMarker(st.toks)
    ensures Pending(st) == [st.prefetch + Items(st.toks)] + Groups(AfterMarker(st.toks))
    ensures Pending(Passed(st)) == Groups(AfterMarker(st.toks))
    ensures StopOf(Passed(st), total) == StopOf(st, total)
    ensures SeesEnd(Passed(st)) <==> SeesEnd(st)
  {
    StopsAtFirst(st.toks, total);
    AfterMarkerClean(st.toks);
    PendingFresh(AfterMarker(st.toks), st.count);
  }

  /** `r` is the first non-empty group pending in `st`, and `st'` is left with the others. */
  predicate Took(st: State, r: NextResult, st': State, total: nat) {
    match r
    case End(err) => err == StopOf(st, total) && NonEmpty(Pending(st)) == []
    case Rec(fields) =>
      && NonEmpty(Pending(st)) == [fields] + NonEmpty(Pending(st'))
      && StopOf(st', total) == StopOf(st, total)
      && (SeesEnd(st') <==> SeesEnd(st))
  }

  /** The first group decides what Next does. */
  lemma NextRecordUnfold(st: State, total: nat)
    requires !st.atEOF
    ensures var fields := st.prefetch + Items(st.toks);
      NextRecord(st, total) ==
        if HasMarker(st.toks) then
          if fields != [] then (Rec(fields), Passed(st).(count := st.count + 1)) else NextRecord(Passed(st), total)
        else if HasEnd(st.toks) then
          (if fields != [] then Rec(fields) else End(EndOfFile),
           State([], [], true, if fields != [] then st.count + 1 else st.count))
        else (End(ScanFields(st.toks, total).err.value), State(AfterMarker(st.toks), [], false, st.count))
  {
  }

  /** The last group: all that is left before the end of input. */
  lemma TookLast(st: State, total: nat, count: nat)
    requires st.atEOF || HasEnd(st.toks)
    ensures var fields := if st.atEOF then st.prefetch else st.prefetch + Items(st.toks);
      Took(st, if fields == [] then End(EndOfFile) else Rec(fields), State(st.toks, [], true, count), total)
      && Took(st, if fields == [] then End(EndOfFile) else Rec(fields), State([], [], true, count), total)
  {
    var fields := if st.atEOF then st.prefetch else st.prefetch + Items(st.toks);
    assert Pending(st) == [fields];
    NonEmptyCons(fields, []);
    assert [fields] + [] == [fields];
    if !st.atEOF {
      StopsAtFirst(st.toks, total);
      StopIsEnd(st.toks, total);
    }
  }

  /**
  One call of Next takes the first non-empty pending group, whatever it skips on the way, or
  ends with the error that the input ends with.
  */
  lemma {:induction false} NextTakesGroup(st: State, total: nat)
    ensures var (r, st') := NextRecord(st, total);
      Took(st, r, st', total)
    decreases |st.toks|
  {
    if st.atEOF {
      TookLast(st, total, if st.prefetch == [] then st.count else st.count + 1);
    } else {
      var fields := st.prefetch + Items(st.toks);
      NextRecordUnfold(st, total);
      if HasMarker(st.toks) {
        PendingUnfold(st, total);
        NonEmptyCons(fields, Groups(AfterMarker(st.toks)));
        if fields == [] {
          NextTakesGroup(Passed(st), total);
        }
      } else if HasEnd(st.toks) {
        TookLast(st, total, if fields == [] then st.count else st.count + 1);
      } else {
        StopsAtFirst(st.toks, total);
      }
    }
  }

  /**
  What the record limit lets through of records that end with `stop`. `seesEnd` says that
  the last record ran into the end of input, so that the parser has seen EOF when it returns it.
  */
  function Limited(recs: seq<seq<Field>>, room: nat, seesEnd: bool, stop: Error): (seq<seq<Field>>, Error) {
    if |recs| < room || (|recs| == room && seesEnd) then (recs, stop)
    else (recs[..room], TooManyRecords)
  }

  lemma LimitedCons(fields: seq<Field>, recs: seq<seq<Field>>, room: nat, seesEnd: bool, stop: Error)
    requires room > 0
    ensures var (rs, err) := Limited(recs, room - 1, seesEnd, stop);
      Limited([fields] + recs, room, seesEnd, stop) == ([fields] + rs, err)
  {
    if |recs| >= room - 1 {
      assert ([fields] + recs)[..room] == [fields] + recs[..room - 1];
    }
  }

  lemma RecordsUnfold(st: State, max: nat, total: nat)
    requires st.count < max
    ensures var (r, st') := NextRecord(st, total);
      Records(st, max, total) ==
        if r.End? then ([], r.err)
        else var (recs, err) := Records(st', max, total); ([r.fields] + recs, err)
  {
    assert NextStep(st, max, total) == NextRecord(st, total);
  }

  /** At the limit nothing more is returned; the error depends on whether EOF has been seen. */
  lemma RecordsAtLimit(st: State, max: nat, total: nat)
    requires st.count == max
    ensures Records(st, max, total) == Limited(NonEmpty(Pending(st)), 0, SeesEnd(st), StopOf(st, total))
  {
    if SeesEnd(st) && Last(Pending(st)) != [] {
      LastSurvives(Pending(st));
    }
  }

  /**
  Next returns the non-empty pending groups in order. It ends with what ends the input when
  they are fewer than the limit allows, or exactly as many and the last one ran into the end
  of input; otherwise it ends with TooManyRecords after exactly as many as the limit allows.
  */
  lemma {:induction false} RecordsAreGroups(st: State, max: nat, total: nat)
    requires st.count <= max
    ensures Records(st, max, total)
         == Limited(NonEmpty(Pending(st)), max - st.count, SeesEnd(st), StopOf(st, total))
    decreases |st.toks|, !st.atEOF, |st.prefetch|
  {
    if st.count == max {
      RecordsAtLimit(st, max, total);
    } else {
      var (r, st') := NextRecord(st, total);
      RecordsUnfold(st, max, total);
      NextRecordProgress(st, total);
      NextTakesGroup(st, total);
      if r.Rec? {
        RecordsAreGroups(st', max, total);
        LimitedCons(r.fields, NonEmpty(Pending(st')), max - st.count, SeesEnd(st'), StopOf(st', total));
      }
    }
  }
}
