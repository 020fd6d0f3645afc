/** The schema version read off Goose's migration log by a reverse scan. */
module GooseVersion {
  /** One row of the log: a version was applied or rolled back. */
  datatype Row = Row(version: int, applied: bool)

  // ---------- the scan ----------

  /** Newest row first: the first applied version that was not rolled back later. */
  function Scan(rows: seq<Row>, rolledBack: set<int>): int {
    if rows == [] then 0
    else if rows[0].version in rolledBack then Scan(rows[1..], rolledBack)
    else if rows[0].applied then rows[0].version
    else Scan(rows[1..], rolledBack + {rows[0].version})
  }

  method CurrentGooseVersion(rows: seq<Row>) returns (version: int)
    ensures version == Scan(rows, {})
  {
    var rolledBack := {};
    for i := 0 to |rows|
      invariant Scan(rows[i..], rolledBack) == Scan(rows, {})
    {
      assert rows[i..][0] == rows[i] && rows[i..][1..] == rows[i + 1..];
      if rows[i].version in rolledBack {
        continue;
      }
      if rows[i].applied {
        return rows[i].version;
      }
      rolledBack := rolledBack + {rows[i].version};
    }
    version := 0;
  }

  // ---------- histories ----------

  datatype Migration = Up(version: int) | Down

  /** The applied versions, latest last. */
  function Stack(history: seq<Migration>): seq<int> {
    if history == [] then []
    else
      var n := |history| - 1;
      var before := Stack(history[..n]);
      match history[n]
      case Up(version) => before + [version]
      case Down => if before == [] then [] else before[..|before| - 1]
  }

  /** Up applies a version that is not applied; Down needs one to roll back. */
  predicate IsHistory(history: seq<Migration>) {
    history == [] ||
    var n := |history| - 1;
    && IsHistory(history[..n])
    && match history[n]
       case Up(version) => version !in Stack(history[..n])
       case Down => Stack(history[..n]) != []
  }

  /** The log rows of a history, newest first. */
  function Log(history: seq<Migration>): seq<Row>
    requires IsHistory(history)
  {
    if history == [] then []
    else
      var n := |history| - 1;
      var before := Stack(history[..n]);
      var row := match history[n]
        case Up(version) => Row(version, true)
        case Down => Row(before[|before| - 1], false);
      [row] + Log(history[..n])
  }

  /** The topmost version outside `skipped`, or 0. */
  function TopOutside(stack: seq<int>, skipped: set<int>): int {
    if stack == [] then 0
    else if stack[|stack| - 1] !in skipped then stack[|stack| - 1]
    else TopOutside(stack[..|stack| - 1], skipped)
  }

  predicate Distinct(s: seq<int>) {
    forall i, j :: 0 <= i < j < |s| ==> s[i] != s[j]
  }

  lemma {:induction false} StackDistinct(history: seq<Migration>)
    requires IsHistory(history)
    ensures Distinct(Stack(history))
  {
    if history != [] {
      var n := |history| - 1;
      var before := Stack(history[..n]);
      StackDistinct(history[..n]);
      if history[n].Up? {
        var s := before + [history[n].version];
        assert forall i, j :: 0 <= i < j < |s| ==> s[i] in before && (j < |before| || s[j] !in before);
      }
    }
  }

  /** Skipping a version that is not there changes nothing. */
  lemma {:induction false} SkipAbsent(stack: seq<int>, skipped: set<int>, v: int)
    requires v !in stack
    ensures TopOutside(stack, skipped + {v}) == TopOutside(stack, skipped)
  {
    if stack != [] {
      assert stack[|stack| - 1] in stack;
      SkipAbsent(stack[..|stack| - 1], skipped, v);
    }
  }

  lemma TopOfPushed(stack: seq<int>, v: int, skipped: set<int>)
    ensures TopOutside(stack + [v], skipped) == if v in skipped then TopOutside(stack, skipped) else v
  {
    assert (stack + [v])[..|stack|] == stack;
  }

  lemma ScanNewest(row: Row, rows: seq<Row>, skipped: set<int>)
    ensures Scan([row] + rows, skipped) ==
      if row.version in skipped then Scan(rows, skipped)
      else if row.applied then row.version
      else Scan(rows, skipped + {row.version})
  {
    assert ([row] + rows)[1..] == rows;
  }

  /** Under a rolled-back top only the rest counts, whether the top was to be skipped already or not. */
  lemma TopRolledBack(stack: seq<int>, skipped: set<int>)
    requires stack != [] && Distinct(stack)
    ensures var top, rest := stack[|stack| - 1], stack[..|stack| - 1];
      && TopOutside(stack, skipped + {top}) == TopOutside(rest, skipped)
      && (top in skipped ==> TopOutside(stack, skipped) == TopOutside(rest, skipped))
  {
    SkipAbsent(stack[..|stack| - 1], skipped, stack[|stack| - 1]);
  }

  lemma {:induction false} ScanFindsTop(history: seq<Migration>, skipped: set<int>)
    requires IsHistory(history)
    ensures Scan(Log(history), skipped) == TopOutside(Stack(history), skipped)
  {
    if history != [] {
      var n := |history| - 1;
      var before := Stack(history[..n]);
      var log := Log(history[..n]);
      ScanFindsTop(history[..n], skipped);
      match history[n] {
        case Up(version) =>
          ScanNewest(Row(version, true), log, skipped);
          TopOfPushed(before, version, skipped);
        case Down =>
          var top := before[|before| - 1];
          ScanNewest(Row(top, false), log, skipped);
          ScanFindsTop(history[..n], skipped + {top});
          StackDistinct(history[..n]);
          TopRolledBack(before, skipped);
      }
    }
  }

  /** For every history the scan returns the latest version still applied, or 0 when none is. */
  lemma ScanIsTopOfStack(history: seq<Migration>)
    requires IsHistory(history)
    ensures var s := Stack(history);
      Scan(Log(history), {}) == if s == [] then 0 else s[|s| - 1]
  {
    ScanFindsTop(history, {});
  }
}
