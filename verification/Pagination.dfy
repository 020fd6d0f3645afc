/** Keyset paging of the confirmation list. */
module Pagination {
  import opened Wrappers
  import opened GoStrings
  import opened Sequences

  const DEFAULT_PAGE_SIZE: int := 25
  const MAX_PAGE_SIZE: int := 100

  /** parsePageSize, and the guard that follows it. */
  function PageSize(raw: string): (n: int)
    ensures 1 <= n <= MAX_PAGE_SIZE
  {
    if TrimSpace(raw) == "" then DEFAULT_PAGE_SIZE
    else
      var parsed := ParseInt(raw);
      if parsed.None? || parsed.value <= 0 then DEFAULT_PAGE_SIZE
      else if parsed.value > MAX_PAGE_SIZE then MAX_PAGE_SIZE
      else parsed.value
  }

  /** The id in a cursor. Errors are ignored: bad syntax counts as 0, an overflow as the nearest 64-bit number. */
  function AfterId(cursor: string): int {
    if cursor == "" then 0
    else
      var parsed := ParseInt(cursor);
      if parsed.Some? then parsed.value
      else
        var digits := if cursor[0] == '-' || cursor[0] == '+' then cursor[1..] else cursor;
        if digits == [] || !AllDigits(digits) then 0
        else if cursor[0] == '-' then -MAX_INT64 - 1
        else MAX_INT64
  }

  /** Row ids as the query returns them: newest first, positive. */
  predicate IsListing(ids: seq<int>) {
    && (forall i :: 0 <= i < |ids| ==> 0 < ids[i] <= MAX_INT64)
    && forall i, j :: 0 <= i < j < |ids| ==> ids[i] > ids[j]
  }

  /** The rows behind the cursor. */
  function After(ids: seq<int>, after: int): seq<int> {
    if after <= 0 || ids == [] || ids[0] < after then ids else After(ids[1..], after)
  }

  function AtMost(ids: seq<int>, n: int): seq<int>
    requires n >= 0
  {
    if |ids| <= n then ids else ids[..n]
  }

  datatype Page = Page(items: seq<int>, next: Option<string>)

  /** The specification of one page. */
  function PageOf(ids: seq<int>, cursor: string, limit: int): Page
    requires limit > 0
  {
    var rest := After(ids, AfterId(cursor));
    Page(AtMost(rest, limit), if |rest| > limit then Some(FormatInt(rest[limit - 1])) else None)
  }

  /** One page: one row more than the page holds is fetched to see whether there is a next one. */
  method List(ids: seq<int>, cursor: string, limit: int) returns (page: Page)
    requires IsListing(ids) && limit > 0
    ensures page == PageOf(ids, cursor, limit)
  {
    var rows := AtMost(After(ids, AfterId(cursor)), limit + 1);
    var items := [];
    for i := 0 to |rows|
      invariant items == rows[..i]
    {
      items := items + [rows[i]];
    }
    var next := None;
    if |items| > limit {
      items := items[..limit];
      next := Some(FormatInt(items[|items| - 1]));
    }
    page := Page(items, next);
  }

  lemma {:induction false} AfterIsListing(ids: seq<int>, after: int)
    requires IsListing(ids)
    ensures IsListing(After(ids, after)) && |After(ids, after)| <= |ids|
  {
    if !(after <= 0 || ids == [] || ids[0] < after) {
      AfterIsListing(ids[1..], after);
    }
  }

  /** The cursor that ends a page leads to exactly the rows behind that page. */
  lemma {:induction false} AfterLast(ids: seq<int>, n: nat)
    requires IsListing(ids) && 0 < n <= |ids|
    ensures After(ids, ids[n - 1]) == ids[n..]
    decreases n
  {
    if n > 1 {
      AfterLast(ids[1..], n - 1);
      assert ids[1..][n - 1..] == ids[n..];
    }
  }

  lemma {:induction false} AfterAfter(ids: seq<int>, a: int, b: int)
    requires IsListing(ids) && 0 < b && (0 < a ==> b < a)
    ensures After(After(ids, a), b) == After(ids, b)
  {
    if ids != [] && a > 0 && ids[0] >= a {
      AfterAfter(ids[1..], a, b);
    }
  }

  /** The cursor text reads back as the id it was made from. */
  lemma CursorRoundTrip(id: int)
    requires 0 < id <= MAX_INT64
    ensures AfterId(FormatInt(id)) == id
  {
    ParseDecimal(id);
  }

  // ---------- following the cursors ----------

  lemma NextShrinks(ids: seq<int>, cursor: string, limit: int)
    requires IsListing(ids) && limit > 0
    ensures var rest := After(ids, AfterId(cursor));
      |rest| > limit ==> After(ids, AfterId(FormatInt(rest[limit - 1]))) == rest[limit..]
  {
    var after := AfterId(cursor);
    var rest := After(ids, after);
    AfterIsListing(ids, after);
    if |rest| > limit {
      var last := rest[limit - 1];
      CursorRoundTrip(last);
      AfterBelow(ids, after);
      AfterAfter(ids, after, last);
      AfterLast(rest, limit);
    }
  }

  lemma {:induction false} AfterBelow(ids: seq<int>, after: int)
    requires IsListing(ids)
    ensures after > 0 ==> forall i :: 0 <= i < |After(ids, after)| ==> After(ids, after)[i] < after
  {
    if !(after <= 0 || ids == [] || ids[0] < after) {
      AfterBelow(ids[1..], after);
    }
  }

  /** The pages a client sees that follows next_cursor until there is none. */
  function Pages(ids: seq<int>, cursor: string, limit: int): seq<seq<int>>
    requires IsListing(ids) && limit > 0
    decreases |After(ids, AfterId(cursor))|
  {
    var page := PageOf(ids, cursor, limit);
    NextShrinks(ids, cursor, limit);
    if page.next.None? then [page.items] else [page.items] + Pages(ids, page.next.value, limit)
  }

  function Concat(pages: seq<seq<int>>): seq<int> {
    if pages == [] then [] else pages[0] + Concat(pages[1..])
  }

  lemma ConcatCons(page: seq<int>, pages: seq<seq<int>>)
    ensures Concat([page] + pages) == page + Concat(pages)
  {
    assert ([page] + pages)[1..] == pages;
  }

  /** The pages behind a full page, and the full page in front of them. */
  lemma PagesStep(ids: seq<int>, cursor: string, limit: int)
    requires IsListing(ids) && limit > 0
    ensures var rest := After(ids, AfterId(cursor));
      if |rest| <= limit then Pages(ids, cursor, limit) == [rest]
      else
        var next := FormatInt(rest[limit - 1]);
        After(ids, AfterId(next)) == rest[limit..]
        && Pages(ids, cursor, limit) == [rest[..limit]] + Pages(ids, next, limit)
  {
    NextShrinks(ids, cursor, limit);
  }

  /** All full but the last. */
  predicate AreFull(pages: seq<seq<int>>, limit: int) {
    && |pages| > 0
    && (forall k :: 0 <= k < |pages| - 1 ==> |pages[k]| == limit)
    && |pages[|pages| - 1]| <= limit
  }

  /** A full page in front of pages that are all full but the last. */
  lemma FullCons(page: seq<int>, pages: seq<seq<int>>, limit: int)
    requires |page| == limit && AreFull(pages, limit)
    ensures AreFull([page] + pages, limit) && Concat([page] + pages) == page + Concat(pages)
  {
    ConcatCons(page, pages);
  }

  lemma OnePage(page: seq<int>, limit: int)
    requires |page| <= limit
    ensures AreFull([page], limit) && Concat([page]) == page
  {
    ConcatCons(page, []);
    assert [page] + [] == [page] && page + [] == page;
  }

  /** The first rows as a full page in front of the pages of the others. */
  lemma PagesJoin(rest: seq<int>, more: seq<seq<int>>, limit: nat)
    requires limit <= |rest| && Concat(more) == rest[limit..] && AreFull(more, limit)
    ensures Concat([rest[..limit]] + more) == rest && AreFull([rest[..limit]] + more, limit)
  {
    FullCons(rest[..limit], more, limit);
    Cut(rest, limit);
  }

  lemma {:induction false} PagesFrom(ids: seq<int>, cursor: string, limit: int)
    requires IsListing(ids) && limit > 0
    ensures var pages := Pages(ids, cursor, limit);
      Concat(pages) == After(ids, AfterId(cursor)) && AreFull(pages, limit)
    decreases |After(ids, AfterId(cursor))|
  {
    var rest := After(ids, AfterId(cursor));
    PagesStep(ids, cursor, limit);
    if |rest| <= limit {
      OnePage(rest, limit);
    } else {
      var next := FormatInt(rest[limit - 1]);
      PagesFrom(ids, next, limit);
      PagesJoin(rest, Pages(ids, next, limit), limit);
    }
  }

  /**
  From the first page on, the pages are all the rows in order, each exactly once, whatever
  the page size; every page but the last is full.
  */
  lemma PagesAreComplete(ids: seq<int>, limit: int)
    requires IsListing(ids) && limit > 0
    ensures Concat(Pages(ids, "", limit)) == ids && AreFull(Pages(ids, "", limit), limit)
  {
    PagesFrom(ids, "", limit);
  }

  lemma FullFit(pages: seq<seq<int>>, limit: int)
    requires AreFull(pages, limit)
    ensures forall k :: 0 <= k < |pages| ==> |pages[k]| <= limit
  {
  }

  /** The same for whatever page size a client asks for; no page is longer than the maximum. */
  lemma ClientSeesAll(ids: seq<int>, rawLimit: string)
    requires IsListing(ids)
    ensures var pages := Pages(ids, "", PageSize(rawLimit));
      Concat(pages) == ids && forall k :: 0 <= k < |pages| ==> |pages[k]| <= MAX_PAGE_SIZE
  {
    var limit := PageSize(rawLimit);
    PagesAreComplete(ids, limit);
    FullFit(Pages(ids, "", limit), limit);
  }

  // ---------- what a request selects ----------

  /** The rows behind a cursor are those with a smaller id, or all without a cursor. */
  lemma {:induction false} AfterSelects(ids: seq<int>, after: int, id: int)
    requires IsListing(ids)
    ensures id in After(ids, after) <==> id in ids && (after <= 0 || id < after)
  {
    if !(after <= 0 || ids == [] || ids[0] < after) {
      AfterSelects(ids[1..], after, id);
      assert ids == [ids[0]] + ids[1..];
    }
  }

  /** A number is taken as the page size, up to the maximum. */
  lemma PageSizeOf(n: nat)
    ensures PageSize(FormatInt(n)) ==
      if n == 0 || n > MAX_INT64 then DEFAULT_PAGE_SIZE else if n > MAX_PAGE_SIZE then MAX_PAGE_SIZE else n
  {
    var s := Decimal(n);
    ParseDecimal(n);
    assert IsDigit(s[0]) && IsDigit(s[|s| - 1]);
    TrimSpaceIs("", s, "");
    assert "" + s + "" == s;
  }

  /** Blank, negative and malformed sizes give the default. */
  lemma PageSizeDefault(raw: string)
    requires Blank(raw) || ParseInt(raw).None? || ParseInt(raw).value <= 0
    ensures PageSize(raw) == DEFAULT_PAGE_SIZE
  {
    if Blank(raw) {
      TrimSpaceIs(raw, "", "");
      assert raw + "" + "" == raw;
    }
  }

  /** A malformed or non-positive cursor gives the first page. */
  lemma BadCursorIsNone(ids: seq<int>, cursor: string, limit: int)
    requires limit > 0
    requires cursor == "" || (ParseInt(cursor).Some? && ParseInt(cursor).value <= 0)
             || !AllDigits(if cursor[0] == '-' || cursor[0] == '+' then cursor[1..] else cursor)
    ensures PageOf(ids, cursor, limit) == PageOf(ids, "", limit)
  {
  }

  /** A cursor beyond 64 bits reads as the largest id, or as none when it is negative. */
  lemma HugeCursor(sign: string, digits: string)
    requires sign == "" || sign == "+" || sign == "-"
    requires digits != [] && AllDigits(digits) && DigitsValue(digits) > MAX_INT64 + 1
    ensures AfterId(sign + digits) == if sign == "-" then -MAX_INT64 - 1 else MAX_INT64
  {
    ParseSigned(sign, digits);
    assert IsDigit(digits[0]);
    if sign == "" {
      assert sign + digits == digits;
    } else {
      assert (sign + digits)[0] == sign[0] && (sign + digits)[1..] == digits;
    }
  }
}
