/** The audit log: keyset pages cut by one extra row, the cursor that links
    them, and the capped export. */
module AuditPaging {
  import opened HubTables
  import opened Decimal

  const DEFAULT_LIMIT: int := 25
  const MAX_LIMIT: int := 100
  const MAX_EXPORT_ROWS: int := 10000
  const MAX_INT64: int := 0x7FFF_FFFF_FFFF_FFFF

  datatype Event = Event(id: nat, actor: Option<UserId>, action: string, at: int)

  datatype Filter = Filter(action: Option<string>, actor: Option<UserId>, since: Option<int>)

  /** next is the decimal id of the page's last event when more follow. */
  datatype Response = Page(items: seq<Event>, next: Option<string>) | InvalidCursor | LoadFailed

  datatype ExportResult = Exported(events: seq<Event>, truncated: bool) | ExportFailed

  // ------------------------------------------------------------- the query

  predicate Matches(e: Event, filter: Filter, before: Option<int>) {
    && (filter.action.Some? ==> e.action == filter.action.value)
    && (filter.actor.Some? ==> e.actor == filter.actor)
    && (filter.since.Some? ==> filter.since.value <= e.at)
    && (before.Some? ==> e.id < before.value)
  }

  /** The matching events, newest first; the log is kept in order of id. */
  function Newest(log: seq<Event>, filter: Filter, before: Option<int>): seq<Event> {
    if log == [] then []
    else
      var last := log[|log| - 1];
      (if Matches(last, filter, before) then [last] else []) + Newest(log[..|log| - 1], filter, before)
  }

  function Take<T>(s: seq<T>, n: int): seq<T>
    requires 0 <= n
  {
    if n < |s| then s[..n] else s
  }

  ghost predicate InOrder(log: seq<Event>) {
    && (forall i :: 0 <= i < |log| ==> 1 <= log[i].id <= MAX_INT64)
    && (forall i, j :: 0 <= i < j < |log| ==> log[i].id < log[j].id)
  }

  ghost predicate Descending(s: seq<Event>) {
    forall i, j :: 0 <= i < j < |s| ==> s[j].id < s[i].id
  }

  /** The query returns exactly the matching events, each once, newest first. */
  lemma {:induction false} NewestIsMatchingDescending(log: seq<Event>, filter: Filter, before: Option<int>)
    requires InOrder(log)
    ensures Descending(Newest(log, filter, before))
    ensures forall e :: e in Newest(log, filter, before) <==> e in log && Matches(e, filter, before)
  {
    if log != [] {
      var n := |log| - 1;
      assert log == log[..n] + [log[n]];
      NewestIsMatchingDescending(log[..n], filter, before);
      var rest := Newest(log[..n], filter, before);
      forall i | 0 <= i < |rest| ensures rest[i].id < log[n].id {
        assert rest[i] in rest;
      }
    }
  }

  /** strconv.ParseInt(text, 10, 64), then at least 1. */
  function ParseCursor(text: string): Option<int> {
    var digits := if text != "" && (text[0] == '+' || text[0] == '-') then text[1..] else text;
    if digits == "" || !AllDigits(digits) || text[0] == '-' then None
    else
      var value := Parse(digits);
      if value < 1 || MAX_INT64 < value then None else Some(value)
  }

  lemma CursorRoundTrip(id: nat)
    requires 1 <= id <= MAX_INT64
    ensures ParseCursor(Print(id)) == Some(id)
  {
    ParsePrint(id);
    assert IsDigit(Print(id)[0]);
  }

  function Clamp(value: int, low: int, high: int): int {
    if value < low then low else if high < value then high else value
  }

  function PageLimit(limit: Option<int>): (n: int)
    ensures 1 <= n <= MAX_LIMIT
  {
    Clamp(if limit.Some? then limit.value else DEFAULT_LIMIT, 1, MAX_LIMIT)
  }

  /** The first rows below the cursor, and a cursor exactly when more than those match. */
  function PageOf(log: seq<Event>, filter: Filter, before: Option<int>, limit: int): Response
    requires 1 <= limit
  {
    Cut(Newest(log, filter, before), limit)
  }

  function Cut(rows: seq<Event>, limit: int): Response
    requires 1 <= limit
  {
    if limit < |rows| then Page(rows[..limit], Some(Print(rows[limit - 1].id))) else Page(rows, None)
  }

  /** One row beyond the page is as good as all of them, through every clamp. */
  lemma ExtraRowDecides(log: seq<Event>, filter: Filter, before: Option<int>, limit: int)
    requires 1 <= limit <= MAX_LIMIT
    ensures Cut(Take(Newest(log, filter, before), Clamp(limit + 1, 1, MAX_LIMIT + 1)), limit) == PageOf(log, filter, before, limit)
  {}

  // ------------------------------------------------- the layers, as written

  class AuditLog {
    var events: seq<Event>

    constructor ()
      ensures events == []
    {
      events := [];
    }

    /** store: clamps, then queries. */
    method ListRows(filter: Filter, before: Option<int>, requested: int, maxRows: int) returns (rows: seq<Event>)
      requires 1 <= maxRows
      ensures rows == Take(Newest(events, filter, before), Clamp(requested, 1, maxRows))
    {
      var limit := requested;
      if limit < 1 {
        limit := 1;
      }
      if limit > maxRows {
        limit := maxRows;
      }
      rows := Take(Newest(events, filter, before), limit);
    }

    /** service: clamps again, leaving room for the extra row. */
    method List(filter: Filter, before: Option<int>, requested: int) returns (rows: seq<Event>)
      ensures rows == Take(Newest(events, filter, before), Clamp(requested, 1, MAX_LIMIT + 1))
    {
      var limit := requested;
      if limit < 1 {
        limit := 1;
      }
      if limit > 101 {
        limit := 101;
      }
      rows := ListRows(filter, before, limit, 101);
    }

    /** handler: asks for one row more than the page and cuts it off. */
    method ListAuditLog(filter: Filter, cursor: Option<string>, requested: Option<int>, loadFails: bool) returns (response: Response)
      ensures response.InvalidCursor? <==> cursor.Some? && ParseCursor(cursor.value).None?
      ensures response.LoadFailed? ==> loadFails
      ensures response.Page? ==>
                response == PageOf(events, filter, if cursor.Some? then ParseCursor(cursor.value) else None, PageLimit(requested))
    {
      var limit := DEFAULT_LIMIT;
      if requested.Some? {
        limit := requested.value;
      }
      if limit < 1 {
        limit := 1;
      }
      if limit > 100 {
        limit := 100;
      }
      var before: Option<int> := None;
      if cursor.Some? {
        before := ParseCursor(cursor.value);
        if before.None? {
          return InvalidCursor;
        }
      }
      if loadFails {
        return LoadFailed;
      }
      var rows := List(filter, before, limit + 1);
      response := CutPage(rows, limit);
      ExtraRowDecides(events, filter, before, limit);
    }

    method CutPage(rows: seq<Event>, limit: int) returns (response: Response)
      requires 1 <= limit
      ensures response == Cut(rows, limit)
    {
      var kept := rows;
      var next: Option<string> := None;
      if |kept| > limit {
        kept := kept[..limit];
        next := Some(Print(kept[|kept| - 1].id));
      }
      response := Page(kept, next);
    }

    /** Fails closed: without its own audit record an export returns nothing. */
    method Export(filter: Filter, record: Event, loadFails: bool, recordFails: bool) returns (result: ExportResult)
      requires forall i :: 0 <= i < |events| ==> events[i].id < record.id
      modifies this
      ensures result.ExportFailed? <==> loadFails || recordFails
      ensures events == if result.ExportFailed? then old(events) else old(events) + [record]
      ensures result.Exported? ==>
                var matching := Newest(old(events), filter, None);
                && (result.truncated <==> MAX_EXPORT_ROWS < |matching|)
                && result.events == Take(matching, MAX_EXPORT_ROWS)
    {
      if loadFails {
        return ExportFailed;
      }
      var rows := ListRows(filter, None, MAX_EXPORT_ROWS + 1, MAX_EXPORT_ROWS + 1);
      result := Exported(rows, false);
      if |rows| > MAX_EXPORT_ROWS {
        result := Exported(rows[..MAX_EXPORT_ROWS], true);
      }
      if recordFails {
        return ExportFailed;
      }
      events := events + [record];
    }
  }

  // ------------------------------------------------- following the cursors

  /** Committed events stay, and others of any id may appear among them: an id
      is drawn before its transaction commits. */
  ghost predicate Accumulates(logs: nat -> seq<Event>) {
    && (forall k: nat :: InOrder(logs(k)))
    && (forall j: nat, k: nat, e :: j <= k && e in logs(j) ==> e in logs(k))
  }

  /** Events are only appended, with ids above all earlier ones. */
  ghost predicate Grows(logs: nat -> seq<Event>) {
    && (forall k: nat :: InOrder(logs(k)))
    && (forall j: nat, k: nat :: j <= k ==> logs(j) <= logs(k))
  }

  lemma {:induction false} NewestBelow(log: seq<Event>, filter: Filter, before: Option<int>)
    requires InOrder(log)
    ensures forall i :: 0 <= i < |Newest(log, filter, before)| ==>
      Newest(log, filter, before)[i] in log && (before.Some? ==> Newest(log, filter, before)[i].id < before.value)
  {
    NewestIsMatchingDescending(log, filter, before);
    forall i | 0 <= i < |Newest(log, filter, before)|
      ensures Newest(log, filter, before)[i] in log && (before.Some? ==> Newest(log, filter, before)[i].id < before.value)
    {
      assert Newest(log, filter, before)[i] in Newest(log, filter, before);
    }
  }

  /** Below the id of a page's last event lie exactly the events after the page. */
  lemma {:induction false} RestOfPage(log: seq<Event>, filter: Filter, before: Option<int>, k: nat)
    requires InOrder(log) && k < |Newest(log, filter, before)|
    ensures Newest(log, filter, Some(Newest(log, filter, before)[k].id)) == Newest(log, filter, before)[k + 1..]
    decreases |log|, 1
  {
    var n := |log| - 1;
    var init := Newest(log[..n], filter, before);
    if Matches(log[n], filter, before) {
      assert Newest(log, filter, before) == [log[n]] + init;
      if k == 0 {
        AllBelow(log[..n], filter, before, log[n].id);
      } else {
        RestBehindLast(log, filter, before, k - 1);
      }
    } else {
      assert Newest(log, filter, before) == [] + init == init;
      RestBehindLast(log, filter, before, k);
    }
  }

  lemma {:induction false} RestBehindLast(log: seq<Event>, filter: Filter, before: Option<int>, k: nat)
    requires log != [] && InOrder(log) && k < |Newest(log[..|log| - 1], filter, before)|
    ensures var init := Newest(log[..|log| - 1], filter, before);
      Newest(log, filter, Some(init[k].id)) == init[k + 1..]
    decreases |log|, 0
  {
    var n := |log| - 1;
    NewestBelow(log[..n], filter, before);
    RestOfPage(log[..n], filter, before, k);
    var id := Newest(log[..n], filter, before)[k].id;
    assert id < log[n].id;
    assert !Matches(log[n], filter, Some(id));
    assert Newest(log, filter, Some(id)) == [] + Newest(log[..n], filter, Some(id));
  }

  lemma {:induction false} AllBelow(log: seq<Event>, filter: Filter, before: Option<int>, bound: int)
    requires forall i :: 0 <= i < |log| ==> log[i].id < bound
    requires before.Some? ==> bound <= before.value
    ensures Newest(log, filter, Some(bound)) == Newest(log, filter, before)
  {
    if log != [] {
      AllBelow(log[..|log| - 1], filter, before, bound);
    }
  }

  /** The pages a client collects, asking each time the log as it is by then. */
  ghost function Collected(logs: nat -> seq<Event>, k: nat, filter: Filter, before: Option<int>, limit: int): seq<seq<Event>>
    requires Accumulates(logs) && 1 <= limit
    decreases if before.Some? then before.value else MAX_INT64 + 1
  {
    var page := PageOf(logs(k), filter, before, limit);
    if page.next.None? then [page.items]
    else
      NewestBelow(logs(k), filter, before);
      CursorRoundTrip(page.items[limit - 1].id);
      [page.items] + Collected(logs, k + 1, filter, ParseCursor(page.next.value), limit)
  }

  function Flattened<T>(pages: seq<seq<T>>): seq<T> {
    if pages == [] then [] else pages[0] + Flattened(pages[1..])
  }

  /** Every page but the last is full. */
  ghost predicate WellCut(pages: seq<seq<Event>>, limit: int) {
    pages != [] && (forall i :: 0 <= i < |pages| - 1 ==> |pages[i]| == limit) && |pages[|pages| - 1]| <= limit
  }

  lemma FullPageFirst(page: seq<Event>, rest: seq<seq<Event>>, limit: int)
    requires |page| == limit && WellCut(rest, limit)
    ensures WellCut([page] + rest, limit) && Flattened([page] + rest) == page + Flattened(rest)
  {
    var pages := [page] + rest;
    assert pages[1..] == rest;
    forall i | 0 <= i < |pages| - 1 ensures |pages[i]| == limit {
      if 0 < i {
        assert pages[i] == rest[i - 1];
      }
    }
  }

  /** What the pages from page k on, below a cursor, may and must contain. */
  ghost predicate CollectsFrom(logs: nat -> seq<Event>, k: nat, filter: Filter, before: Option<int>, events: seq<Event>) {
    && Descending(events)
    && (forall e :: e in events ==> Matches(e, filter, before) && SeenFrom(logs, k, e))
    && (forall e :: e in logs(k) && Matches(e, filter, before) ==> e in events)
    && (forall e :: e in events && e !in logs(k) ==> OlderThanSome(logs(k), e))
  }

  ghost predicate SeenFrom(logs: nat -> seq<Event>, k: nat, e: Event) {
    exists j: nat :: k <= j && e in logs(j)
  }

  ghost predicate OlderThanSome(log: seq<Event>, e: Event) {
    exists first :: first in log && e.id < first.id
  }

  /** The cursor printed on a page is read back as the id of its last event, which splits the rows. */
  lemma CursorOfPage(log: seq<Event>, filter: Filter, before: Option<int>, limit: int)
    requires InOrder(log) && 1 <= limit < |Newest(log, filter, before)|
    ensures var rows, page := Newest(log, filter, before), PageOf(log, filter, before, limit);
      && page.items == rows[..limit] && page.next.Some? && ParseCursor(page.next.value) == Some(rows[limit - 1].id)
      && rows[limit - 1] in log && (before.Some? ==> rows[limit - 1].id < before.value)
  {
    NewestBelow(log, filter, before);
    CursorRoundTrip(Newest(log, filter, before)[limit - 1].id);
  }

  /** A matching event is on the page or below its cursor. */
  lemma OnPageOrBelow(log: seq<Event>, filter: Filter, before: Option<int>, limit: int, e: Event)
    requires InOrder(log) && 1 <= limit < |Newest(log, filter, before)|
    requires e in log && Matches(e, filter, before)
    ensures var rows := Newest(log, filter, before);
      e in rows[..limit] || Matches(e, filter, Some(rows[limit - 1].id))
  {
    var rows := Newest(log, filter, before);
    NewestIsMatchingDescending(log, filter, before);
    var i :| 0 <= i < |rows| && rows[i] == e;
    if i < limit {
      assert rows[..limit][i] == e;
    } else {
      assert rows[i].id < rows[limit - 1].id;
    }
  }

  lemma DescendingConcat(page: seq<Event>, rest: seq<Event>, last: int)
    requires Descending(page) && Descending(rest)
    requires forall e :: e in page ==> last <= e.id
    requires forall e :: e in rest ==> e.id < last
    ensures Descending(page + rest)
  {
    var all := page + rest;
    forall i, j | 0 <= i < j < |all| ensures all[j].id < all[i].id {
      if i < |page| <= j {
        assert all[i] in page && all[j] in rest;
      }
    }
  }

  lemma PageThenRest(logs: nat -> seq<Event>, k: nat, filter: Filter, before: Option<int>, limit: int, rest: seq<Event>)
    requires Accumulates(logs) && 1 <= limit < |Newest(logs(k), filter, before)|
    requires CollectsFrom(logs, k + 1, filter, Some(Newest(logs(k), filter, before)[limit - 1].id), rest)
    ensures CollectsFrom(logs, k, filter, before, Newest(logs(k), filter, before)[..limit] + rest)
  {
    var rows := Newest(logs(k), filter, before);
    var page, last := rows[..limit], rows[limit - 1];
    NewestIsMatchingDescending(logs(k), filter, before);
    assert last in rows;
    DescendingConcat(page, rest, last.id);
    forall e | e in page + rest
      ensures Matches(e, filter, before) && SeenFrom(logs, k, e) && (e !in logs(k) ==> OlderThanSome(logs(k), e))
    {
      if e in page {
        assert e in rows && e in logs(k);
      } else {
        assert Matches(e, filter, Some(last.id)) && SeenFrom(logs, k + 1, e);
      }
    }
    forall e | e in logs(k) && Matches(e, filter, before) ensures e in page + rest {
      OnPageOrBelow(logs(k), filter, before, limit, e);
      assert e in logs(k + 1);
    }
  }

  /** Following the cursors from any page on ends, misses no event that was there
      and repeats none, in descending order; every page but the last is full. */
  lemma {:induction false} CollectingMissesNothing(logs: nat -> seq<Event>, k: nat, filter: Filter, before: Option<int>, limit: int)
    requires Accumulates(logs) && 1 <= limit
    ensures var pages := Collected(logs, k, filter, before, limit);
      CollectsFrom(logs, k, filter, before, Flattened(pages)) && WellCut(pages, limit)
    decreases if before.Some? then before.value else MAX_INT64 + 1
  {
    var rows := Newest(logs(k), filter, before);
    NewestIsMatchingDescending(logs(k), filter, before);
    if limit < |rows| {
      CursorOfPage(logs(k), filter, before, limit);
      var next := Some(rows[limit - 1].id);
      var rest := Collected(logs, k + 1, filter, next, limit);
      CollectingMissesNothing(logs, k + 1, filter, next, limit);
      PageThenRest(logs, k, filter, before, limit, Flattened(rest));
      FullPageFirst(rows[..limit], rest, limit);
    } else {
      assert Collected(logs, k, filter, before, limit) == [rows];
      assert Flattened([rows]) == rows + Flattened([]) == rows;
      forall e | e in rows ensures SeenFrom(logs, k, e) && e in logs(k) {
        assert Matches(e, filter, before);
      }
    }
  }

  /** From the first page on, whatever commits meanwhile: every matching event
      present at the start is returned exactly once, no event twice, newest id
      first, and nothing that does not match or was never there. */
  lemma {:induction false} PagingMissesNothing(logs: nat -> seq<Event>, filter: Filter, requested: Option<int>)
    requires Accumulates(logs)
    ensures var pages := Collected(logs, 0, filter, None, PageLimit(requested));
      var events := Flattened(pages);
      && Descending(events) && WellCut(pages, PageLimit(requested))
      && (forall e :: e in logs(0) && Matches(e, filter, None) ==> e in events)
      && (forall e :: e in events ==> Matches(e, filter, None) && SeenFrom(logs, 0, e))
  {
    CollectingMissesNothing(logs, 0, filter, None, PageLimit(requested));
  }

  lemma GrowingAccumulates(logs: nat -> seq<Event>)
    requires Grows(logs)
    ensures Accumulates(logs)
  {
    forall j: nat, k: nat, e | j <= k && e in logs(j) ensures e in logs(k) {
      var i :| 0 <= i < |logs(j)| && logs(j)[i] == e;
      assert logs(k)[i] == e;
    }
  }

  /** Where later events have larger ids, an event older than one present at the start was present too. */
  lemma OlderWasPresent(logs: nat -> seq<Event>, e: Event)
    requires Grows(logs) && SeenFrom(logs, 0, e) && OlderThanSome(logs(0), e)
    ensures e in logs(0)
  {
    var j: nat :| e in logs(j);
    var first :| first in logs(0) && e.id < first.id;
    var i :| 0 <= i < |logs(0)| && logs(0)[i] == first;
    var m :| 0 <= m < |logs(j)| && logs(j)[m] == e;
    assert logs(0) <= logs(j) && logs(j)[i] == first;
    assert m < i && logs(0)[m] == e;
  }

  /** When ids grow in commit order, the pages are exactly the matching events of the log as it was at the start. */
  lemma PagingYieldsTheInitialLog(logs: nat -> seq<Event>, filter: Filter, requested: Option<int>)
    requires Grows(logs)
    ensures Accumulates(logs)
    ensures var pages := Collected(logs, 0, filter, None, PageLimit(requested));
      var events := Flattened(pages);
      && Descending(events) && WellCut(pages, PageLimit(requested))
      && forall e :: e in events <==> e in logs(0) && Matches(e, filter, None)
  {
    GrowingAccumulates(logs);
    CollectingMissesNothing(logs, 0, filter, None, PageLimit(requested));
    forall e | e in Flattened(Collected(logs, 0, filter, None, PageLimit(requested))) && e !in logs(0) ensures false {
      OlderWasPresent(logs, e);
    }
  }
}
