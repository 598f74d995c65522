/**
 Cursor pagination over one thread's events, the two walks a client makes with its cursors, and the
 bounded per-thread history ring.
 */
module EventPaging {
  import opened Sequences
  import opened Wrappers
  import opened SessionEvents

  const DEFAULT_PAGE_LIMIT: nat := 50
  const MAX_PAGE_LIMIT: nat := 100
  const HISTORY_LIMIT: nat := 256

  datatype Query = Query(limit: Option<nat>, before: Option<string>, since: Option<string>)

  datatype Page = Page(
    events: seq<SessionEvent>,
    beforeCursor: Option<string>,
    afterCursor: Option<string>,
    hasMoreBefore: bool,
    hasMoreAfter: bool,
    reset: bool)

  /** The error is the message of a bad request. */
  type PageResult = Result<Page, string>

  function PageLimit(limit: Option<nat>): Option<nat> {
    var requested := if limit.Some? then limit.value else DEFAULT_PAGE_LIMIT;
    if requested == 0 then None
    else Some(if requested < MAX_PAGE_LIMIT then requested else MAX_PAGE_LIMIT)
  }

  /** Position of the last element satisfying `p`, or `|s|` when there is none. */
  function LastIndexWhere<T>(p: T -> bool, s: seq<T>): (i: nat)
    ensures i <= |s|
    ensures i < |s| ==> p(s[i]) && forall k :: i < k < |s| ==> !p(s[k])
    ensures i == |s| ==> forall k :: 0 <= k < |s| ==> !p(s[k])
  {
    if s == [] then 0
    else
      var n := |s| - 1;
      if p(s[n]) then n
      else
        var i := LastIndexWhere(p, s[..n]);
        if i < n then i else |s|
  }

  function Monus(a: nat, b: nat): nat {
    if a < b then 0 else a - b
  }

  function Min(a: nat, b: nat): nat {
    if a < b then a else b
  }

  function PageOf(events: seq<SessionEvent>, start: nat, end: nat, reset: bool): Page
    requires start <= end <= |events|
  {
    var page := events[start..end];
    Page(page,
         if page == [] then None else Some(page[0].id),
         if page == [] then None else Some(page[|page| - 1].id),
         start > 0, end < |events|, reset)
  }

  function Paginate(events: seq<SessionEvent>, query: Query): PageResult {
    if query.before.Some? && query.since.Some? then
      Err("before and since cursors cannot be combined")
    else if PageLimit(query.limit).None? then
      Err("event page limit must be positive")
    else
      var limit := PageLimit(query.limit).value;
      var n := |events|;
      if query.before.Some? then
        var i := IndexWhere(HasId(query.before.value), events);
        if i < n then Ok(PageOf(events, Monus(i, limit), i, false))
        else Ok(PageOf(events, Monus(n, limit), n, true))
      else if query.since.Some? then
        var i := LastIndexWhere(HasId(query.since.value), events);
        if i < n then Ok(PageOf(events, i, Min(i + (if limit < 2 then 2 else limit), n), false))
        else Ok(PageOf(events, Monus(n, limit), n, true))
      else Ok(PageOf(events, Monus(n, limit), n, false))
  }

  /** A page never has more events than were asked for, nor than 100, but for a since-page, which may have two;
      without a limit 50 are asked for. */
  lemma PagesAreBounded(events: seq<SessionEvent>, query: Query)
    requires Paginate(events, query).Ok?
    ensures var n, asked := |Paginate(events, query).value.events|, if query.limit.Some? then query.limit.value else 50;
            && asked > 0
            && (query.since.None? ==> n <= asked && n <= 100)
            && (query.since.Some? ==> n <= asked + 1 && n <= 100)
            && (query.since.None? && query.before.None? ==>
                  n == |events| || n == asked || (asked > 100 && n == 100))
  {
  }

  lemma CursorFound(events: seq<SessionEvent>, i: nat)
    requires UniqueIds(events) && i < |events|
    ensures IndexWhere(HasId(events[i].id), events) == i
    ensures LastIndexWhere(HasId(events[i].id), events) == i
  {
    var first, last := IndexWhere(HasId(events[i].id), events), LastIndexWhere(HasId(events[i].id), events);
    assert HasId(events[i].id)(events[i]);
    assert events[first].id == events[i].id == events[last].id;
  }

  // --------------------------------------------------------- walking backwards

  /** What the bridge answers to a page request with a `before` cursor, or with none. */
  function AskBefore(events: seq<SessionEvent>, limit: Option<nat>): Option<string> -> PageResult {
    (cursor: Option<string>) => Paginate(events, Query(limit, cursor, None))
  }

  function CursorAt(events: seq<SessionEvent>, end: nat): Option<string>
    requires end <= |events|
  {
    if end == |events| then None else Some(events[end].id)
  }

  function BeforePage(events: seq<SessionEvent>, size: nat, end: nat): Page
    requires end <= |events|
  {
    PageOf(events, Monus(end, size), end, false)
  }

  /** `ask` serves the window of at most `size` events in front of each cursor. */
  ghost predicate ServesBefore(ask: Option<string> -> PageResult, events: seq<SessionEvent>, size: nat) {
    forall end :: 0 <= end <= |events| ==> ask(CursorAt(events, end)) == Ok(BeforePage(events, size, end))
  }

  lemma AskBeforeServes(events: seq<SessionEvent>, limit: Option<nat>)
    requires UniqueIds(events) && limit != Some(0)
    ensures ServesBefore(AskBefore(events, limit), events, PageLimit(limit).value)
  {
    forall end | 0 <= end <= |events|
      ensures AskBefore(events, limit)(CursorAt(events, end)) == Ok(BeforePage(events, PageLimit(limit).value, end))
    {
      if end < |events| {
        CursorFound(events, end);
      }
    }
  }

  /** The pages a client collects by following `beforeCursor`, oldest first. */
  ghost function BeforeWalk(events: seq<SessionEvent>, size: nat, end: nat): seq<Page>
    requires size > 0 && end <= |events|
    decreases end
  {
    if end > size then BeforeWalk(events, size, end - size) + [BeforePage(events, size, end)]
    else [BeforePage(events, size, end)]
  }

  /** Each page answers the cursor of the page behind it, and the oldest has no older one. */
  ghost predicate ChainedBack(ask: Option<string> -> PageResult, pages: seq<Page>)
    decreases |pages|
  {
    var n := |pages|;
    n > 0 &&
    if n == 1 then !pages[0].hasMoreBefore
    else
      && pages[n - 1].hasMoreBefore && pages[n - 1].beforeCursor.Some?
      && ask(pages[n - 1].beforeCursor) == Ok(pages[n - 2])
      && ChainedBack(ask, pages[..n - 1])
  }

  ghost function Joined(pages: seq<Page>): seq<SessionEvent>
    decreases |pages|
  {
    var n := |pages|;
    if n == 0 then [] else Joined(pages[..n - 1]) + pages[n - 1].events
  }

  lemma JoinedAppend(pages: seq<Page>, page: Page)
    ensures Joined(pages + [page]) == Joined(pages) + page.events
  {
    assert (pages + [page])[..|pages|] == pages;
  }

  lemma BeforePageJoins(events: seq<SessionEvent>, size: nat, end: nat)
    requires size > 0 && end <= |events|
    ensures events[..Monus(end, size)] + BeforePage(events, size, end).events == events[..end]
  {
  }

  lemma JoinsOlder(events: seq<SessionEvent>, size: nat, end: nat, older: seq<Page>)
    requires size > 0 && end <= |events| && Joined(older) == events[..Monus(end, size)]
    ensures Joined(older + [BeforePage(events, size, end)]) == events[..end]
  {
    BeforePageJoins(events, size, end);
    JoinedAppend(older, BeforePage(events, size, end));
  }

  lemma {:induction false} BeforeWalkJoins(events: seq<SessionEvent>, size: nat, end: nat)
    requires size > 0 && end <= |events|
    ensures Joined(BeforeWalk(events, size, end)) == events[..end]
    decreases end
  {
    if end > size {
      BeforeWalkJoins(events, size, end - size);
      JoinsOlder(events, size, end, BeforeWalk(events, size, end - size));
    } else {
      JoinsOlder(events, size, end, []);
      assert [] + [BeforePage(events, size, end)] == [BeforePage(events, size, end)];
    }
  }

  lemma {:induction false} BeforeWalkFull(events: seq<SessionEvent>, size: nat, end: nat)
    requires size > 0 && end <= |events|
    ensures var pages := BeforeWalk(events, size, end);
      pages[|pages| - 1] == BeforePage(events, size, end) && forall i :: 0 < i < |pages| ==> |pages[i].events| == size
    decreases end
  {
    if end > size {
      BeforeWalkFull(events, size, end - size);
    }
  }

  lemma ChainedBackAppend(ask: Option<string> -> PageResult, pages: seq<Page>, page: Page)
    requires pages != [] && ChainedBack(ask, pages)
    requires page.hasMoreBefore && page.beforeCursor.Some? && ask(page.beforeCursor) == Ok(pages[|pages| - 1])
    ensures ChainedBack(ask, pages + [page])
  {
    assert (pages + [page])[..|pages|] == pages;
  }

  lemma BeforeCursor(events: seq<SessionEvent>, size: nat, end: nat)
    requires 0 < size < end <= |events|
    ensures BeforePage(events, size, end).hasMoreBefore
    ensures BeforePage(events, size, end).beforeCursor == CursorAt(events, end - size)
  {
  }

  lemma BeforeWalkExtends(ask: Option<string> -> PageResult, events: seq<SessionEvent>, size: nat, end: nat)
    requires 0 < size < end <= |events| && ServesBefore(ask, events, size)
    requires ChainedBack(ask, BeforeWalk(events, size, end - size))
    ensures ChainedBack(ask, BeforeWalk(events, size, end - size) + [BeforePage(events, size, end)])
  {
    var older := BeforeWalk(events, size, end - size);
    BeforeWalkFull(events, size, end - size);
    BeforeCursor(events, size, end);
    assert ask(CursorAt(events, end - size)) == Ok(older[|older| - 1]);
    ChainedBackAppend(ask, older, BeforePage(events, size, end));
  }

  lemma {:induction false} BeforeWalkChained(ask: Option<string> -> PageResult, events: seq<SessionEvent>, size: nat, end: nat)
    requires size > 0 && end <= |events| && ServesBefore(ask, events, size)
    ensures ChainedBack(ask, BeforeWalk(events, size, end))
    decreases end
  {
    if end > size {
      BeforeWalkChained(ask, events, size, end - size);
      BeforeWalkExtends(ask, events, size, end);
    }
  }

  /** Walking back from any cursor, or from the newest page, terminates and cuts what lies in front of it
      into full pages, each event exactly once. */
  lemma {:induction false} BeforeWalkPartitions(events: seq<SessionEvent>, limit: Option<nat>, end: nat)
    requires UniqueIds(events) && limit != Some(0) && end <= |events|
    ensures var pages := BeforeWalk(events, PageLimit(limit).value, end);
      && ChainedBack(AskBefore(events, limit), pages)
      && Paginate(events, Query(limit, CursorAt(events, end), None)) == Ok(pages[|pages| - 1])
      && Joined(pages) == events[..end]
      && (forall i :: 0 < i < |pages| ==> |pages[i].events| == PageLimit(limit).value)
  {
    var size := PageLimit(limit).value;
    AskBeforeServes(events, limit);
    BeforeWalkChained(AskBefore(events, limit), events, size, end);
    BeforeWalkFull(events, size, end);
    BeforeWalkJoins(events, size, end);
    assert AskBefore(events, limit)(CursorAt(events, end)) == Ok(BeforePage(events, size, end));
  }

  // ---------------------------------------------------------- walking forwards

  function AskSince(events: seq<SessionEvent>, limit: Option<nat>): string -> PageResult {
    (cursor: string) => Paginate(events, Query(limit, None, Some(cursor)))
  }

  /** At least two events, so that a walk always moves on. */
  function SinceSize(limit: Option<nat>): nat
    requires limit != Some(0)
  {
    if PageLimit(limit).value < 2 then 2 else PageLimit(limit).value
  }

  function SincePage(events: seq<SessionEvent>, size: nat, at: nat): Page
    requires at < |events|
  {
    PageOf(events, at, Min(at + size, |events|), false)
  }

  ghost predicate ServesSince(ask: string -> PageResult, events: seq<SessionEvent>, size: nat) {
    forall at :: 0 <= at < |events| ==> ask(events[at].id) == Ok(SincePage(events, size, at))
  }

  lemma AskSinceAt(events: seq<SessionEvent>, limit: Option<nat>, at: nat)
    requires UniqueIds(events) && limit != Some(0) && at < |events|
    ensures AskSince(events, limit)(events[at].id) == Ok(SincePage(events, SinceSize(limit), at))
  {
    CursorFound(events, at);
    var last := LastIndexWhere(HasId(events[at].id), events);
    assert last == at;
  }

  lemma {:induction false} AskSinceServes(events: seq<SessionEvent>, limit: Option<nat>)
    requires UniqueIds(events) && limit != Some(0)
    ensures ServesSince(AskSince(events, limit), events, SinceSize(limit))
  {
    forall at | 0 <= at < |events|
      ensures AskSince(events, limit)(events[at].id) == Ok(SincePage(events, SinceSize(limit), at))
    {
      AskSinceAt(events, limit, at);
    }
  }

  /** The pages a client collects by following `afterCursor` from the event at `at`. */
  ghost function SinceWalk(events: seq<SessionEvent>, size: nat, at: nat): seq<Page>
    requires size >= 2 && at < |events|
    decreases |events| - at
  {
    if at + size < |events| then [SincePage(events, size, at)] + SinceWalk(events, size, at + size - 1)
    else [SincePage(events, size, at)]
  }

  /** Each page answers the cursor of the page in front of it, starts at that cursor, and goes on past it. */
  ghost predicate Chained(ask: string -> PageResult, pages: seq<Page>) {
    |pages| > 0 &&
    if |pages| == 1 then !pages[0].hasMoreAfter
    else
      && pages[0].hasMoreAfter && pages[0].afterCursor.Some?
      && ask(pages[0].afterCursor.value) == Ok(pages[1])
      && |pages[1].events| >= 2 && pages[1].events[0].id == pages[0].afterCursor.value
      && Chained(ask, pages[1..])
  }

  /** Consecutive pages repeat one event; drop the repeats. */
  ghost function Stitch(pages: seq<Page>): seq<SessionEvent> {
    if pages == [] then []
    else if |pages| == 1 || pages[0].events == [] then pages[0].events + Stitch(pages[1..])
    else pages[0].events[..|pages[0].events| - 1] + Stitch(pages[1..])
  }

  lemma StitchCons(first: Page, rest: seq<Page>)
    requires first.events != [] && rest != []
    ensures Stitch([first] + rest) == first.events[..|first.events| - 1] + Stitch(rest)
  {
    assert ([first] + rest)[1..] == rest;
  }

  lemma SincePageStitches(events: seq<SessionEvent>, size: nat, at: nat)
    requires size >= 2 && at + size < |events|
    ensures var page := SincePage(events, size, at);
            |page.events| == size && page.events[..size - 1] + events[at + size - 1..] == events[at..]
  {
  }

  lemma StitchOne(page: Page)
    ensures Stitch([page]) == page.events
  {
    assert [page][1..] == [] && page.events + [] == page.events;
  }

  lemma {:induction false} SinceWalkStitches(events: seq<SessionEvent>, size: nat, at: nat)
    requires size >= 2 && at < |events|
    ensures Stitch(SinceWalk(events, size, at)) == events[at..]
    decreases |events| - at
  {
    var page := SincePage(events, size, at);
    if at + size < |events| {
      var next := at + size - 1;
      SinceWalkStitches(events, size, next);
      SincePageStitches(events, size, at);
      StitchCons(page, SinceWalk(events, size, next));
    } else {
      StitchOne(page);
    }
  }

  lemma ChainedCons(ask: string -> PageResult, first: Page, rest: seq<Page>)
    requires Chained(ask, rest) && first.hasMoreAfter && first.afterCursor.Some?
    requires ask(first.afterCursor.value) == Ok(rest[0])
    requires |rest[0].events| >= 2 && rest[0].events[0].id == first.afterCursor.value
    ensures Chained(ask, [first] + rest)
  {
    assert ([first] + rest)[1..] == rest;
  }

  lemma SincePageEnds(events: seq<SessionEvent>, size: nat, at: nat)
    requires size >= 2 && at + size < |events|
    ensures var page, next := SincePage(events, size, at), at + size - 1;
            && page.hasMoreAfter && page.afterCursor == Some(events[next].id)
            && |SincePage(events, size, next).events| >= 2 && SincePage(events, size, next).events[0] == events[next]
  {
  }

  lemma {:induction false} SinceWalkChained(ask: string -> PageResult, events: seq<SessionEvent>, size: nat, at: nat)
    requires size >= 2 && at < |events| && ServesSince(ask, events, size)
    ensures Chained(ask, SinceWalk(events, size, at)) && SinceWalk(events, size, at)[0] == SincePage(events, size, at)
    decreases |events| - at
  {
    if at + size < |events| {
      var next := at + size - 1;
      var first, rest := SincePage(events, size, at), SinceWalk(events, size, next);
      SinceWalkChained(ask, events, size, next);
      SincePageEnds(events, size, at);
      assert ask(events[next].id) == Ok(rest[0]);
      ChainedCons(ask, first, rest);
    }
  }

  /** Following `afterCursor` from any event terminates, even at limit 1, and covers the whole suffix. */
  lemma SinceWalkCovers(events: seq<SessionEvent>, limit: Option<nat>, at: nat)
    requires UniqueIds(events) && limit != Some(0) && at < |events|
    ensures var pages := SinceWalk(events, SinceSize(limit), at);
      && Chained(AskSince(events, limit), pages)
      && Paginate(events, Query(limit, None, Some(events[at].id))) == Ok(pages[0])
      && Stitch(pages) == events[at..]
  {
    AskSinceServes(events, limit);
    SinceWalkChained(AskSince(events, limit), events, SinceSize(limit), at);
    SinceWalkStitches(events, SinceSize(limit), at);
    assert AskSince(events, limit)(events[at].id) == Ok(SincePage(events, SinceSize(limit), at));
  }

  ghost predicate UnknownCursor(events: seq<SessionEvent>, cursor: Option<string>) {
    cursor.Some? && forall e :: e in events ==> e.id != cursor.value
  }

  lemma CursorUnknown(events: seq<SessionEvent>, cursor: string)
    ensures UnknownCursor(events, Some(cursor)) <==> IndexWhere(HasId(cursor), events) == |events|
    ensures UnknownCursor(events, Some(cursor)) <==> LastIndexWhere(HasId(cursor), events) == |events|
  {
    if !UnknownCursor(events, Some(cursor)) {
      var i :| 0 <= i < |events| && events[i].id == cursor;
      assert HasId(cursor)(events[i]);
    }
    if IndexWhere(HasId(cursor), events) < |events| {
      assert events[IndexWhere(HasId(cursor), events)] in events;
    }
    if LastIndexWhere(HasId(cursor), events) < |events| {
      assert events[LastIndexWhere(HasId(cursor), events)] in events;
    }
  }

  /** A cursor that is not in the list resets the client to the newest page; bad queries are refused. */
  lemma UnknownCursorResets(events: seq<SessionEvent>, query: Query)
    ensures Paginate(events, query).Err? <==>
              (query.before.Some? && query.since.Some?) || query.limit == Some(0)
    ensures Paginate(events, query).Ok? ==>
              var page := Paginate(events, query).value;
              && (page.reset <==> UnknownCursor(events, query.before) || UnknownCursor(events, query.since))
              && (page.reset ==> Paginate(events, Query(query.limit, None, None)) == Ok(page.(reset := false)))
  {
    if query.before.Some? {
      CursorUnknown(events, query.before.value);
    }
    if query.since.Some? {
      CursorUnknown(events, query.since.value);
    }
  }

  // ------------------------------------------------------------- history ring

  class EventHistory {
    var events: seq<SessionEvent>

    constructor ()
      ensures events == []
    {
      events := [];
    }

    method Record(event: SessionEvent)
      requires |events| <= HISTORY_LIMIT
      modifies this
      ensures events == LastN(old(events) + [event], HISTORY_LIMIT)
    {
      if |events| == HISTORY_LIMIT {
        events := events[1..];
      }
      events := events + [event];
    }

    method Replace(snapshot: seq<SessionEvent>)
      modifies this
      ensures events == LastN(snapshot, HISTORY_LIMIT)
    {
      var start := Monus(|snapshot|, HISTORY_LIMIT);
      events := snapshot[start..];
    }
  }

  function RecordAll(history: seq<SessionEvent>, recorded: seq<SessionEvent>): seq<SessionEvent>
    decreases |recorded|
  {
    if recorded == [] then history
    else RecordAll(LastN(history + [recorded[0]], HISTORY_LIMIT), recorded[1..])
  }

  /** After any run of recordings the ring holds the newest 256 of everything since the last replacement. */
  lemma {:induction false} HistoryIsSuffix(snapshot: seq<SessionEvent>, recorded: seq<SessionEvent>)
    ensures RecordAll(LastN(snapshot, HISTORY_LIMIT), recorded) == LastN(snapshot + recorded, HISTORY_LIMIT)
    decreases |recorded|
  {
    if recorded == [] {
      assert snapshot + recorded == snapshot;
    } else {
      var next := snapshot + [recorded[0]];
      assert LastN(LastN(snapshot, HISTORY_LIMIT) + [recorded[0]], HISTORY_LIMIT) == LastN(next, HISTORY_LIMIT);
      HistoryIsSuffix(next, recorded[1..]);
      assert next + recorded[1..] == snapshot + recorded;
    }
  }
}
