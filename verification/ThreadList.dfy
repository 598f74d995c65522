/**
 Listing the threads of an app server page by page.  The server may answer anything, including cursors
 that loop; its answer may depend on how many requests it has seen.
 */
module ThreadList {
  import opened Sequences
  import opened Wrappers

  datatype Thread = Thread(id: string, content: string)

  /** An item without a thread id is `None`. */
  datatype Reply = CallFailed | NoThreadArray | Page(items: seq<Option<Thread>>, next: Option<string>)

  datatype Error = Transport | MissingThreadArray | MissingThreadId

  type Cursor = Option<string>
  type Server = (nat, Cursor) -> Reply

  const PAGE_SIZE: nat := 100
  const MAX_PAGES: nat := 20
  const MAX_ITEMS: nat := PAGE_SIZE * MAX_PAGES

  predicate Lists(threads: seq<Thread>, id: string) {
    exists t :: t in threads && t.id == id
  }

  /** The first occurrence of each thread id. */
  function Firsts(items: seq<Option<Thread>>): (threads: seq<Thread>)
    ensures |threads| <= |items|
  {
    if items == [] then []
    else
      var before, item := Firsts(items[..|items| - 1]), items[|items| - 1];
      if item.Some? && !Lists(before, item.value.id) then before + [item.value] else before
  }

  lemma {:induction false} FirstsListAll(items: seq<Option<Thread>>)
    ensures forall i, j :: 0 <= i < j < |Firsts(items)| ==> Firsts(items)[i].id != Firsts(items)[j].id
    ensures forall t :: t in Firsts(items) ==> Some(t) in items
    ensures forall item :: item in items && item.Some? ==> Lists(Firsts(items), item.value.id)
  {
    if items != [] {
      var front, item := items[..|items| - 1], items[|items| - 1];
      FirstsListAll(front);
      var before, threads := Firsts(front), Firsts(items);
      assert items == front + [item];
      assert forall t :: t in before ==> t in threads;
      assert item.Some? && !Lists(before, item.value.id) ==> threads[|before|] == item.value;
    }
  }

  /** What `Firsts` means: a list without repeated ids, of listed items, in which every id occurs. */
  lemma FirstsIsDedupe(items: seq<Option<Thread>>)
    ensures forall i, j :: 0 <= i < j < |Firsts(items)| ==> Firsts(items)[i].id != Firsts(items)[j].id
    ensures forall t :: t in Firsts(items) ==> Some(t) in items
    ensures forall item :: item in items && item.Some? ==> exists t :: t in Firsts(items) && t.id == item.value.id
  {
    FirstsListAll(items);
    forall item | item in items && item.Some?
      ensures exists t :: t in Firsts(items) && t.id == item.value.id
    {
      assert Lists(Firsts(items), item.value.id);
    }
  }

  lemma {:induction false} FirstsGrows(items: seq<Option<Thread>>, k: nat)
    requires k <= |items|
    ensures Firsts(items[..k]) <= Firsts(items)
  {
    if k < |items| {
      var front := items[..|items| - 1];
      FirstsGrows(front, k);
      assert front[..k] == items[..k];
    } else {
      assert items[..k] == items;
    }
  }

  function ReplyTo(server: Server, requests: seq<Cursor>): Reply
    requires requests != []
  {
    server(|requests| - 1, requests[|requests| - 1])
  }

  function ItemsOf(r: Reply): seq<Option<Thread>> {
    if r.Page? then r.items else []
  }

  /** All items of all replies, in order. */
  function Fetched(server: Server, requests: seq<Cursor>): seq<Option<Thread>> {
    if requests == [] then []
    else Fetched(server, requests[..|requests| - 1]) + ItemsOf(ReplyTo(server, requests))
  }

  /** An item without id comes up before the limit is reached. */
  ghost predicate Malformed(items: seq<Option<Thread>>) {
    exists p :: 0 <= p < |items| && BadAt(items, p)
  }

  predicate BadAt(items: seq<Option<Thread>>, p: nat)
    requires p < |items|
  {
    items[p].None? && |Firsts(items[..p])| < MAX_ITEMS
  }

  predicate Full(items: seq<Option<Thread>>) {
    |Firsts(items)| >= MAX_ITEMS
  }

  /** The last reply names a page that was not asked for yet. */
  predicate NamesNext(server: Server, requests: seq<Cursor>, cursor: Cursor)
    requires requests != []
  {
    var r := ReplyTo(server, requests);
    r.Page? && r.next == cursor && cursor.Some? && cursor.value != "" && cursor !in requests
  }

  /** After these requests the client goes on to ask for `cursor`. */
  ghost predicate GoesOn(server: Server, earlier: seq<Cursor>, cursor: Cursor)
    requires earlier != []
  {
    && !Malformed(Fetched(server, earlier)) && !Full(Fetched(server, earlier))
    && NamesNext(server, earlier, cursor)
  }

  /** The requests a client sends: each follows from the reply to the one before. */
  ghost predicate Conversation(server: Server, requests: seq<Cursor>) {
    && requests != [] && requests[0] == None
    && forall k :: 0 < k < |requests| ==> GoesOn(server, requests[..k], requests[k])
  }

  /** The outcome of a finished conversation. */
  ghost predicate Concludes(server: Server, requests: seq<Cursor>, result: Result<seq<Thread>, Error>)
    requires requests != []
  {
    var reply, items := ReplyTo(server, requests), Fetched(server, requests);
    match result
    case Err(Transport) => reply == CallFailed
    case Err(MissingThreadArray) => reply == NoThreadArray
    case Err(MissingThreadId) => reply.Page? && Malformed(items)
    case Ok(threads) =>
      && reply.Page? && !Malformed(items)
      && threads == FirstN(Firsts(items), MAX_ITEMS)
      && (Full(items) || |requests| == MAX_PAGES || !NamesNext(server, requests, reply.next))
  }

  lemma CursorsAreDistinct(server: Server, requests: seq<Cursor>)
    requires Conversation(server, requests)
    ensures NoDup(requests)
  {
    forall i, j | 0 <= i < j < |requests|
      ensures requests[i] != requests[j]
    {
      assert GoesOn(server, requests[..j], requests[j]);
      assert requests[..j][i] == requests[i];
    }
  }

  /** At most 20 requests with distinct cursors; the threads have distinct ids, at most 2000 of them, and none is missing but for that limit. */
  lemma ResultIsDeduped(server: Server, requests: seq<Cursor>, threads: seq<Thread>)
    requires Session(server, requests, Ok(threads))
    ensures |threads| <= MAX_ITEMS
    ensures forall i, j :: 0 <= i < j < |threads| ==> threads[i].id != threads[j].id
    ensures |threads| < MAX_ITEMS ==>
            forall item :: item in Fetched(server, requests) ==> item.Some? && exists t :: t in threads && t.id == item.value.id
  {
    var items := Fetched(server, requests);
    FirstsIsDedupe(items);
    if |threads| < MAX_ITEMS {
      forall item | item in items
        ensures item.Some?
      {
        var p :| 0 <= p < |items| && items[p] == item;
        FirstsGrows(items, p);
        assert !BadAt(items, p);
      }
    }
  }

  lemma NotYetMalformed(items: seq<Option<Thread>>, item: Option<Thread>)
    requires !Malformed(items) && (item.Some? || Full(items))
    ensures !Malformed(items + [item])
  {
    var all := items + [item];
    forall p | 0 <= p < |all|
      ensures !BadAt(all, p)
    {
      assert all[..p] == items[..p];
      assert p < |items| ==> !BadAt(items, p);
      assert p == |items| ==> items[..p] == items;
    }
  }

  /** Once full, later items change neither the result nor its validity. */
  lemma {:induction false} FullStays(items: seq<Option<Thread>>, more: seq<Option<Thread>>)
    requires Full(items) && !Malformed(items)
    ensures Full(items + more) && !Malformed(items + more)
    ensures FirstN(Firsts(items + more), MAX_ITEMS) == FirstN(Firsts(items), MAX_ITEMS)
  {
    if more == [] {
      assert items + more == items;
    } else {
      var front := more[..|more| - 1];
      FullStays(items, front);
      assert items + more == (items + front) + [more[|more| - 1]];
      assert (items + more)[..|items + front|] == items + front;
      NotYetMalformed(items + front, more[|more| - 1]);
    }
  }

  lemma MalformedStays(items: seq<Option<Thread>>, more: seq<Option<Thread>>, p: nat)
    requires p < |items| && BadAt(items, p)
    ensures Malformed(items + more)
  {
    assert (items + more)[..p] == items[..p];
    assert BadAt(items + more, p);
  }

  /** One page folded into what is listed so far. */
  method AddPage(items: seq<Option<Thread>>, before: seq<Thread>, ghost earlier: seq<Option<Thread>>)
    returns (threads: seq<Thread>, outcome: PageOutcome)
    requires before == Firsts(earlier) && |before| < MAX_ITEMS && !Malformed(earlier)
    ensures outcome == BadItem <==> Malformed(earlier + items)
    ensures outcome == LimitReached <==> !Malformed(earlier + items) && Full(earlier + items)
    ensures outcome != BadItem ==> threads == FirstN(Firsts(earlier + items), MAX_ITEMS)
  {
    threads := before;
    assert earlier + items[..0] == earlier;
    for i := 0 to |items|
      invariant threads == Firsts(earlier + items[..i]) && |threads| < MAX_ITEMS
      invariant !Malformed(earlier + items[..i])
    {
      ghost var done := earlier + items[..i];
      assert earlier + items[..i + 1] == done + [items[i]];
      assert earlier + items == (done + [items[i]]) + items[i + 1..];
      assert (done + [items[i]])[..|done|] == done;
      if items[i].None? {
        assert BadAt(done + [items[i]], |done|);
        MalformedStays(done + [items[i]], items[i + 1..], |done|);
        return threads, BadItem;
      }
      NotYetMalformed(done, items[i]);
      if !Lists(threads, items[i].value.id) {
        threads := threads + [items[i].value];
        if |threads| == MAX_ITEMS {
          FullStays(done + [items[i]], items[i + 1..]);
          return threads, LimitReached;
        }
      }
    }
    assert items[..|items|] == items;
    outcome := WholePage;
  }

  datatype PageOutcome = WholePage | LimitReached | BadItem

  lemma AskNext(server: Server, requests: seq<Cursor>, cursor: Cursor)
    requires Conversation(server, requests) && GoesOn(server, requests, cursor)
    ensures Conversation(server, requests + [cursor])
  {
    var more := requests + [cursor];
    forall k | 0 < k < |more|
      ensures GoesOn(server, more[..k], more[k])
    {
      assert more[..k] == if k < |requests| then requests[..k] else requests;
    }
  }

  ghost predicate Records(seen: set<string>, asked: seq<Cursor>) {
    forall c: string :: c in seen <==> Some(c) in asked
  }

  datatype Turn = Finish(result: Result<seq<Thread>, Error>) | Continue(threads: seq<Thread>, cursor: Cursor)

  /** The body of the loop, once the reply is in. */
  method ReadReply(
    ghost server: Server, ghost requests: seq<Cursor>, reply: Reply, before: seq<Thread>, seenCursors: set<string>)
    returns (turn: Turn)
    requires requests != [] && Conversation(server, requests) && reply == ReplyTo(server, requests)
    requires before == Firsts(Fetched(server, requests[..|requests| - 1]))
    requires Records(seenCursors, requests)
    ensures turn.Finish? ==> Concludes(server, requests, turn.result)
    ensures turn.Continue? ==>
            turn.threads == Firsts(Fetched(server, requests)) && GoesOn(server, requests, turn.cursor)
  {
    if reply == CallFailed {
      return Finish(Err(Transport));
    }
    if reply == NoThreadArray {
      return Finish(Err(MissingThreadArray));
    }
    var threads, outcome := AddPage(reply.items, before, Fetched(server, requests[..|requests| - 1]));
    if outcome == BadItem {
      return Finish(Err(MissingThreadId));
    }
    if outcome == LimitReached || reply.next.None? || reply.next.value == "" || reply.next.value in seenCursors {
      return Finish(Ok(threads));
    }
    turn := Continue(threads, reply.next);
  }

  /** What a finished listing guarantees. */
  ghost predicate Session(server: Server, requests: seq<Cursor>, result: Result<seq<Thread>, Error>) {
    && requests != [] && |requests| <= MAX_PAGES
    && Conversation(server, requests)
    && Concludes(server, requests, result)
  }

  method ListThreads(server: Server) returns (result: Result<seq<Thread>, Error>, requests: seq<Cursor>)
    ensures Session(server, requests, result)
  {
    var threads: seq<Thread> := [];
    var seenCursors: set<string> := {};
    var cursor: Cursor := None;
    requests := [];
    for page := 0 to MAX_PAGES
      invariant |requests| == page
      invariant threads == Firsts(Fetched(server, requests))
      invariant page == 0 ==> cursor == None
      invariant page > 0 ==> Conversation(server, requests) && GoesOn(server, requests, cursor)
      invariant Records(seenCursors, requests + [cursor])
    {
      if page > 0 {
        AskNext(server, requests, cursor);
      }
      assert (requests + [cursor])[..page] == requests;
      requests := requests + [cursor];
      var turn := ReadReply(server, requests, server(page, cursor), threads, seenCursors);
      if turn.Finish? {
        return turn.result, requests;
      }
      threads, cursor := turn.threads, turn.cursor;
      seenCursors := seenCursors + {cursor.value};
    }
    result := Ok(threads);
  }
}
