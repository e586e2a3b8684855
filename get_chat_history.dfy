/** The cursor-driven pagination of a chat's message history: one page is
    fetched at a time from the remote side, optionally reversed, and the pages
    are emitted one message after another until an empty page comes back or
    the running count reaches the total. The remote call (peer resolution, the
    GetHistory request, parsing) is an oracle `server` from a request to the
    page it returns, in the server's own order.

    The loop itself is `Pagination.Traverse`; `History` instantiates it with
    the pages `get_chunk` returns for this query and the total this query's
    limit gives. */
module GetChatHistory {
  import opened PageOrder
  import opened Pagination

  /** `Optional[bool]`: `None` and `False` are both falsy. */
  datatype Flag = Unset | Given(value: bool)

  predicate Truthy(f: Flag)
  {
    f == Given(true)
  }

  /** A chat is named by a numeric id or by a username / link / phone number. */
  datatype ChatId = ById(id: int) | ByName(name: string)

  /** A date offset, passed through to the remote side as it is. */
  datatype Date = Date(timestamp: int)

  /** The caller's arguments to `get_chat_history`. */
  datatype Query = Query(chatId: ChatId, limit: int, offset: int, offsetId: int,
                         offsetDate: Date, minId: int, maxId: int, reverse: Flag)

  /** The arguments of one `get_chunk` call. */
  datatype Request = Request(chatId: ChatId, limit: int, offset: int, fromMessageId: int,
                             fromDate: Date, minId: int, maxId: int, reverse: Flag)

  /** Everything one traversal asked for and emitted. */
  datatype Trace = Trace(requests: seq<Request>, emitted: seq<Message>, outcome: Outcome)

  /** `(1 << 31) - 1`, the total used when no limit is given. */
  const Unlimited: int := 0x7fff_ffff

  /** The largest page the remote side is asked for. */
  const MaxPage: int := 100

  /** `limit or (1 << 31) - 1`: any nonzero limit, negative ones included, is kept. */
  function Total(limit: int): (t: int)
    ensures t != 0
    ensures t == limit || (limit == 0 && t == Unlimited)
  {
    if limit != 0 then limit else Unlimited
  }

  /** `min(100, total)`, the page size of every request of one traversal. */
  function PageSize(total: int): (n: int)
    ensures n <= MaxPage && n <= total
    ensures n == MaxPage || n == total
  {
    if total < MaxPage then total else MaxPage
  }

  /** The count at which `current >= total` first holds: the count is at least
      one once a message has been emitted, so a total below one stops the
      traversal after its first message. */
  function StopCount(total: int): (n: int)
    ensures n >= 1
  {
    if total < 1 then 1 else total
  }

  /** The request sent with cursor `cursor`: everything but the cursor comes
      unchanged from the query. */
  function Ask(q: Query, cursor: int): (r: Request)
    ensures r.fromMessageId == cursor
    ensures r.limit <= MaxPage && (r.limit == MaxPage <==> Total(q.limit) >= MaxPage)
    ensures r.chatId == q.chatId && r.offset == q.offset && r.fromDate == q.offsetDate
    ensures r.minId == q.minId && r.maxId == q.maxId && r.reverse == q.reverse
  {
    Request(q.chatId, PageSize(Total(q.limit)), q.offset, cursor,
            q.offsetDate, q.minId, q.maxId, q.reverse)
  }

  /** What `get_chunk` returns: the server's page, reversed when `reverse` is truthy. */
  function Chunk(server: Request -> seq<Message>, req: Request): (page: seq<Message>)
    ensures |page| == |server(req)|
  {
    if Truthy(req.reverse) then Reversed(server(req)) else server(req)
  }

  /** The page `get_chunk` returns holds the server's messages, no more and no
      fewer, in the server's order or in the opposite one as `reverse` says. */
  lemma ChunkOrder(server: Request -> seq<Message>, req: Request)
    ensures var page := Chunk(server, req);
      && |page| == |server(req)|
      && multiset(page) == multiset(server(req))
      && forall k :: 0 <= k < |page| ==>
           page[k] == if Truthy(req.reverse) then server(req)[|page| - 1 - k] else server(req)[k]
  {
    ReversedIndex(server(req));
    ReversedMultiset(server(req));
  }

  /** `get_chunk`: one remote call, then the in-place reversal of the page. */
  method GetChunk(server: Request -> seq<Message>, req: Request) returns (page: seq<Message>)
    ensures page == Chunk(server, req)
  {
    var raw := server(req);
    if Truthy(req.reverse) {
      var a := new Message[|raw|](k requires 0 <= k < |raw| => raw[k]);
      assert a[..] == raw;
      ReverseInPlace(a);
      page := a[..];
    } else {
      page := raw;
    }
  }

  /** The ends of a page: it is empty exactly when the server's page is, and
      its last element is the server's last one, or its first when `reverse`
      is truthy. */
  lemma ChunkEnds(server: Request -> seq<Message>, req: Request)
    ensures var page, raw := Chunk(server, req), server(req);
      && (page == [] <==> raw == [])
      && (page != [] ==> page[|page| - 1] == if Truthy(req.reverse) then raw[0] else raw[|raw| - 1])
  {
    ReversedIndex(server(req));
  }

  /** The page `get_chunk` returns for each cursor of this query. */
  function PageAt(server: Request -> seq<Message>, q: Query): int -> seq<Message>
  {
    c => Chunk(server, Ask(q, c))
  }

  /** The requests sent for the cursors `cs`. */
  function Asks(q: Query, cs: seq<int>): seq<Request>
  {
    seq(|cs|, i requires 0 <= i < |cs| => Ask(q, cs[i]))
  }

  /** The whole traversal of one `get_chat_history` call. */
  function History(server: Request -> seq<Message>, q: Query): (t: Trace)
    ensures |t.requests| >= 1 && t.requests[0].fromMessageId == q.offsetId
    ensures |t.emitted| <= StopCount(Total(q.limit))
  {
    var w := Traverse(PageAt(server, q), StopCount(Total(q.limit)), q.offsetId, 0);
    Trace(Asks(q, w.cursors), w.emitted, w.outcome)
  }

  /** The pages `get_chunk` returned for `reqs`, one after another. */
  function Concat(server: Request -> seq<Message>, reqs: seq<Request>): seq<Message>
  {
    if reqs == [] then [] else Chunk(server, reqs[0]) + Concat(server, reqs[1..])
  }

  lemma {:induction false} ConcatAsks(server: Request -> seq<Message>, q: Query, cs: seq<int>)
    ensures Concat(server, Asks(q, cs)) == Fetched(PageAt(server, q), cs)
  {
    if cs != [] {
      ConcatAsks(server, q, cs[1..]);
      assert Asks(q, cs)[1..] == Asks(q, cs[1..]);
    }
  }

  /** Every request of a traversal carries the same page size, `min(100,
      total)`, never more than 100 and not shrunk for the last page, and the
      query's add-offset, date, id bounds and `reverse` flag unchanged: only
      the cursor varies. */
  lemma RequestsDifferOnlyInCursor(server: Request -> seq<Message>, q: Query)
    ensures var reqs := History(server, q).requests;
      forall i :: 0 <= i < |reqs| ==>
        && reqs[i].limit == PageSize(Total(q.limit)) <= MaxPage
        && (q.limit == 0 ==> reqs[i].limit == MaxPage)
        && (q.limit != 0 ==> reqs[i].limit == if q.limit < MaxPage then q.limit else MaxPage)
        && reqs[i].chatId == q.chatId && reqs[i].offset == q.offset && reqs[i].fromDate == q.offsetDate
        && reqs[i].minId == q.minId && reqs[i].maxId == q.maxId && reqs[i].reverse == q.reverse
  {
  }

  /** The cursor rule: the first fetch uses the caller's `offset_id` on its
      own, and each later one follows a non-empty page and uses the id of the
      last element of that page as `get_chunk` returned it, after any
      reversal. */
  lemma CursorFollowsPage(server: Request -> seq<Message>, q: Query)
    ensures var reqs := History(server, q).requests;
      && |reqs| >= 1 && reqs[0].fromMessageId == q.offsetId
      && forall i :: 0 <= i < |reqs| - 1 ==>
           Chunk(server, reqs[i]) != [] && reqs[i + 1].fromMessageId == LastId(Chunk(server, reqs[i]))
  {
    var fetch, stop := PageAt(server, q), StopCount(Total(q.limit));
    var cs := Traverse(fetch, stop, q.offsetId, 0).cursors;
    CursorFollowsLastElement(fetch, stop, q.offsetId, 0);
    var reqs := History(server, q).requests;
    forall i | 0 <= i < |reqs| - 1
      ensures Chunk(server, reqs[i]) != [] && reqs[i + 1].fromMessageId == LastId(Chunk(server, reqs[i]))
    {
      assert reqs[i] == Ask(q, cs[i]) && reqs[i + 1] == Ask(q, cs[i + 1]);
      assert fetch(cs[i]) != [] && cs[i + 1] == LastId(fetch(cs[i]));
    }
  }

  /** The cursor rule in the server's own order: without `reverse` the next
      cursor is the id of the last message the server returned, and with a
      truthy `reverse` it is the id of the FIRST one, since the page was
      reversed before its last element was taken. */
  lemma CursorInServerOrder(server: Request -> seq<Message>, q: Query)
    ensures var reqs := History(server, q).requests;
      forall i :: 0 <= i < |reqs| - 1 ==>
        var raw := server(reqs[i]);
        raw != [] && reqs[i + 1].fromMessageId == if Truthy(q.reverse) then raw[0].id else raw[|raw| - 1].id
  {
    var reqs := History(server, q).requests;
    CursorFollowsPage(server, q);
    forall i | 0 <= i < |reqs| - 1
      ensures server(reqs[i]) != []
      ensures reqs[i + 1].fromMessageId ==
              if Truthy(q.reverse) then server(reqs[i])[0].id else server(reqs[i])[|server(reqs[i])| - 1].id
    {
      assert Chunk(server, reqs[i]) != [] && reqs[i + 1].fromMessageId == LastId(Chunk(server, reqs[i]));
      assert reqs[i].reverse == q.reverse;
      ChunkEnds(server, reqs[i]);
    }
  }

  /** What is emitted is the pages `get_chunk` returned, in order, cut off at
      the total: a prefix of their concatenation that is as long as the whole
      concatenation or as the total, whichever is shorter. */
  lemma EmittedIsCutConcatenation(server: Request -> seq<Message>, q: Query)
    ensures var h := History(server, q);
      var all := Concat(server, h.requests);
      && |h.emitted| <= |all|
      && h.emitted == all[..|h.emitted|]
      && |h.emitted| == if |all| < StopCount(Total(q.limit)) then |all| else StopCount(Total(q.limit))
  {
    var fetch, stop := PageAt(server, q), StopCount(Total(q.limit));
    EmittedIsCutPages(fetch, stop, q.offsetId, 0);
    ConcatAsks(server, q, Traverse(fetch, stop, q.offsetId, 0).cursors);
  }

  /** The number emitted never passes the total: `limit` when it is positive,
      `(1 << 31) - 1` when it is 0, and one message when it is negative (the
      count reaches a negative total with the first message). The traversal
      ends on the total exactly when that many were emitted. */
  lemma EmittedWithinTotal(server: Request -> seq<Message>, q: Query)
    ensures var h := History(server, q);
      && (q.limit > 0 ==> |h.emitted| <= q.limit)
      && (q.limit == 0 ==> |h.emitted| <= Unlimited)
      && (q.limit < 0 ==> |h.emitted| <= 1)
      && (h.outcome == LimitReached <==> |h.emitted| == StopCount(Total(q.limit)))
  {
    StopsAtTotal(PageAt(server, q), StopCount(Total(q.limit)), q.offsetId, 0);
  }

  /** An empty page ends the traversal: it is the last page fetched, it ends
      the traversal exactly when the total was not reached, and then
      everything fetched was emitted. */
  lemma EmptyPageEndsTraversal(server: Request -> seq<Message>, q: Query)
    ensures var h := History(server, q);
      && |h.requests| >= 1
      && (h.outcome == Exhausted <==> server(h.requests[|h.requests| - 1]) == [])
      && (h.outcome == Exhausted ==> h.emitted == Concat(server, h.requests))
  {
    var fetch, stop := PageAt(server, q), StopCount(Total(q.limit));
    var w := Traverse(fetch, stop, q.offsetId, 0);
    EndsOnEmptyPage(fetch, stop, q.offsetId, 0);
    StopsAtTotal(fetch, stop, q.offsetId, 0);
    EmittedIsCutConcatenation(server, q);
    var reqs := History(server, q).requests;
    assert reqs[|reqs| - 1] == Ask(q, w.cursors[|w.cursors| - 1]);
    ChunkEnds(server, reqs[|reqs| - 1]);
  }

  /** No request is sent once the total is reached: the pages fetched before
      the last one together hold fewer messages than the total. */
  lemma NoFetchOnceTotalReached(server: Request -> seq<Message>, q: Query)
    ensures var reqs := History(server, q).requests;
      |reqs| >= 1 && |Concat(server, reqs[..|reqs| - 1])| < StopCount(Total(q.limit))
  {
    var fetch, stop := PageAt(server, q), StopCount(Total(q.limit));
    var cs := Traverse(fetch, stop, q.offsetId, 0).cursors;
    NoFetchAfterTotal(fetch, stop, q.offsetId, 0);
    ConcatAsks(server, q, cs[..|cs| - 1]);
    assert Asks(q, cs)[..|cs| - 1] == Asks(q, cs[..|cs| - 1]);
  }

  /** A negative limit is kept as the total (`limit or ...` only replaces 0),
      and is sent as the page size; the count reaches it with the first
      message, so a single request is sent. */
  lemma NegativeLimitSendsOneRequest(server: Request -> seq<Message>, q: Query)
    requires q.limit < 0
    ensures |History(server, q).requests| == 1
    ensures History(server, q).requests[0].limit == q.limit
  {
  }

  /** A traversal of this query described by what it must satisfy is the
      one `get_chat_history` makes. */
  lemma HistoryOfRun(server: Request -> seq<Message>, q: Query, cs: seq<int>, em: seq<Message>, out: Outcome)
    requires IsRun(PageAt(server, q), StopCount(Total(q.limit)), q.offsetId, 0, cs, em, out)
    ensures History(server, q) == Trace(Asks(q, cs), em, out)
  {
    RunIsTraverse(PageAt(server, q), StopCount(Total(q.limit)), q.offsetId, 0, cs, em, out);
  }

  /** `get_chat_history`: the generator as a method that returns everything it
      yields, in order, together with every `get_chunk` call it makes. */
  method GetChatHistoryLoop(server: Request -> seq<Message>, q: Query)
    returns (emitted: seq<Message>, requests: seq<Request>, outcome: Outcome)
    ensures Trace(requests, emitted, outcome) == History(server, q)
  {
    ghost var fetch, stop := PageAt(server, q), StopCount(Total(q.limit));
    ghost var cursors: seq<int> := [];
    var current := 0;
    var total := Total(q.limit);
    var limit := PageSize(total);
    var offsetId := q.offsetId;
    emitted, requests := [], [];
    while true
      invariant 0 <= current < stop && |emitted| == current
      invariant emitted == Fetched(fetch, cursors)
      invariant requests == Asks(q, cursors)
      invariant CursorChain(fetch, cursors + [offsetId]) && (cursors + [offsetId])[0] == q.offsetId
      decreases stop - current
    {
      var req := Request(q.chatId, limit, q.offset, offsetId, q.offsetDate, q.minId, q.maxId, q.reverse);
      var messages := GetChunk(server, req);
      assert req == Ask(q, offsetId) && messages == fetch(offsetId);
      ghost var sent, before := cursors, emitted;
      requests, cursors := requests + [req], cursors + [offsetId];
      assert requests == Asks(q, cursors);
      assert cursors[..|cursors| - 1] == sent;
      FetchedSnoc(fetch, sent, offsetId);
      if messages == [] {
        outcome := Exhausted;
        HistoryOfRun(server, q, cursors, emitted, outcome);
        return;
      }
      offsetId := LastId(messages);
      ChainSnoc(fetch, cursors, offsetId);
      for j := 0 to |messages|
        invariant current == |before| + j < stop
        invariant emitted == before + messages[..j]
      {
        emitted := emitted + [messages[j]];
        current := current + 1;
        if current >= total {
          outcome := LimitReached;
          assert emitted == (before + messages)[..stop];
          HistoryOfRun(server, q, cursors, emitted, outcome);
          return;
        }
      }
      assert messages[..|messages|] == messages;
    }
  }
}
