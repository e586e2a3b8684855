/** A concrete server, as an explicit assumption about the remote side: the
    chat holds the messages `h`, numbered 1 to |h| from oldest to newest, and
    a request returns, newest first, at most `limit` of the messages older
    than its cursor (a cursor of 0 or below meaning "from the newest"). The
    add-offset, the date and the id bounds are not interpreted. */
module HistoryServer {
  import opened PageOrder
  import opened Pagination
  import opened GetChatHistory

  /** Message `k` of `h` has id `k + 1`. */
  ghost predicate Numbered(h: seq<Message>)
  {
    forall k :: 0 <= k < |h| ==> h[k].id == k + 1
  }

  /** How many of the `n` messages are older than cursor `c`. */
  function Below(n: nat, c: int): nat
  {
    if c <= 0 || c > n then n else c - 1
  }

  /** The page the server returns for `req`. */
  function Answer(h: seq<Message>, req: Request): seq<Message>
  {
    var hi := Below(|h|, req.fromMessageId);
    var size := if req.limit < 0 then 0 else req.limit;
    var lo := if hi < size then 0 else hi - size;
    Reversed(h[lo..hi])
  }

  /** The remote side answering every request from the history `h`. */
  function Server(h: seq<Message>): Request -> seq<Message>
  {
    req => Answer(h, req)
  }

  /** The query `get_chat_history(chat_id)`: no limit, add-offset 0, no
      starting id and no id bounds. The date and `reverse` are left free:
      this server ignores the date, and the scenarios fix `reverse`. */
  ghost predicate Defaults(q: Query)
  {
    q.limit == 0 && q.offset == 0 && q.offsetId == 0 && q.minId == 0 && q.maxId == 0
  }

  /** The up to 100 messages below cursor `c`, newest first. */
  function DownPage(h: seq<Message>, c: int): seq<Message>
  {
    var hi := Below(|h|, c);
    var lo := if hi < MaxPage then 0 else hi - MaxPage;
    Reversed(h[lo..hi])
  }

  /** Without `reverse`, the page for a cursor is `DownPage`. */
  lemma PageDown(h: seq<Message>, q: Query)
    requires Defaults(q) && !Truthy(q.reverse)
    ensures forall c :: PageAt(Server(h), q)(c) == DownPage(h, c)
  {
  }

  /** `DownPage` holds `hi - lo` messages, the last of them the oldest. */
  lemma DownPageEnds(h: seq<Message>, c: int)
    requires Numbered(h)
    ensures var hi := Below(|h|, c);
      var lo := if hi < MaxPage then 0 else hi - MaxPage;
      && |DownPage(h, c)| == hi - lo
      && (hi > 0 ==> LastId(DownPage(h, c)) == lo + 1)
  {
    var hi := Below(|h|, c);
    var lo := if hi < MaxPage then 0 else hi - MaxPage;
    ReversedIndex(h[lo..hi]);
    if hi > 0 {
      assert DownPage(h, c)[hi - lo - 1] == h[lo..hi][0];
    }
  }

  /** One step of a traversal whose pages are `DownPage`, from a cursor with
      `hi > 0` older messages: the page, then the walk from its oldest id. */
  lemma StepDown(fetch: int -> seq<Message>, h: seq<Message>, c: int)
    requires Numbered(h) && |h| < Unlimited
    requires fetch(c) == DownPage(h, c)
    requires Below(|h|, c) > 0
    ensures var hi := Below(|h|, c);
      var lo := if hi < MaxPage then 0 else hi - MaxPage;
      var rest := Traverse(fetch, Unlimited, lo + 1, |h| - lo);
      Traverse(fetch, Unlimited, c, |h| - hi)
        == Walk([c] + rest.cursors, DownPage(h, c) + rest.emitted, rest.outcome)
  {
    DownPageEnds(h, c);
  }

  /** From a cursor with no older message, the page is empty and ends the
      traversal. */
  lemma LastDown(fetch: int -> seq<Message>, h: seq<Message>, c: int)
    requires Numbered(h) && |h| < Unlimited
    requires fetch(c) == DownPage(h, c)
    requires Below(|h|, c) == 0
    ensures Traverse(fetch, Unlimited, c, |h| - Below(|h|, c))
      == Walk([c], Reversed(h[..Below(|h|, c)]), Exhausted)
  {
    DownPageEnds(h, c);
  }

  /** Pages of 100 cover `hi` messages in `ceil(hi / 100)` requests. */
  lemma PagesCount(hi: nat)
    requires hi > 0
    ensures var lo := if hi < MaxPage then 0 else hi - MaxPage;
      (hi + 99) / 100 == 1 + (lo + 99) / 100
  {
  }

  /** The page below a cursor with `hi > 0` older messages, then the older
      `lo` messages newest first, are the `hi` older messages newest first. */
  lemma JoinDown(h: seq<Message>, c: int, rest: seq<Message>)
    requires Below(|h|, c) > 0
    requires var hi := Below(|h|, c);
      var lo := if hi < MaxPage then 0 else hi - MaxPage;
      rest == Reversed(h[..lo])
    ensures DownPage(h, c) + rest == Reversed(h[..Below(|h|, c)])
  {
    var hi := Below(|h|, c);
    var lo := if hi < MaxPage then 0 else hi - MaxPage;
    ReversedConcat(h[..lo], h[lo..hi]);
    assert h[..lo] + h[lo..hi] == h[..hi];
  }

  /** The inductive step of `WalkDown`: the first page and the older `lo`
      messages newest first are the `hi` messages newest first. */
  lemma WalkDownStep(fetch: int -> seq<Message>, h: seq<Message>, c: int, hi: nat)
    requires Numbered(h) && |h| < Unlimited
    requires fetch(c) == DownPage(h, c)
    requires hi == Below(|h|, c) && hi > 0
    requires var lo := if hi < MaxPage then 0 else hi - MaxPage;
      var rest := Traverse(fetch, Unlimited, lo + 1, |h| - lo);
      rest.emitted == Reversed(h[..lo]) && rest.outcome == Exhausted
    ensures var w := Traverse(fetch, Unlimited, c, |h| - hi);
      w.emitted == Reversed(h[..hi]) && w.outcome == Exhausted
  {
    var lo := if hi < MaxPage then 0 else hi - MaxPage;
    StepDown(fetch, h, c);
    JoinDown(h, c, Traverse(fetch, Unlimited, lo + 1, |h| - lo).emitted);
  }

  /** A traversal whose pages are `DownPage`, from a cursor with `hi` older
      messages, emits exactly those, newest first, and ends on an empty page. */
  lemma {:induction false} WalkDown(fetch: int -> seq<Message>, h: seq<Message>, c: int, hi: nat)
    requires Numbered(h) && |h| < Unlimited
    requires forall c' {:trigger DownPage(h, c')} :: fetch(c') == DownPage(h, c')
    requires c == 0 || 1 <= c <= |h|
    requires hi == Below(|h|, c)
    ensures var w := Traverse(fetch, Unlimited, c, |h| - hi);
      w.emitted == Reversed(h[..hi]) && w.outcome == Exhausted
    decreases hi
  {
    if hi == 0 {
      LastDown(fetch, h, c);
    } else {
      var lo := if hi < MaxPage then 0 else hi - MaxPage;
      WalkDown(fetch, h, lo + 1, lo);
      WalkDownStep(fetch, h, c, hi);
    }
  }

  /** The inductive step of `RequestsDown`: one more cursor than the walk
      over the `lo` messages left after the first page. */
  lemma RequestsDownStep(fetch: int -> seq<Message>, h: seq<Message>, c: int, hi: nat)
    requires Numbered(h) && |h| < Unlimited
    requires fetch(c) == DownPage(h, c)
    requires hi == Below(|h|, c) && hi > 0
    requires var lo := if hi < MaxPage then 0 else hi - MaxPage;
      |Traverse(fetch, Unlimited, lo + 1, |h| - lo).cursors| == (lo + 99) / 100 + 1
    ensures |Traverse(fetch, Unlimited, c, |h| - hi).cursors| == (hi + 99) / 100 + 1
  {
    StepDown(fetch, h, c);
    PagesCount(hi);
  }

  /** ... in `ceil(hi / 100)` requests that return messages, and one more
      that returns none. */
  lemma {:induction false} RequestsDown(fetch: int -> seq<Message>, h: seq<Message>, c: int, hi: nat)
    requires Numbered(h) && |h| < Unlimited
    requires forall c' {:trigger DownPage(h, c')} :: fetch(c') == DownPage(h, c')
    requires c == 0 || 1 <= c <= |h|
    requires hi == Below(|h|, c)
    ensures |Traverse(fetch, Unlimited, c, |h| - hi).cursors| == (hi + 99) / 100 + 1
    decreases hi
  {
    if hi == 0 {
      LastDown(fetch, h, c);
    } else {
      var lo := if hi < MaxPage then 0 else hi - MaxPage;
      RequestsDown(fetch, h, lo + 1, lo);
      RequestsDownStep(fetch, h, c, hi);
    }
  }

  /** How many messages are still older than the cursor once `i` pages of
      100 have been taken from the newest of `n`. */
  function Older(n: nat, i: nat): nat
  {
    if n < MaxPage * i then 0 else n - MaxPage * i
  }

  /** Taking `i` pages, then `j` more, is taking `i + j` pages. */
  lemma OlderAdd(n: nat, i: nat, j: nat)
    ensures Older(Older(n, i), j) == Older(n, i + j)
  {
  }

  /** The inductive step of `CursorsDown`: the cursors after the first are
      those of the walk over the `Older(hi, 1)` messages the first page left. */
  lemma CursorsDownStep(fetch: int -> seq<Message>, h: seq<Message>, c: int, hi: nat)
    requires Numbered(h) && |h| < Unlimited
    requires fetch(c) == DownPage(h, c)
    requires hi == Below(|h|, c) && hi > 0
    requires var lo := if hi < MaxPage then 0 else hi - MaxPage;
      var rest := Traverse(fetch, Unlimited, lo + 1, |h| - lo);
      && rest.cursors[0] == lo + 1
      && forall i :: 1 <= i < |rest.cursors| ==> rest.cursors[i] == Older(lo, i) + 1
    ensures var w := Traverse(fetch, Unlimited, c, |h| - hi);
      && w.cursors[0] == c
      && forall i :: 1 <= i < |w.cursors| ==> w.cursors[i] == Older(hi, i) + 1
  {
    var lo := if hi < MaxPage then 0 else hi - MaxPage;
    StepDown(fetch, h, c);
    var rest := Traverse(fetch, Unlimited, lo + 1, |h| - lo);
    ShiftCursors(Traverse(fetch, Unlimited, c, |h| - hi).cursors, c, rest.cursors, hi);
  }

  /** A traversal whose pages are `DownPage`, from a cursor with `hi` older
      messages, starts at that cursor; its `i`-th later cursor is the id just
      above the `Older(hi, i)` messages its first `i` pages left. */
  lemma {:induction false} CursorsDown(fetch: int -> seq<Message>, h: seq<Message>, c: int, hi: nat)
    requires Numbered(h) && |h| < Unlimited
    requires forall c' {:trigger DownPage(h, c')} :: fetch(c') == DownPage(h, c')
    requires c == 0 || 1 <= c <= |h|
    requires hi == Below(|h|, c)
    ensures var w := Traverse(fetch, Unlimited, c, |h| - hi);
      && w.cursors[0] == c
      && forall i :: 1 <= i < |w.cursors| ==> w.cursors[i] == Older(hi, i) + 1
    decreases hi
  {
    if hi == 0 {
      LastDown(fetch, h, c);
    } else {
      var lo := if hi < MaxPage then 0 else hi - MaxPage;
      CursorsDown(fetch, h, lo + 1, lo);
      CursorsDownStep(fetch, h, c, hi);
    }
  }

  /** The cursors `[c] + rest` of a walk with `hi` older messages, where
      `rest` are those of the walk from just above the `Older(hi, 1)` left
      after the first page. */
  lemma ShiftCursors(cs: seq<int>, c: int, rest: seq<int>, hi: nat)
    requires cs == [c] + rest
    requires |rest| >= 1 && rest[0] == Older(hi, 1) + 1
    requires forall j :: 1 <= j < |rest| ==> rest[j] == Older(Older(hi, 1), j) + 1
    ensures forall i :: 1 <= i < |cs| ==> cs[i] == Older(hi, i) + 1
  {
    forall i | 2 <= i < |cs|
      ensures cs[i] == Older(hi, i) + 1
    {
      assert cs[i] == rest[i - 1];
      OlderAdd(hi, 1, i - 1);
    }
  }

  /** The cursor that opens the `i`-th page of a traversal from the newest
      message has `Older(n, i)` messages below it, and the page is the next
      up to 100 of them, newest first. */
  lemma DownPageAt(h: seq<Message>, i: nat)
    ensures var n := |h|;
      DownPage(h, if i == 0 then 0 else Older(n, i) + 1)
        == Reversed(h[Older(n, i + 1)..Older(n, i)])
  {
    OlderAdd(|h|, i, 1);
  }

  /** The prefix of `h` up to its length is `h` itself, reversed or not. */
  lemma WholePrefix(h: seq<Message>)
    ensures Reversed(h[..|h|]) == Reversed(h)
  {
    assert h[..|h|] == h;
  }

  /** Read with the defaults, request `i` asks from the id just above the
      `Older(n, i)` oldest messages and gets the next up to 100 of them,
      newest first. */
  lemma PagesOfWholeHistory(h: seq<Message>, q: Query)
    requires Numbered(h) && |h| < Unlimited && Defaults(q) && !Truthy(q.reverse)
    ensures forall i :: 0 <= i < |History(Server(h), q).requests| ==>
      History(Server(h), q).requests[i].fromMessageId == (if i == 0 then 0 else Older(|h|, i) + 1)
    ensures forall i :: 0 <= i < |History(Server(h), q).requests| ==>
      Chunk(Server(h), History(Server(h), q).requests[i]) == Reversed(h[Older(|h|, i + 1)..Older(|h|, i)])
  {
    var fetch := PageAt(Server(h), q);
    PageDown(h, q);
    CursorsDown(fetch, h, 0, |h|);
    UnlimitedHistory(Server(h), q);
    var reqs := History(Server(h), q).requests;
    forall i | 0 <= i < |reqs|
      ensures Chunk(Server(h), reqs[i]) == Reversed(h[Older(|h|, i + 1)..Older(|h|, i)])
    {
      DownPageAt(h, i);
      assert Chunk(Server(h), reqs[i]) == fetch(reqs[i].fromMessageId);
    }
  }

  /** A history of fewer than `(1 << 31) - 1` messages, read with the
      defaults: everything is emitted once, newest first, with no gap and no
      repetition; the traversal ends on an empty page after `ceil(n / 100)`
      full or partial pages. Request `i` asks from the id just above the
      `Older(n, i)` oldest messages and gets the next up to 100 of them,
      newest first. */
  lemma WholeHistoryNewestFirst(h: seq<Message>, q: Query)
    requires Numbered(h) && |h| < Unlimited && Defaults(q) && !Truthy(q.reverse)
    ensures History(Server(h), q).emitted == Reversed(h)
    ensures History(Server(h), q).outcome == Exhausted
    ensures |History(Server(h), q).requests| == (|h| + 99) / 100 + 1
    ensures forall i :: 0 <= i < |History(Server(h), q).requests| ==>
      History(Server(h), q).requests[i].fromMessageId == (if i == 0 then 0 else Older(|h|, i) + 1)
    ensures forall i :: 0 <= i < |History(Server(h), q).requests| ==>
      Chunk(Server(h), History(Server(h), q).requests[i]) == Reversed(h[Older(|h|, i + 1)..Older(|h|, i)])
  {
    var fetch := PageAt(Server(h), q);
    PageDown(h, q);
    WalkDown(fetch, h, 0, |h|);
    RequestsDown(fetch, h, 0, |h|);
    UnlimitedHistory(Server(h), q);
    WholePrefix(h);
    PagesOfWholeHistory(h, q);
  }

  /** For 250 messages: four requests, from the newest message and then from
      ids 151, 51 and 1, returning ids 250..151, 150..51, 50..1 and nothing. */
  lemma TwoHundredFiftyMessages(h: seq<Message>, q: Query)
    requires Numbered(h) && |h| == 250 && Defaults(q) && !Truthy(q.reverse)
    ensures var reqs := History(Server(h), q).requests;
      && |reqs| == 4
      && reqs[0].fromMessageId == 0 && reqs[1].fromMessageId == 151
      && reqs[2].fromMessageId == 51 && reqs[3].fromMessageId == 1
      && Chunk(Server(h), reqs[0]) == Reversed(h[150..250])
      && Chunk(Server(h), reqs[1]) == Reversed(h[50..150])
      && Chunk(Server(h), reqs[2]) == Reversed(h[0..50])
      && Chunk(Server(h), reqs[3]) == []
  {
    WholeHistoryNewestFirst(h, q);
    var reqs := History(Server(h), q).requests;
    assert Older(250, 1) == 150 && Older(250, 2) == 50 && Older(250, 3) == 0 && Older(250, 4) == 0;
    assert Chunk(Server(h), reqs[3]) == Reversed(h[0..0]);
  }

  /** A limit of at most 100 that the history can fill is met by a single
      request: the `limit` newest messages, newest first. For 250 messages
      and a limit of 30: ids 250..221. The add-offset, the date and the id
      bounds are left free because this server ignores them. */
  lemma SmallLimitOneRequest(h: seq<Message>, q: Query)
    requires Numbered(h) && 1 <= q.limit <= MaxPage && q.limit <= |h|
    requires q.offsetId == 0 && !Truthy(q.reverse)
    ensures |History(Server(h), q).requests| == 1
    ensures History(Server(h), q).requests[0].limit == q.limit
    ensures History(Server(h), q).emitted == Reversed(h[|h| - q.limit..])
    ensures History(Server(h), q).outcome == LimitReached
  {
    var n, l := |h|, q.limit;
    var page := PageAt(Server(h), q)(0);
    assert page == Reversed(h[n - l..n]);
    ReversedIndex(h[n - l..n]);
    assert h[n - l..n] == h[n - l..];
    assert page[..l] == page;
  }

  /** The up to 100 messages below cursor `c`, oldest first. */
  function UpPage(h: seq<Message>, c: int): seq<Message>
  {
    var hi := Below(|h|, c);
    var lo := if hi < MaxPage then 0 else hi - MaxPage;
    h[lo..hi]
  }

  /** With `reverse`, the page for a cursor is `UpPage`: the server's page
      reversed back into chronological order. */
  lemma PageUp(h: seq<Message>, q: Query, c: int)
    requires Defaults(q) && Truthy(q.reverse)
    ensures PageAt(Server(h), q)(c) == UpPage(h, c)
  {
    ReversedTwice(UpPage(h, c));
  }

  /** `UpPage` below a cursor with `hi > 0` older messages ends with the
      newest of them, and the one before it is message `hi - 2`. */
  lemma UpPageEnds(h: seq<Message>, c: int)
    requires Numbered(h) && Below(|h|, c) > 0
    ensures var hi := Below(|h|, c);
      var page := UpPage(h, c);
      && |page| == PageSize(hi)
      && page[PageSize(hi) - 1] == h[hi - 1]
      && LastId(page) == hi
      && (hi >= 2 ==> page[PageSize(hi) - 2] == h[hi - 2])
  {
  }

  /** Two non-empty pages that stay below the stop count are the first two
      cursors and the start of the output of a traversal. */
  lemma TwoPages(fetch: int -> seq<Message>, stop: int, c: int)
    requires 0 < stop
    requires fetch(c) != [] && fetch(LastId(fetch(c))) != []
    requires |fetch(c)| + |fetch(LastId(fetch(c)))| < stop
    ensures var p1, p2 := fetch(c), fetch(LastId(fetch(c)));
      var w := Traverse(fetch, stop, c, 0);
      && |w.cursors| >= 2 && w.cursors[1] == LastId(p1)
      && |w.emitted| >= |p1| + |p2| && w.emitted[..|p1| + |p2|] == p1 + p2
  {
    var p1 := fetch(c);
    var p2 := fetch(LastId(p1));
    var w2 := Traverse(fetch, stop, LastId(p2), |p1| + |p2|);
    var w1 := Traverse(fetch, stop, LastId(p1), |p1|);
    assert w1 == Walk([LastId(p1)] + w2.cursors, p2 + w2.emitted, w2.outcome);
    assert (p1 + (p2 + w2.emitted))[..|p1| + |p2|] == p1 + p2;
  }

  /** An output that starts with two pages holds the `i`-th message of the
      first at position `i` and the `j`-th of the second at `|p1| + j`. */
  lemma Twice(e: seq<Message>, p1: seq<Message>, p2: seq<Message>, i: nat, j: nat)
    requires |e| >= |p1| + |p2| && e[..|p1| + |p2|] == p1 + p2
    requires i < |p1| && j < |p2|
    ensures e[i] == p1[i] && e[|p1| + j] == p2[j]
  {
    assert e[i] == (p1 + p2)[i] && e[|p1| + j] == (p1 + p2)[|p1| + j];
  }

  /** A traversal whose first two pages are `UpPage`: the second cursor is the
      id of the newest message, and message `n - 2` is emitted as the last but
      one of the first page and as the last of the second. */
  lemma WalkUp(fetch: int -> seq<Message>, h: seq<Message>)
    requires Numbered(h) && 2 <= |h| < Unlimited
    requires fetch(0) == UpPage(h, 0) && fetch(|h|) == UpPage(h, |h|)
    ensures var w := Traverse(fetch, Unlimited, 0, 0);
      var a, b := PageSize(|h|), PageSize(|h| - 1);
      && |w.cursors| >= 2 && w.cursors[1] == |h|
      && |w.emitted| >= a + b
      && w.emitted[a - 2] == h[|h| - 2]
      && w.emitted[a + b - 1] == h[|h| - 2]
  {
    var n := |h|;
    UpPageEnds(h, 0);
    UpPageEnds(h, n);
    TwoPages(fetch, Unlimited, 0);
    Twice(Traverse(fetch, Unlimited, 0, 0).emitted, fetch(0), fetch(n),
      PageSize(n) - 2, PageSize(n - 1) - 1);
  }

  /** Without a limit, the traversal runs up to `(1 << 31) - 1` messages. */
  lemma UnlimitedHistory(server: Request -> seq<Message>, q: Query)
    requires q.limit == 0
    ensures var w := Traverse(PageAt(server, q), Unlimited, q.offsetId, 0);
      History(server, q) == Trace(Asks(q, w.cursors), w.emitted, w.outcome)
  {
  }

  /** With `reverse`, the cursor is taken after the page was reversed, so it
      is the NEWEST id of the page and the next request asks again for the
      messages just below it: with two messages or more, the second request
      starts from the newest message, and the second-newest message is
      emitted twice, as the last but one of the first page and as the last
      of the second. */
  lemma ReverseModeRepeats(h: seq<Message>, q: Query)
    requires Numbered(h) && 2 <= |h| < Unlimited && Defaults(q) && Truthy(q.reverse)
    ensures var t := History(Server(h), q);
      var a, b := PageSize(|h|), PageSize(|h| - 1);
      && |t.requests| >= 2
      && t.requests[1].fromMessageId == h[|h| - 1].id
      && |t.emitted| >= a + b
      && t.emitted[a - 2] == h[|h| - 2]
      && t.emitted[a + b - 1] == h[|h| - 2]
  {
    PageUp(h, q, 0);
    PageUp(h, q, |h|);
    WalkUp(PageAt(Server(h), q), h);
    UnlimitedHistory(Server(h), q);
  }
}
