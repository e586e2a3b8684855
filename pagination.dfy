/** The pagination loop of `get_chat_history` with its surroundings taken
    away: `fetch` gives the page returned for a cursor (after any reversal),
    and `stop` is the count at which the running count reaches the total.
    A traversal sends one request per cursor it visits; it emits each page in
    order, and ends on an empty page or as soon as the count reaches `stop`,
    in the middle of a page if need be. */
module Pagination {

  /** A parsed message; only its id matters to the traversal. */
  datatype Message = Message(id: int, text: string)

  /** How a traversal ended: an empty page, or the count reaching the total. */
  datatype Outcome = Exhausted | LimitReached

  /** The cursors one traversal sent, in order, what it emitted, and how it ended. */
  datatype Walk = Walk(cursors: seq<int>, emitted: seq<Message>, outcome: Outcome)

  /** The id of the last element of a non-empty page: the next cursor. */
  function LastId(page: seq<Message>): int
    requires page != []
  {
    page[|page| - 1].id
  }

  /** The traversal from `cursor` with `count` messages already emitted: one
      request, then either the end (an empty page, or a page that reaches
      `stop` and is cut there) or the rest of the traversal from the id of the
      page's last element. */
  function Traverse(fetch: int -> seq<Message>, stop: int, cursor: int, count: nat): (w: Walk)
    requires count < stop
    ensures |w.cursors| >= 1 && w.cursors[0] == cursor
    ensures count + |w.emitted| <= stop
    decreases stop - count
  {
    var page := fetch(cursor);
    if page == [] then
      Walk([cursor], [], Exhausted)
    else if count + |page| >= stop then
      Walk([cursor], page[..stop - count], LimitReached)
    else
      var rest := Traverse(fetch, stop, LastId(page), count + |page|);
      Walk([cursor] + rest.cursors, page + rest.emitted, rest.outcome)
  }

  /** The pages returned for `cursors`, one after another. */
  function Fetched(fetch: int -> seq<Message>, cursors: seq<int>): seq<Message>
  {
    if cursors == [] then [] else fetch(cursors[0]) + Fetched(fetch, cursors[1..])
  }

  lemma FetchedCons(fetch: int -> seq<Message>, c: int, cs: seq<int>)
    ensures Fetched(fetch, [c] + cs) == fetch(c) + Fetched(fetch, cs)
  {
    assert ([c] + cs)[1..] == cs;
  }

  /** Every cursor after the first follows a non-empty page and is the id of
      that page's last element. */
  predicate CursorChain(fetch: int -> seq<Message>, cursors: seq<int>)
  {
    forall i :: 0 <= i < |cursors| - 1 ==>
      fetch(cursors[i]) != [] && cursors[i + 1] == LastId(fetch(cursors[i]))
  }

  /** The first request uses the starting cursor on its own, and each later
      one the last id of the page before it. */
  lemma {:induction false} CursorFollowsLastElement(fetch: int -> seq<Message>, stop: int, cursor: int, count: nat)
    requires count < stop
    ensures var cs := Traverse(fetch, stop, cursor, count).cursors;
      |cs| >= 1 && cs[0] == cursor && CursorChain(fetch, cs)
    decreases stop - count
  {
    var page := fetch(cursor);
    if page != [] && count + |page| < stop {
      var rest := Traverse(fetch, stop, LastId(page), count + |page|).cursors;
      CursorFollowsLastElement(fetch, stop, LastId(page), count + |page|);
      var cs := [cursor] + rest;
      forall i | 0 <= i < |cs| - 1
        ensures fetch(cs[i]) != [] && cs[i + 1] == LastId(fetch(cs[i]))
      {
        if i > 0 {
          assert cs[i] == rest[i - 1] && cs[i + 1] == rest[i];
        }
      }
    }
  }

  /** What is emitted is the fetched pages one after another, cut off at the
      total: a prefix of their concatenation, as long as the concatenation or
      as the messages still allowed, whichever is shorter. */
  lemma {:induction false} EmittedIsCutPages(fetch: int -> seq<Message>, stop: int, cursor: int, count: nat)
    requires count < stop
    ensures var w := Traverse(fetch, stop, cursor, count);
      var all := Fetched(fetch, w.cursors);
      && |w.emitted| <= |all|
      && w.emitted == all[..|w.emitted|]
      && |w.emitted| == if |all| < stop - count then |all| else stop - count
    decreases stop - count
  {
    var page := fetch(cursor);
    if page == [] || count + |page| >= stop {
      FetchedCons(fetch, cursor, []);
    } else {
      var rest := Traverse(fetch, stop, LastId(page), count + |page|);
      EmittedIsCutPages(fetch, stop, LastId(page), count + |page|);
      FetchedCons(fetch, cursor, rest.cursors);
    }
  }

  /** The count never passes the total, and the traversal ends with the
      total reached exactly when its outcome says so. */
  lemma {:induction false} StopsAtTotal(fetch: int -> seq<Message>, stop: int, cursor: int, count: nat)
    requires count < stop
    ensures var w := Traverse(fetch, stop, cursor, count);
      && count + |w.emitted| <= stop
      && (w.outcome == LimitReached <==> count + |w.emitted| == stop)
    decreases stop - count
  {
    var page := fetch(cursor);
    if page != [] && count + |page| < stop {
      StopsAtTotal(fetch, stop, LastId(page), count + |page|);
    }
  }

  /** The traversal ends on an empty page exactly when it does not end on the
      total: an empty page is always the last one fetched. */
  lemma {:induction false} EndsOnEmptyPage(fetch: int -> seq<Message>, stop: int, cursor: int, count: nat)
    requires count < stop
    ensures var w := Traverse(fetch, stop, cursor, count);
      |w.cursors| >= 1 && (w.outcome == Exhausted <==> fetch(w.cursors[|w.cursors| - 1]) == [])
    decreases stop - count
  {
    var page := fetch(cursor);
    if page != [] && count + |page| < stop {
      var rest := Traverse(fetch, stop, LastId(page), count + |page|);
      EndsOnEmptyPage(fetch, stop, LastId(page), count + |page|);
      var cs := [cursor] + rest.cursors;
      assert cs[|cs| - 1] == rest.cursors[|rest.cursors| - 1];
    }
  }

  /** The pages fetched before the last one had not yet reached the total, so
      no request is sent once it is reached. */
  lemma {:induction false} NoFetchAfterTotal(fetch: int -> seq<Message>, stop: int, cursor: int, count: nat)
    requires count < stop
    ensures var w := Traverse(fetch, stop, cursor, count);
      |w.cursors| >= 1 && count + |Fetched(fetch, w.cursors[..|w.cursors| - 1])| < stop
    decreases stop - count
  {
    var page := fetch(cursor);
    if page == [] || count + |page| >= stop {
      assert [cursor][..0] == [];
    } else {
      var rest := Traverse(fetch, stop, LastId(page), count + |page|).cursors;
      NoFetchAfterTotal(fetch, stop, LastId(page), count + |page|);
      var cs := [cursor] + rest;
      assert cs[..|cs| - 1] == [cursor] + rest[..|rest| - 1];
      FetchedCons(fetch, cursor, rest[..|rest| - 1]);
    }
  }

  lemma {:induction false} FetchedSnoc(fetch: int -> seq<Message>, cs: seq<int>, c: int)
    ensures Fetched(fetch, cs + [c]) == Fetched(fetch, cs) + fetch(c)
  {
    if cs == [] {
      FetchedCons(fetch, c, []);
      assert cs + [c] == [c];
    } else {
      FetchedSnoc(fetch, cs[1..], c);
      assert (cs + [c])[1..] == cs[1..] + [c];
    }
  }

  lemma ChainSnoc(fetch: int -> seq<Message>, cs: seq<int>, c: int)
    requires CursorChain(fetch, cs)
    requires cs != [] ==> fetch(cs[|cs| - 1]) != [] && c == LastId(fetch(cs[|cs| - 1]))
    ensures CursorChain(fetch, cs + [c])
  {
    var cs' := cs + [c];
    forall i | 0 <= i < |cs'| - 1
      ensures fetch(cs'[i]) != [] && cs'[i + 1] == LastId(fetch(cs'[i]))
    {
      assert cs'[i] == cs[i];
    }
  }

  /** A traversal described by what it must satisfy rather than by how it
      runs: it starts at `start`, follows the cursor rule, sends its last
      request before the count reaches `stop`, and ends either on an empty
      page having emitted everything fetched, or on a non-empty page that
      reaches `stop`, having emitted the fetched messages up to `stop`. */
  ghost predicate IsRun(fetch: int -> seq<Message>, stop: int, start: int, count: nat,
                        cs: seq<int>, em: seq<Message>, out: Outcome)
  {
    && count < stop
    && |cs| >= 1 && cs[0] == start && CursorChain(fetch, cs)
    && count + |Fetched(fetch, cs[..|cs| - 1])| < stop
    && (out == Exhausted ==> fetch(cs[|cs| - 1]) == [] && em == Fetched(fetch, cs))
    && (out == LimitReached ==>
          && fetch(cs[|cs| - 1]) != []
          && count + |Fetched(fetch, cs)| >= stop
          && em == Fetched(fetch, cs)[..stop - count])
  }

  /** `Traverse` satisfies the description. */
  lemma TraverseIsRun(fetch: int -> seq<Message>, stop: int, start: int, count: nat)
    requires count < stop
    ensures var w := Traverse(fetch, stop, start, count);
      IsRun(fetch, stop, start, count, w.cursors, w.emitted, w.outcome)
  {
    CursorFollowsLastElement(fetch, stop, start, count);
    NoFetchAfterTotal(fetch, stop, start, count);
    EndsOnEmptyPage(fetch, stop, start, count);
    EmittedIsCutPages(fetch, stop, start, count);
    StopsAtTotal(fetch, stop, start, count);
  }

  /** The description determines the traversal: whatever satisfies it is
      what `Traverse` computes. */
  lemma {:induction false} RunIsTraverse(fetch: int -> seq<Message>, stop: int, start: int, count: nat,
                                         cs: seq<int>, em: seq<Message>, out: Outcome)
    requires IsRun(fetch, stop, start, count, cs, em, out)
    ensures Traverse(fetch, stop, start, count) == Walk(cs, em, out)
    decreases |cs|
  {
    var page := fetch(start);
    var n := |cs|;
    if n == 1 {
      assert cs == [start];
      FetchedCons(fetch, start, []);
    } else {
      var tail := cs[1..];
      assert page != [] && cs[1] == LastId(page);
      assert cs[..n - 1] == [start] + tail[..n - 2];
      FetchedCons(fetch, start, tail[..n - 2]);
      assert cs == [start] + tail;
      FetchedCons(fetch, start, tail);
      var count' := count + |page|;
      assert tail[n - 2] == cs[n - 1];
      forall i | 0 <= i < |tail| - 1
        ensures fetch(tail[i]) != [] && tail[i + 1] == LastId(fetch(tail[i]))
      {
        assert tail[i] == cs[i + 1] && tail[i + 1] == cs[i + 2];
      }
      var em' := em[|page|..];
      assert em == page + em';
      assert IsRun(fetch, stop, cs[1], count', tail, em', out);
      RunIsTraverse(fetch, stop, cs[1], count', tail, em', out);
    }
  }

  /** The two definitions agree, in both directions. */
  lemma RunIffTraverse(fetch: int -> seq<Message>, stop: int, start: int, count: nat,
                       cs: seq<int>, em: seq<Message>, out: Outcome)
    requires count < stop
    ensures IsRun(fetch, stop, start, count, cs, em, out) <==> Traverse(fetch, stop, start, count) == Walk(cs, em, out)
  {
    if IsRun(fetch, stop, start, count, cs, em, out) {
      RunIsTraverse(fetch, stop, start, count, cs, em, out);
    }
    if Traverse(fetch, stop, start, count) == Walk(cs, em, out) {
      TraverseIsRun(fetch, stop, start, count);
    }
  }
}
