# Chat history pagination, modelled in Dafny

This project models how pyrogram's `get_chat_history` pages through the message
history of a chat. The client asks the remote side for one page at a time
(`get_chunk`), at most 100 messages. When `reverse` is truthy, it reverses
each page in place. It then yields the page's messages one by one. The next
page is asked for with the id of the last message of the current page as its
cursor (`offset_id`). The traversal ends on an empty page. It also ends as soon
as the running count reaches the total: the caller's `limit`, or
`(1 << 31) - 1` when the limit is 0.

The modules:

- `PageOrder` (`page_order.dfy`) is the page-local reversal. `Reversed` is the
  function on sequences. `ReverseInPlace` is the in-place `list.reverse()` on
  an array, proved against `Reversed`. The facts the traversal needs are
  proved beside them: indexwise reading, involution, behaviour on a
  concatenation, and that the multiset is preserved.
- `Pagination` (`pagination.dfy`) is the loop over an abstract page function.
  `Traverse` takes a `fetch` from a cursor to the page returned after any
  reversal, and a `stop` count. It returns the cursors it fetched with, the
  messages it emitted, and why it stopped. Its properties are proved once, for
  every `fetch`. `IsRun` describes a traversal by what it must satisfy, and
  `RunIffTraverse` shows the two descriptions agree.
- `GetChatHistory` (`get_chat_history.dfy`) is the loop of one call:
  - `Total` is `limit or (1 << 31) - 1`.
  - `PageSize` is `min(100, total)`.
  - `Ask` builds the request for a cursor.
  - `Chunk` is what `get_chunk` returns, and `GetChunk` is the method that
    computes it.
  - `History` is the whole traversal as a function.
  - `GetChatHistoryLoop` is the generator. It is written as the source's
    `while True` / `for` loop with its early returns. It returns everything
    it yielded, every request it sent and how it ended, and is proved equal
    to `History`.
- `HistoryServer` (`history_server.dfy`) is one concrete remote side, used
  only to state scenarios, and is an explicit assumption. The chat holds
  messages numbered 1 to n. A request returns, newest first, at most `limit`
  messages older than its cursor. It proves three things:
  - an unlimited traversal emits the whole history newest first. Request
    `i` starts just above the `max(0, n - 100 * i)` oldest messages and
    returns the next up to 100 of them;
  - a small limit is met with one request;
  - in reverse mode with the defaults, a message is emitted twice.

The remote call `client.invoke(GetHistory(...))` is an oracle
`server: Request -> seq<Message>`. That includes the peer resolution and the
parsing of the result. It is a deterministic function of the request. The
model needs no bound on the number of pages: every non-empty page raises the
count, and the count stops at `max(total, 1)`. `Traverse` therefore terminates
for every server.

Three points of the code's behaviour are easy to misread. The model follows the code on each:

- **Cursor in reverse mode.** The cursor is the last element of the page
  *after* reversal. So with a truthy `reverse` it is the id of the message the
  server returned first: the NEWEST of the page when the server answers newest
  first. It is not the oldest one.
  - `CursorInServerOrder` states this rule for any server and any add-offset.
  - With the default add-offset of 0, the next request then asks again for
    the messages just below that id, so pages overlap.
    `HistoryServer.ReverseModeRepeats` shows it on the concrete server. The
    second request starts from the newest message. The second-newest message
    is emitted twice.
  - So, with the default add-offset, the cursors in reverse mode do not match
    those of the non-reversed traversal. The output is not the history from
    older to most recent, which is what the docstring at
    get_chat_history.py:103-104 describes.
  - The docstring accepts negative add-offsets (get_chat_history.py:87-89),
    and the loop sends the caller's value with every request (line 124).
    What the remote side returns for a non-zero add-offset is its own
    business. The model sends that offset unchanged, but says nothing about
    which messages then come back, so the overlap is shown only for an
    add-offset of 0.
- **Negative limits.** `limit or ...` replaces only 0. A negative limit is
  therefore kept as the total and sent as the page size. The count reaches it
  with the first message (`NegativeLimitSendsOneRequest`,
  `EmittedWithinTotal`).
- **The add-offset.** It is sent unchanged with every request, not only with
  the first (`RequestsDifferOnlyInCursor`).

## Model

| member | source | states |
|---|---|---|
| PageOrder.Reversed | pyrogram/methods/messages/get_chat_history.py:53 | the reversed page has as many messages as the page |
| PageOrder.ReverseInPlace | pyrogram/methods/messages/get_chat_history.py:52-53 | reversing the page held in an array in place leaves it equal to `Reversed` of its old contents |
| PageOrder.ReversedIndex | pyrogram/methods/messages/get_chat_history.py:53 | the reversed page has the same length; its element `k` is the original element `n - 1 - k` |
| PageOrder.ReversedTwice | pyrogram/methods/messages/get_chat_history.py:53 | reversing a page twice gives back the page |
| PageOrder.ReversedConcat | pyrogram/methods/messages/get_chat_history.py:53 | the reversal of `a + b` is the reversal of `b` followed by that of `a` |
| PageOrder.ReversedMultiset | pyrogram/methods/messages/get_chat_history.py:53 | reversal keeps exactly the same messages, with their multiplicities |
| Pagination.Traverse | pyrogram/methods/messages/get_chat_history.py:119-143 | the loop over any page function: its first cursor is the starting one, and the count plus the messages emitted never pass `stop` |
| Pagination.CursorFollowsLastElement | pyrogram/methods/messages/get_chat_history.py:135 | the first cursor is the starting one; each later cursor follows a non-empty page and is the id of that page's last element |
| Pagination.EmittedIsCutPages | pyrogram/methods/messages/get_chat_history.py:137-143 | the output is a prefix of the fetched pages concatenated; its length is the smaller of their total length and what the count still allows |
| Pagination.StopsAtTotal | pyrogram/methods/messages/get_chat_history.py:140-143 | the count never passes `stop`; the traversal ends on the limit exactly when the count reaches `stop` |
| Pagination.EndsOnEmptyPage | pyrogram/methods/messages/get_chat_history.py:132-133 | the traversal ends exhausted exactly when the last page fetched is empty |
| Pagination.NoFetchAfterTotal | pyrogram/methods/messages/get_chat_history.py:119-143 | the pages before the last one fetched hold fewer messages than the count allows, so no fetch follows the count's end |
| Pagination.TraverseIsRun | pyrogram/methods/messages/get_chat_history.py:115-143 | the traversal satisfies `IsRun`: chained cursors, all fetched pages emitted on an empty page, or the fetched pages cut at `stop` |
| Pagination.RunIsTraverse | pyrogram/methods/messages/get_chat_history.py:115-143 | any cursors, output and outcome satisfying `IsRun` are exactly the traversal's |
| Pagination.RunIffTraverse | pyrogram/methods/messages/get_chat_history.py:115-143 | `IsRun` holds of a candidate if and only if it is the traversal |
| GetChatHistory.Total | pyrogram/methods/messages/get_chat_history.py:116 | the total is never 0: it is the caller's limit, or `(1 << 31) - 1` exactly when the limit is 0 |
| GetChatHistory.PageSize | pyrogram/methods/messages/get_chat_history.py:117 | the page size is the smaller of 100 and the total |
| GetChatHistory.StopCount | pyrogram/methods/messages/get_chat_history.py:140-143 | the count at which `current >= total` first holds is at least one |
| GetChatHistory.Ask | pyrogram/methods/messages/get_chat_history.py:120-130 | a request carries the given cursor and a page size of at most 100, which is exactly 100 when the total is 100 or more; chat, add-offset, date, id bounds and `reverse` come from the caller |
| GetChatHistory.Chunk | pyrogram/methods/messages/get_chat_history.py:52-55 | the page returned holds as many messages as the server's answer |
| GetChatHistory.ChunkOrder | pyrogram/methods/messages/get_chat_history.py:52-53 | `get_chunk` returns the server's messages, no more and no fewer, in the server's order, or reversed when `reverse` is truthy (`None` and `False` are falsy) |
| GetChatHistory.GetChunk | pyrogram/methods/messages/get_chat_history.py:39-55 | one remote call, then the in-place reversal when `reverse` is truthy, yields `Chunk` |
| GetChatHistory.ChunkEnds | pyrogram/methods/messages/get_chat_history.py:52-53 | the returned page is empty exactly when the server's is; its last element is the server's last, or the server's first when `reverse` is truthy |
| GetChatHistory.RequestsDifferOnlyInCursor | pyrogram/methods/messages/get_chat_history.py:116-130 | every request has page size `min(100, total)`: 100 for limit 0, `min(100, limit)` otherwise, never above 100 and not shrunk for the last page; chat, add-offset, date, id bounds and `reverse` are the caller's, unchanged |
| GetChatHistory.CursorFollowsPage | pyrogram/methods/messages/get_chat_history.py:125-135 | the first request uses the caller's `offset_id`; each later one follows a non-empty page and uses the id of that page's last element after reversal |
| GetChatHistory.CursorInServerOrder | pyrogram/methods/messages/get_chat_history.py:135 | the next cursor is the id of the server's last message, or of its first one when `reverse` is truthy |
| GetChatHistory.EmittedIsCutConcatenation | pyrogram/methods/messages/get_chat_history.py:137-143 | the output is a prefix of the pages returned, concatenated, and as long as the whole concatenation or as the stop count, whichever is shorter |
| GetChatHistory.EmittedWithinTotal | pyrogram/methods/messages/get_chat_history.py:116 | at most `limit` messages for a positive limit, `(1 << 31) - 1` for limit 0, one for a negative limit; the traversal ends on the limit exactly when the stop count was emitted |
| GetChatHistory.EmptyPageEndsTraversal | pyrogram/methods/messages/get_chat_history.py:132-133 | the traversal is exhausted exactly when the server's answer to the last request is empty, and then every page returned was emitted in full |
| GetChatHistory.NoFetchOnceTotalReached | pyrogram/methods/messages/get_chat_history.py:140-143 | the pages before the last request hold fewer messages than the stop count, so no request follows the count's end |
| GetChatHistory.NegativeLimitSendsOneRequest | pyrogram/methods/messages/get_chat_history.py:116-117 | a negative limit is sent as the page size and only one request is made |
| GetChatHistory.History | pyrogram/methods/messages/get_chat_history.py:115-143 | a call sends at least one request, the first with the caller's `offset_id`, and emits at most the stop count |
| GetChatHistory.GetChatHistoryLoop | pyrogram/methods/messages/get_chat_history.py:115-143 | the generator's yields, requests and way of ending are exactly `History` of the query |
| HistoryServer.WholeHistoryNewestFirst | pyrogram/methods/messages/get_chat_history.py:115-143 | with the concrete server and the defaults, the whole history is emitted newest first, with no gap or repetition, in `ceil(n / 100)` pages plus a final empty one; request `i` uses cursor 0 for `i = 0`, else the id just above the `Older(n, i) = max(0, n - 100 * i)` oldest messages, and its page is messages `Older(n, i + 1) + 1` to `Older(n, i)`, newest first |
| HistoryServer.PagesOfWholeHistory | pyrogram/methods/messages/get_chat_history.py:125-135 | with the concrete server and the defaults, the cursor of each request and the page it gets, as in `WholeHistoryNewestFirst` |
| HistoryServer.TwoHundredFiftyMessages | pyrogram/methods/messages/get_chat_history.py:115-143 | for 250 messages: four requests, with cursors 0, 151, 51 and 1, returning ids 250..151, 150..51, 50..1 and nothing |
| HistoryServer.SmallLimitOneRequest | pyrogram/methods/messages/get_chat_history.py:116-117 | a limit of at most 100 that the history can fill is met by one request of that size, emitting the newest `limit` messages newest first (for 250 messages and limit 30: 250..221) |
| HistoryServer.ReverseModeRepeats | pyrogram/methods/messages/get_chat_history.py:135 | in reverse mode with the defaults (add-offset 0 included), with two messages or more, the second request starts from the newest message and the second-newest message is emitted twice |

## Left out

- The remote call: `client.invoke`, peer resolution by `resolve_peer`, and
  the `sleep_threshold=60` retry hint (get_chat_history.py:39-51). They are
  the function parameter `server`. It is total and deterministic. Errors
  raised by the network or by peer resolution, and their propagation to the
  consumer, are not modelled.
- `utils.parse_messages`. It is assumed to keep the page's messages and their
  order. A message is reduced to its `id` and its text.
- `utils.datetime_to_timestamp` and the default `utils.zero_datetime()`. The
  date is an opaque `Date` passed through to the server.
- What the remote side does with the add-offset, the date and `min_id` /
  `max_id`. This is the server's business. `HistoryServer` ignores them and
  is an assumption used only for the scenarios.
- Async suspension and cancellation of the generator. The method returns the
  whole sequence the generator would yield when consumed to the end.
- PageOrder.ReverseInPlace: the model reverses a fresh array that holds a
  copy of the page. It does not model the page list that the response object
  shares with the caller.
- Python's arbitrary-precision integers need no wrap-around. Dafny's `int`
  matches them, and `(1 << 31) - 1` is the constant `0x7fff_ffff`.
