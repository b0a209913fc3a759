# Reaction paginator, modelled in Dafny

This project models the pagination helper of the TLE chat bot
(`tle/util/paginator.py`). A `Paginated` object holds a fixed, non-empty list of
pre-rendered pages and a cursor. It posts page 1, registers four navigation
reactions (first, previous, next, last), and then moves the cursor as users
react, until the wait for a reaction times out. The module-level `paginate`
checks its input, optionally writes `Page i / N` footers, and starts the
session.

The model is functional. A `Paginated.Session` holds the pages (opaque values
of a type parameter), a cursor `Unset | At(k)`, a phase
(`Created | Listening | Finished`) and a trace. The trace records every call to
the messaging platform: `Send`, `Edit`, `AddReaction`, `RemoveReaction` and
`ClearReactions`. Every method of the class is a pure function from session to
session. `Handle` is one pass of the reaction loop, and `Run` feeds it a finite
sequence of events. An event is a reaction (emoji, user, message) or a
`Timeout`. The session remembers the id of the message it posted.

Files:

- `wrappers.dfy`: `Option` and `Result`.
- `paginated.dfy`: module `Paginated`, the class and its loop.
- `footer.dfy`: module `PageFooter`, the footer text `Page i / N`, with a parser
  that inverts it.
- `entry.dfy`: module `PaginateEntry`, the module-level `paginate`.

The session invariant `Paginated.Valid` says three things about a session with
N > 1 pages, while it is listening and after it has finished. The cursor is in
[1, N]. The last page sent or edited is the page under the cursor. The reactions
were cleared at most once, and if so as the last call. A session with one page
only ever sends that page and leaves the cursor unset.

The reaction loop of the source accepts navigation reactions on any message
(see "## Findings"). `Paginated.Handle` and `Paginated.Run` therefore take a
`Filter`. `SourceFilter` is the source's `check`; `OwnMessageFilter` also
requires the reaction to be on the session's own message. Every invariant lemma
about a loop pass or a run of events holds for both filters. The two
`ForeignReaction` lemmas are the exception: they contrast the filters.

## Model

| member | source | states |
|---|---|---|
| `Paginated.Construct` | tle/util/paginator.py:23-34 | a new object holds the given pages, an unset cursor, no message and has made no call |
| `Paginated.SymbolOf` | tle/util/paginator.py:4-7 | each command's emoji is one of the four keys of `reaction_map` |
| `Paginated.CommandOf` | tle/util/paginator.py:29-34 | looking up a key of `reaction_map` yields the command registered under that emoji |
| `Paginated.ReactionMapBijective` | tle/util/paginator.py:29-34 | the four commands and the four emoji correspond one to one |
| `Paginated.ShowPage` | tle/util/paginator.py:36-40 | an in-range target becomes the cursor and exactly its page is edited in; an out-of-range target leaves the session unchanged |
| `Paginated.ShowPageEdits` | tle/util/paginator.py:36-40 | `show_page` adds one edit when the target is in range and none otherwise; after an in-range call the message shows `pages[k-1]` |
| `Paginated.PrevPage` | tle/util/paginator.py:42-43 | on page 1 nothing changes; otherwise the cursor moves to the previous page and exactly that page is edited in |
| `Paginated.NextPage` | tle/util/paginator.py:45-46 | on page N nothing changes; otherwise the cursor moves to the next page and exactly that page is edited in |
| `Paginated.Apply` | tle/util/paginator.py:29-46 | every `reaction_map` entry keeps the cursor in [1, N] and either changes nothing or makes exactly one edit, showing the page the cursor moves to |
| `Paginated.FirstLastLand` | tle/util/paginator.py:29-40 | First always gives cursor 1 and Last cursor N, from any cursor; repeating either keeps the same cursor and the same page on screen |
| `Paginated.ApplyKeepsCursor` | tle/util/paginator.py:29-46 | any of the four commands keeps the page under the cursor on screen and clears nothing |
| `Paginated.ApplyIgnoresTrace` | tle/util/paginator.py:36-46 | what a command does to the cursor and the trace does not depend on the calls made before it |
| `Paginated.Commands` | tle/util/paginator.py:29-46 | from an in-range cursor, any finite sequence of First/Prev/Next/Last keeps the cursor in [1, N], keeps the earlier trace as a prefix and adds at most one call per command |
| `Paginated.CommandsStayInRange` | tle/util/paginator.py:29-46 | after any finite sequence of commands the message shows the page under the cursor, and nothing was cleared |
| `Paginated.LastPrevPrevOnFive` | tle/util/paginator.py:29-46 | with five pages, Last, Prev, Prev after setup visits pages 5, 4, 3 |
| `Paginated.Registrations` | tle/util/paginator.py:57-58 | the registration loop calls `add_reaction` once per `reaction_map` key, in key order |
| `Paginated.Setup` | tle/util/paginator.py:48-58 | one page: only that page is sent, no reaction, cursor unset, done; more: page 1 is sent, then the four reactions First, Prev, Next, Last in that order, cursor 1, listening; the sent message is remembered |
| `Paginated.AcceptsExactly` | tle/util/paginator.py:60-61 | the source's filter accepts a reaction if and only if it is not from the bot and its emoji is one of the four mapped symbols, whatever message it is on |
| `Paginated.AcceptsOwnExactly` | tle/util/paginator.py:60-61 | the corrected filter accepts a reaction if and only if it also is on the session's own message |
| `Paginated.Handle` | tle/util/paginator.py:60-70 | under either filter, one pass of the loop keeps the session invariant, the pages and the message, leaves the session unchanged on a rejected reaction or after the loop has ended, and ends a listening session exactly on a timeout |
| `Paginated.HandleReaction` | tle/util/paginator.py:60-67 | under either filter, a rejected reaction leaves the session unchanged, and an accepted one records the reaction's removal first and then moves the cursor and edits exactly as its command alone would |
| `Paginated.ForeignReactionMovesCursor` | tle/util/paginator.py:60-67 | as written, Next from another user on a different message moves the cursor from 1 to 2 and removes the reaction from that other message |
| `Paginated.ForeignReactionIgnored` | tle/util/paginator.py:60-67 | under the own-message filter, a reaction on any other message changes nothing, and one on the session's message behaves as under the source's filter |
| `Paginated.TimeoutClearsOnce` | tle/util/paginator.py:68-70 | under either filter, a timeout ends a listening session with one clear of the reactions, the cursor unchanged |
| `Paginated.FinishedAbsorbs` | tle/util/paginator.py:52-70 | under either filter, once `paginate` has returned, further events change nothing |
| `Paginated.Run` | tle/util/paginator.py:63-70 | under either filter, any finite sequence of events keeps the session invariant, the pages and the message, and never returns a session to the unstarted state |
| `Paginated.RunKeepsInvariant` | tle/util/paginator.py:36-70 | under either filter, after setup and any finite sequence of events with N > 1, the cursor is in [1, N], the message shows its page, and the reactions were cleared at most once and, once finished, as the last call |
| `PageFooter.Decimal` | tle/util/paginator.py:81 | the decimal rendering of a number is non-empty, all digits, without a leading zero, and "0" for zero |
| `PageFooter.DecimalRoundTrip` | tle/util/paginator.py:81 | reading the decimal rendering back gives the number |
| `PageFooter.FooterRoundTrip` | tle/util/paginator.py:81 | the footer `Page i / N` parses back to exactly (i, N) |
| `PageFooter.FooterInjective` | tle/util/paginator.py:81 | two page positions with the same footer text are the same position |
| `PaginateEntry.StampFooters` | tle/util/paginator.py:79-81 | page i (from 0) gets the footer `Page i+1 / N` and its content is unchanged |
| `PaginateEntry.Paginate` | tle/util/paginator.py:73-82 | no pages fails with `NoPagesError` whatever the permission; otherwise a missing `manage_messages` fails with `InsufficientPermissionsError`; otherwise a fresh session holds the pages, stamped (and reading back as their own position) exactly when N > 1 and footers were asked for; the session is unstarted, with no message, and satisfies the session invariant |
| `PaginateEntry.Launch` | tle/util/paginator.py:82-83 | with the same error cases as `Paginate`, a success holds the caller's pages (stamped exactly as `Paginate` stamps them) after setup: with N > 1 its calls are page 1 sent then the four reactions in order, with cursor 1 and listening, and with N = 1 only page 1 sent, finished and the cursor unset |

## Left out

- Scheduling: `asyncio.create_task` and the wait for events are not modelled. `Launch` runs the setup on the session a successful `Paginate` returns, as the asyncio task would, and `Run` feeds a finite sequence of events to a session.
- `wait_time` and real time: a timeout is an abstract `Timeout` event.
- The messaging platform: `ctx.send`, `message.edit`, `add_reaction`, `reaction.remove` and `clear_reactions` become trace entries, and `permissions_for` becomes the boolean `canManage`.
- Exceptions from the messaging platform are not modelled. All of them propagate uncaught except an `asyncio.TimeoutError` raised by `reaction.remove` or by a command's `message.edit` (lines 66-67). That one is caught at line 68, and the reactions are cleared and the loop ends as after a `Timeout` event. A failed edit leaves the cursor where it was.
- Page contents and embeds are opaque. A page of `PaginateEntry` is a body plus a footer string; `set_footer` replaces that string.
- `embed.set_footer` mutates embed objects in place. Two list entries that share one embed object would end up with the last footer written. The model treats pages as values.
- The `Paginated.paginate` setup assumes a non-empty page list, which the module-level `paginate` guarantees. Python would fail at `self.pages[0]` on an empty list.
- `prev_page` and `next_page` assume a set cursor. Python would fail on `None - 1`, but the loop only starts after the cursor is set to 1.
- The target of Last is `len(pages)` captured when the object is built. Pages are immutable in the model, so this is `|pages|`.
- The attributes `bot` and `wait_time` are not modelled. The bot's identity is a parameter of `Handle` and `Run`. Of `message`, only its id is kept.
- A missing guild (`ctx.guild` is `None` in direct messages) would raise in Python, and so would a page whose embed is `None` when footers are stamped (`embed.set_footer` at line 81). Neither is modelled. Sending or editing with no embed does not raise.
- Message ids and user ids are plain numbers; which messages and users the bot can see is not modelled.

## Findings

| source | as written | input that shows it | evidently intended | confidence | as-written member | corrected member |
|---|---|---|---|---|---|---|
| tle/util/paginator.py:60-61 | `check` accepts a navigation emoji from any user other than the bot, on any message the bot can see; line 66 then removes it from that message and line 67 moves this cursor | two paginators open at once; a user clicks the Next emoji on the other one's message | also require that the reaction is on `self.message` | not executed; high that the filter admits it, medium that it is unintended | `Paginated.ForeignReactionMovesCursor` | `Paginated.ForeignReactionIgnored` |
