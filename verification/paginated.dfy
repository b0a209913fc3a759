/** The `Paginated` class of tle/util/paginator.py as a pure state machine.

    A session holds a fixed sequence of opaque pages, a cursor that is unset
    until setup and then names a page in 1..N, the message the bot posted, the
    phase of the session, and the trace of every call made to the messaging
    platform. Each method of the class becomes a function from session to
    session that appends to the trace what the method would have sent. */
module Paginated {
  import opened Wrappers

  /** The four navigation emoji, in the insertion order of `reaction_map`. */
  const ReactFirst: string := "\U{23EE}"
  const ReactPrev: string := "\U{25C0}"
  const ReactNext: string := "\U{25B6}"
  const ReactLast: string := "\U{23ED}"

  type UserId = nat
  type MessageId = nat

  datatype Cursor = Unset | At(page: int)

  datatype Command = First | Prev | Next | Last

  /** Calls into the messaging platform, recorded in the order they are made. */
  datatype Effect<P> =
    | Send(sent: P)                        // ctx.send of a page
    | Edit(shown: P)                       // message.edit to a page
    | AddReaction(emoji: string)           // message.add_reaction
    | RemoveReaction(removed: string, remover: UserId, on: MessageId)  // reaction.remove(user)
    | ClearReactions                       // message.clear_reactions

  /** Created: built, nothing sent. Listening: in the reaction loop.
      Finished: `paginate` has returned. */
  datatype Phase = Created | Listening | Finished

  /** An event delivered by `bot.wait_for`: a reaction by a user on some
      message the bot can see, or the wait timing out. */
  datatype Event = ReactionAdd(emoji: string, user: UserId, message: MessageId) | Timeout

  datatype Session<P> = Session(pages: seq<P>, cur: Cursor, msg: Option<MessageId>,
                                phase: Phase, trace: seq<Effect<P>>)

  /** The state just after `Paginated(bot, pages, wait_time)`. */
  function Construct<P>(pages: seq<P>): (s: Session<P>)
    ensures s.pages == pages && s.cur == Unset && s.msg == None && s.phase == Created && s.trace == []
  {
    Session(pages, Unset, None, Created, [])
  }

  /** The keys of `reaction_map`, in iteration order. */
  function Reactions(): seq<string>
  {
    [ReactFirst, ReactPrev, ReactNext, ReactLast]
  }

  /** The emoji the bot registers for each command. */
  function SymbolOf(c: Command): (e: string)
    ensures e in Reactions()
  {
    match c
    case First => ReactFirst
    case Prev => ReactPrev
    case Next => ReactNext
    case Last => ReactLast
  }

  /** The `reaction_map` lookup: the command an emoji triggers. */
  function CommandOf(e: string): (c: Command)
    requires e in Reactions()
    ensures SymbolOf(c) == e
  {
    if e == ReactFirst then First
    else if e == ReactPrev then Prev
    else if e == ReactNext then Next
    else Last
  }

  /** `reaction_map` is a bijection between the four commands and its keys. */
  lemma ReactionMapBijective(c: Command, e: string)
    ensures CommandOf(SymbolOf(c)) == c
    ensures e in Reactions() ==> SymbolOf(CommandOf(e)) == e
    ensures forall d: Command :: SymbolOf(d) == SymbolOf(c) ==> d == c
  {
  }

  /** The page last put on screen by a send or an edit, if any. */
  function LastShown<P>(t: seq<Effect<P>>): Option<P>
  {
    if |t| == 0 then None
    else match t[|t| - 1]
      case Send(p) => Some(p)
      case Edit(p) => Some(p)
      case _ => LastShown(t[..|t| - 1])
  }

  /** Number of `clear_reactions` calls in a trace. */
  function Clears<P>(t: seq<Effect<P>>): nat
  {
    if |t| == 0 then 0
    else Clears(t[..|t| - 1]) + (if t[|t| - 1].ClearReactions? then 1 else 0)
  }

  /** Number of `message.edit` calls in a trace. */
  function Edits<P>(t: seq<Effect<P>>): nat
  {
    if |t| == 0 then 0
    else Edits(t[..|t| - 1]) + (if t[|t| - 1].Edit? then 1 else 0)
  }

  /** `show_page(page_num)`: an in-range target is rendered and becomes the
      cursor; any other target is ignored. */
  function ShowPage<P>(s: Session<P>, k: int): (r: Session<P>)
    ensures r.pages == s.pages && r.phase == s.phase && r.msg == s.msg
    ensures 1 <= k <= |s.pages| ==>
      r.cur == At(k) && r.trace == s.trace + [Edit(s.pages[k - 1])]
    ensures !(1 <= k <= |s.pages|) ==> r == s
  {
    if 1 <= k <= |s.pages| then
      s.(trace := s.trace + [Edit(s.pages[k - 1])], cur := At(k))
    else s
  }

  /** `prev_page`: on page 1 nothing happens; otherwise the previous page is
      rendered and becomes the cursor. Python raises on an unset cursor
      (`None - 1`), so the caller must have set it. */
  function PrevPage<P>(s: Session<P>): (r: Session<P>)
    requires s.cur.At? && 1 <= s.cur.page <= |s.pages|
    ensures s.cur.page == 1 ==> r == s
    ensures s.cur.page > 1 ==>
      && r.cur == At(s.cur.page - 1)
      && r.trace == s.trace + [Edit(s.pages[s.cur.page - 2])]
      && r.pages == s.pages && r.phase == s.phase && r.msg == s.msg
  {
    ShowPage(s, s.cur.page - 1)
  }

  /** `next_page`: on page N nothing happens; otherwise the next page is
      rendered and becomes the cursor. */
  function NextPage<P>(s: Session<P>): (r: Session<P>)
    requires s.cur.At? && 1 <= s.cur.page <= |s.pages|
    ensures s.cur.page == |s.pages| ==> r == s
    ensures s.cur.page < |s.pages| ==>
      && r.cur == At(s.cur.page + 1)
      && r.trace == s.trace + [Edit(s.pages[s.cur.page])]
      && r.pages == s.pages && r.phase == s.phase && r.msg == s.msg
  {
    ShowPage(s, s.cur.page + 1)
  }

  /** Invoking the `reaction_map` entry of a command: either nothing happens,
      or exactly one edit renders the page the cursor moves to, which stays
      in [1, N]. */
  function Apply<P>(s: Session<P>, c: Command): (r: Session<P>)
    requires s.cur.At? && 1 <= s.cur.page <= |s.pages|
    ensures r.pages == s.pages && r.phase == s.phase && r.msg == s.msg
    ensures r.cur.At? && 1 <= r.cur.page <= |s.pages|
    ensures r == s || r.trace == s.trace + [Edit(s.pages[r.cur.page - 1])]
  {
    match c
    case First => ShowPage(s, 1)
    case Prev => PrevPage(s)
    case Next => NextPage(s)
    case Last => ShowPage(s, |s.pages|)
  }

  /** The first `n` `add_reaction` calls of the registration loop, one per
      `reaction_map` key in iteration order. */
  function Registrations<P>(n: nat): (r: seq<Effect<P>>)
    requires n <= 4
    ensures |r| == n
    ensures forall i :: 0 <= i < n ==> r[i] == AddReaction(Reactions()[i])
  {
    if n == 0 then [] else Registrations(n - 1) + [AddReaction(Reactions()[n - 1])]
  }

  /** The setup part of `Paginated.paginate`: send page 1 and remember the
      message it creates (`sent`, the value `ctx.send` returns); with a single
      page return at once; otherwise set the cursor to 1 and register the
      four reactions in the order First, Prev, Next, Last. `self.pages[0]`
      raises on an empty list, so the pages must be non-empty. */
  function Setup<P>(s: Session<P>, sent: MessageId): (r: Session<P>)
    requires s.phase == Created && Valid(s) && |s.pages| > 0
    ensures Valid(r) && r.pages == s.pages && r.msg == Some(sent)
    ensures |s.pages| == 1 ==> r.trace == [Send(s.pages[0])] && r.cur == Unset && r.phase == Finished
    ensures |s.pages| > 1 ==>
      && r.trace == [Send(s.pages[0]), AddReaction(ReactFirst), AddReaction(ReactPrev),
                     AddReaction(ReactNext), AddReaction(ReactLast)]
      && r.cur == At(1) && r.phase == Listening
  {
    var t := s.trace + [Send(s.pages[0])];
    TraceAppend(s.trace, Send(s.pages[0]));
    AddReactionsKeepTrace(t, 4);
    if |s.pages| == 1 then s.(trace := t, msg := Some(sent), phase := Finished)
    else
      s.(trace := t + Registrations(4), msg := Some(sent), cur := At(1), phase := Listening)
  }

  /** The `check` passed to `wait_for`, as written: a recognised emoji from
      someone other than the bot. It does not look at which message was
      reacted to. */
  predicate Accepts(bot: UserId, e: Event)
    requires e.ReactionAdd?
  {
    bot != e.user && e.emoji in Reactions()
  }

  /** The filter as evidently intended: `Accepts`, and the reaction is on
      the message this session posted. */
  predicate AcceptsOwn(bot: UserId, own: Option<MessageId>, e: Event)
    requires e.ReactionAdd?
  {
    Accepts(bot, e) && own == Some(e.message)
  }

  /** What the session invariant promises: where the cursor can be, what the
      message shows, and how often the reactions were cleared. */
  ghost predicate Valid<P>(s: Session<P>)
  {
    match s.phase
    case Created => s.cur == Unset && s.msg == None && s.trace == []
    case Listening =>
      && |s.pages| > 1 && s.msg.Some?
      && s.cur.At? && 1 <= s.cur.page <= |s.pages|
      && LastShown(s.trace) == Some(s.pages[s.cur.page - 1])
      && Clears(s.trace) == 0
    case Finished =>
      && s.msg.Some?
      && (|| (|s.pages| == 1 && s.cur == Unset && s.trace == [Send(s.pages[0])])
          || (&& |s.pages| > 1
              && s.cur.At? && 1 <= s.cur.page <= |s.pages|
              && LastShown(s.trace) == Some(s.pages[s.cur.page - 1])
              && Clears(s.trace) == 1
              && s.trace[|s.trace| - 1] == ClearReactions))
  }

  /** The body of the `try` for an accepted reaction: remove the user's
      reaction from the message it was added to, then run the command. */
  function Dispatch<P>(s: Session<P>, emoji: string, user: UserId, on: MessageId): Session<P>
    requires s.cur.At? && 1 <= s.cur.page <= |s.pages| && emoji in Reactions()
  {
    Apply(s.(trace := s.trace + [RemoveReaction(emoji, user, on)]), CommandOf(emoji))
  }

  /** Which event filter the loop runs: the source's `check`, or the one
      restricted to the session's own message. */
  datatype Filter = SourceFilter | OwnMessageFilter

  predicate Admits(f: Filter, bot: UserId, own: Option<MessageId>, e: Event)
    requires e.ReactionAdd?
  {
    match f
    case SourceFilter => Accepts(bot, e)
    case OwnMessageFilter => AcceptsOwn(bot, own, e)
  }

  /** One pass of the `while True` loop of `Paginated.paginate` under filter
      `f`: rejected reactions are dropped by `wait_for`; accepted ones are
      removed and dispatched; a timeout clears the reactions and ends the
      loop. The invariant, the pages and the message are kept, a rejected
      reaction changes nothing, and only a timeout ends the loop. */
  function Handle<P>(s: Session<P>, bot: UserId, f: Filter, e: Event): (r: Session<P>)
    requires Valid(s)
    ensures Valid(r) && r.pages == s.pages && r.msg == s.msg
    ensures s.phase != Listening ==> r == s
    ensures s.phase == Listening ==> (r.phase == Finished <==> e.Timeout?)
    ensures s.phase == Listening && e.ReactionAdd? && !Admits(f, bot, s.msg, e) ==> r == s
  {
    if s.phase != Listening then s
    else match e
      case Timeout => s.(trace := s.trace + [ClearReactions], phase := Finished)
      case ReactionAdd(emoji, user, on) =>
        if !Admits(f, bot, s.msg, e) then s else Dispatch(s, emoji, user, on)
  }

  /** A session fed a finite sequence of events under filter `f`: the
      invariant, the pages and the message are kept, and a session that was
      set up stays set up. */
  function Run<P>(s: Session<P>, bot: UserId, f: Filter, es: seq<Event>): (r: Session<P>)
    requires Valid(s)
    ensures Valid(r) && r.pages == s.pages && r.msg == s.msg
    ensures s.phase != Created ==> r.phase != Created
    decreases |es|
  {
    if |es| == 0 then s
    else Run(Handle(s, bot, f, es[0]), bot, f, es[1..])
  }

  // ---------------------------------------------------------------------
  // Trace bookkeeping

  lemma TraceAppend<P>(t: seq<Effect<P>>, e: Effect<P>)
    ensures LastShown(t + [e]) == (if e.Send? then Some(e.sent) else if e.Edit? then Some(e.shown) else LastShown(t))
    ensures Clears(t + [e]) == Clears(t) + (if e.ClearReactions? then 1 else 0)
    ensures Edits(t + [e]) == Edits(t) + (if e.Edit? then 1 else 0)
  {
    assert (t + [e])[..|t|] == t;
  }

  lemma {:induction false} AddReactionsKeepTrace<P>(t: seq<Effect<P>>, n: nat)
    requires n <= 4
    ensures LastShown(t + Registrations(n)) == LastShown(t)
    ensures Clears(t + Registrations(n)) == Clears(t)
  {
    if n == 0 {
      assert t + Registrations(n) == t;
    } else {
      var v := t + Registrations<P>(n - 1);
      assert t + Registrations(n) == v + [AddReaction(Reactions()[n - 1])];
      AddReactionsKeepTrace(t, n - 1);
      TraceAppend(v, AddReaction(Reactions()[n - 1]));
    }
  }

  // ---------------------------------------------------------------------
  // show_page and the four commands

  /** An in-range `show_page` records exactly one edit, an out-of-range one none. */
  lemma ShowPageEdits<P>(s: Session<P>, k: int)
    ensures Edits(ShowPage(s, k).trace) == Edits(s.trace) + (if 1 <= k <= |s.pages| then 1 else 0)
    ensures 1 <= k <= |s.pages| ==> LastShown(ShowPage(s, k).trace) == Some(s.pages[k - 1])
  {
  }

  /** First always lands on page 1 and Last on page N, from any cursor, and
      repeating either lands on the same page and shows the same content. */
  lemma FirstLastLand<P>(s: Session<P>)
    requires s.cur.At? && 1 <= s.cur.page <= |s.pages|
    ensures Apply(s, First).cur == At(1)
    ensures Apply(s, Last).cur == At(|s.pages|)
    ensures Apply(Apply(s, First), First).cur == Apply(s, First).cur
    ensures Apply(Apply(s, Last), Last).cur == Apply(s, Last).cur
    ensures LastShown(Apply(Apply(s, First), First).trace) == Some(s.pages[0])
    ensures LastShown(Apply(Apply(s, Last), Last).trace) == Some(s.pages[|s.pages| - 1])
  {
  }

  /** Every command keeps the page under the cursor on screen, and clears
      nothing. */
  lemma ApplyKeepsCursor<P>(s: Session<P>, c: Command)
    requires s.cur.At? && 1 <= s.cur.page <= |s.pages|
    requires LastShown(s.trace) == Some(s.pages[s.cur.page - 1])
    ensures var r := Apply(s, c);
      && LastShown(r.trace) == Some(s.pages[r.cur.page - 1])
      && Clears(r.trace) == Clears(s.trace)
  {
  }

  /** What a command does depends only on the cursor and the pages, not on
      the calls made before it. */
  lemma ApplyIgnoresTrace<P>(s: Session<P>, x: seq<Effect<P>>, c: Command)
    requires s.cur.At? && 1 <= s.cur.page <= |s.pages|
    ensures var a := Apply(s, c); var b := Apply(s.(trace := s.trace + x), c);
      && |s.trace| <= |a.trace|
      && b.cur == a.cur && b.pages == a.pages && b.phase == a.phase && b.msg == a.msg
      && b.trace == s.trace + x + a.trace[|s.trace|..]
  {
  }

  /** A run of plain commands (the `reaction_map` calls alone) from an
      in-range cursor: the cursor stays in range and each command adds at
      most one call to the trace, after the calls already made. */
  function Commands<P>(s: Session<P>, cs: seq<Command>): (r: Session<P>)
    requires s.cur.At? && 1 <= s.cur.page <= |s.pages|
    ensures r.pages == s.pages && r.phase == s.phase && r.msg == s.msg
    ensures r.cur.At? && 1 <= r.cur.page <= |s.pages|
    ensures |s.trace| <= |r.trace| <= |s.trace| + |cs| && r.trace[..|s.trace|] == s.trace
    decreases |cs|
  {
    if |cs| == 0 then s
    else
      var r := Commands(Apply(s, cs[0]), cs[1..]);
      assert r.trace[..|s.trace|] == r.trace[..|Apply(s, cs[0]).trace|][..|s.trace|];
      r
  }

  lemma {:induction false} CommandsStayInRange<P>(s: Session<P>, cs: seq<Command>)
    requires s.cur.At? && 1 <= s.cur.page <= |s.pages|
    requires LastShown(s.trace) == Some(s.pages[s.cur.page - 1])
    ensures var r := Commands(s, cs);
      LastShown(r.trace) == Some(s.pages[r.cur.page - 1]) && Clears(r.trace) == Clears(s.trace)
    decreases |cs|
  {
    if |cs| > 0 {
      ApplyKeepsCursor(s, cs[0]);
      CommandsStayInRange(Apply(s, cs[0]), cs[1..]);
    }
  }

  /** Last, Prev, Prev from page 1 of five pages visits pages 5, 4 and 3. */
  lemma LastPrevPrevOnFive<P>(pages: seq<P>, sent: MessageId)
    requires |pages| == 5
    ensures var s0 := Setup(Construct(pages), sent);
      var s1 := Apply(s0, Last); var s2 := Apply(s1, Prev); var s3 := Apply(s2, Prev);
      s1.cur == At(5) && s2.cur == At(4) && s3.cur == At(3)
  {
  }

  // ---------------------------------------------------------------------
  // The event filter and the loop

  /** A reaction passes the source's filter exactly when it comes from
      someone other than the bot and is one of the four navigation emoji. */
  lemma AcceptsExactly(bot: UserId, emoji: string, user: UserId, on: MessageId)
    ensures Accepts(bot, ReactionAdd(emoji, user, on)) <==>
      user != bot && exists c: Command :: SymbolOf(c) == emoji
  {
    if emoji in Reactions() {
      assert SymbolOf(CommandOf(emoji)) == emoji;
    }
  }

  /** A reaction passes the corrected filter exactly when it passes the
      source's filter and is on this session's message. */
  lemma AcceptsOwnExactly(bot: UserId, own: MessageId, emoji: string, user: UserId, on: MessageId)
    ensures AcceptsOwn(bot, Some(own), ReactionAdd(emoji, user, on)) <==>
      user != bot && on == own && exists c: Command :: SymbolOf(c) == emoji
  {
    AcceptsExactly(bot, emoji, user, on);
  }

  /** A filtered-out reaction changes nothing. An accepted one first removes
      the user's reaction, then does to the cursor and the trace exactly what
      its command does on its own. */
  lemma HandleReaction<P>(s: Session<P>, bot: UserId, f: Filter, emoji: string, user: UserId, on: MessageId)
    requires Valid(s) && s.phase == Listening
    ensures var e := ReactionAdd(emoji, user, on); var r := Handle(s, bot, f, e);
      && (!Admits(f, bot, s.msg, e) ==> r == s)
      && (Admits(f, bot, s.msg, e) ==>
            var a := Apply(s, CommandOf(emoji));
            && r.cur == a.cur && r.pages == s.pages && r.phase == s.phase
            && r.trace == s.trace + [RemoveReaction(emoji, user, on)] + a.trace[|s.trace|..])
  {
  }

  /** As written, a navigation reaction on some other message the bot can
      see, from a user who is not the bot, moves this session's cursor and
      removes the reaction from that other message. */
  lemma ForeignReactionMovesCursor<P>(pages: seq<P>, bot: UserId, user: UserId, own: MessageId, other: MessageId)
    requires |pages| > 1 && user != bot && other != own
    ensures var s := Setup(Construct(pages), own);
      var r := Handle(s, bot, SourceFilter, ReactionAdd(ReactNext, user, other));
      && r.cur == At(2)
      && r.trace == s.trace + [RemoveReaction(ReactNext, user, other), Edit(pages[1])]
  {
  }

  /** With the filter restricted to the session's own message, a reaction on
      any other message leaves the session unchanged, while the same
      reaction on the session's message still navigates. */
  lemma ForeignReactionIgnored<P>(s: Session<P>, bot: UserId, emoji: string, user: UserId, on: MessageId)
    requires Valid(s) && s.phase == Listening
    ensures Some(on) != s.msg ==> Handle(s, bot, OwnMessageFilter, ReactionAdd(emoji, user, on)) == s
    ensures Some(on) == s.msg ==>
      Handle(s, bot, OwnMessageFilter, ReactionAdd(emoji, user, on)) ==
      Handle(s, bot, SourceFilter, ReactionAdd(emoji, user, on))
  {
  }

  /** Once the loop has ended the session never changes again. */
  lemma {:induction false} FinishedAbsorbs<P>(s: Session<P>, bot: UserId, f: Filter, es: seq<Event>)
    requires Valid(s) && s.phase != Listening
    ensures Run(s, bot, f, es) == s
    decreases |es|
  {
    if |es| > 0 {
      FinishedAbsorbs(s, bot, f, es[1..]);
    }
  }

  /** A timeout ends any listening session with exactly one clear. */
  lemma TimeoutClearsOnce<P>(s: Session<P>, bot: UserId, f: Filter)
    requires Valid(s) && s.phase == Listening
    ensures var r := Handle(s, bot, f, Timeout);
      r.phase == Finished && r.cur == s.cur &&
      r.trace == s.trace + [ClearReactions] && Clears(r.trace) == 1
  {
  }

  /** After setup, any finite sequence of events keeps the cursor in [1, N]
      with the message showing the page under it; reactions are cleared at
      most once, and only as the last call once the loop has ended. */
  lemma RunKeepsInvariant<P>(pages: seq<P>, sent: MessageId, bot: UserId, f: Filter, es: seq<Event>)
    requires |pages| > 0
    ensures var r := Run(Setup(Construct(pages), sent), bot, f, es);
      && r.pages == pages
      && (|pages| > 1 ==> r.cur.At? && 1 <= r.cur.page <= |pages|
                          && LastShown(r.trace) == Some(pages[r.cur.page - 1])
                          && Clears(r.trace) <= 1
                          && (r.phase == Finished ==> r.trace[|r.trace| - 1] == ClearReactions))
  {
  }
}
