/** The two-party shipping protocol. An agent decides, spools, queues and ships;
    any number of evaluations run beside one flush; requests and replies may be
    lost, delayed or repeated; the agent may crash and restore its spool at any
    point; the control plane appends one row at a time, handlers interleaved, may
    restart, and may find its store refusing deletions. */
module Shipping {
  import opened Decisions
  import opened AuditChain
  import opened ControlPlane
  import opened LocalPdp
  import opened Coverage

  /** A batch with the queue entries it carries. */
  datatype Message = Message(items: seq<Queued>, batch: Batch)

  /** An evaluation that has written its spool line and not yet queued it. */
  datatype Limbo = Limbo(tid: nat, q: Queued)

  /** What happened so far; nothing in it steers a step. */
  datatype History = History(
    order: seq<Queued>,          // every decision whose spool line was written
    answered: set<Queued>,       // decisions returned to a caller
    dropped: set<Queued>,        // decisions discarded as rejected
    sent: set<Message>,
    losses: map<string, Queued>, // the drop each loss id was made up for
    drops: seq<Time>,            // drops of this process
    sinceAck: nat,               // drops of this process since decisions were last acknowledged
    unacked: nat,                // drops of any process since then
    starts: nat,                 // process starts since then
    forgotten: set<string>)      // loss ids whose report was waiting at a crash

  datatype Sys = Sys(
    up: bool,
    a: Agent,
    evals: set<nat>,
    limbo: Option<Limbo>,
    flight: Option<Message>,
    entries: seq<Queued>,        // the spool's readable lines
    torn: bool,                  // and whether a crash cut one short after them
    restored: nat,
    clock: Time,
    chain: Chain,
    chainClock: Time,
    h: History)

  datatype Event =
    | EvalBegin(tid: nat, now: Time)
    | EvalAbort(tid: nat)
    | EvalSpool(tid: nat, q: Queued)
    | EvalQueue
    | Sync(now: Time)
    | Send
    | Receive(o: Outcome, t1: Time, t2: Time, lossID: string)
    | Rewrite
    | Crash(midWrite: bool)
    | Restart
    | Deliver(msg: Message, i: nat, now: Time)
    | DeliverLoss(msg: Message, now: Time)
    | OtherAppend(now: Time)
    | ControlRestart
    | Deletions(work: bool)

  function Start(t: Time): Sys {
    Sys(false, FRESH, {}, None, None, [], false, 0, t, EMPTY_CHAIN, t, History([], {}, {}, {}, map[], [], 0, 0, 0, {}))
  }

  function SpoolFile(s: Sys): seq<Line> { Lines(s.entries) + (if s.torn then [Torn] else []) }

  function RowOf(q: Queued): (r: Row)
    ensures Keyed(r)
  {
    DecisionRow(q.raw, q.revision)
  }

  predicate FreshID(s: Sys, q: Queued) {
    q.id == q.raw.id && forall p :: p in s.h.order ==> p.id != q.id
  }

  /** The decision a reply makes the agent discard, if any. */
  function Discards(a: Agent, n: nat, o: Outcome, t1: Time): Option<Queued>
    requires n <= |a.pending|
  {
    if o.Answered? && o.reply.status != OK && Rejection(o.reply, n) && Left(o.reply, n) <= 1
       && a.dropStreak < MAX_DROP_STREAK && |RecentDrops(a.dropTimes, t1)| < MAX_DROPS_PER_HOUR
    then Some(AfterPartial(a, o.reply, n).pending[0]) else None
  }

  predicate Acknowledges(n: nat, o: Outcome) { o.Answered? && o.reply.status == OK && n > 0 }

  predicate SendReady(s: Sys, msg: Message) {
    && |msg.items| <= |s.a.pending|
    && |msg.batch.droppedIDs| <= |s.a.droppedIDs| && |msg.batch.droppedIDs| <= |s.a.droppedDigests|
  }

  ghost predicate Enabled(cfg: Config, s: Sys, e: Event) {
    match e
    case EvalBegin(tid, now) => s.up && tid !in s.evals && s.clock <= now && Admit(cfg, s.a, now) == Admitted
    case EvalAbort(tid) => s.up && tid in s.evals && (s.limbo.Some? ==> s.limbo.value.tid != tid) && s.a.reserved > 0
    case EvalSpool(tid, q) => s.up && tid in s.evals && s.limbo.None? && FreshID(s, q)
    case EvalQueue => s.up && s.limbo.Some? && s.a.reserved > 0
    case Sync(now) => s.up && s.clock <= now
    case Send => s.up && s.flight.None? && !Idle(s.a)
    case Receive(o, t1, t2, lossID) =>
      && s.up && s.flight.Some? && SendReady(s, s.flight.value) && s.clock <= t1 <= t2
      && lossID != "" && lossID !in s.h.losses
      && (o.Answered? ==> Honest(s.chain, s.flight.value.batch, o.reply))
    case Rewrite => s.up && s.limbo.None?
    case Crash(_) => s.up
    case Restart => !s.up && Parse(SpoolFile(s), End(SpoolFile(s))).Some?
    case Deliver(msg, i, now) =>
      && msg in s.h.sent && Refusal(true, msg.batch).None? && i < |msg.batch.decisions|
      && Took(s.chain, msg.batch, i) && s.chainClock <= now
    case DeliverLoss(msg, now) =>
      msg in s.h.sent && Refusal(true, msg.batch).None? && msg.batch.dropped > 0 && s.chainClock <= now
    case OtherAppend(now) => s.chainClock <= now
    case _ => true
  }

  ghost function Received(s: Sys, o: Outcome, t1: Time, t2: Time, lossID: string): Sys
    requires s.flight.Some? && SendReady(s, s.flight.value)
  {
    var n, m := |s.flight.value.items|, |s.flight.value.batch.droppedIDs|;
    var gone := Discards(s.a, n, o, t1);
    s.(a := AfterOutcome(s.a, n, m, o, t1, t2, lossID).0,
       flight := None,
       clock := t2,
       h := if gone.None? then (if Acknowledges(n, o) then s.h.(sinceAck := 0, unacked := 0, starts := 0) else s.h)
            else s.h.(dropped := s.h.dropped + {gone.value},
                      losses := s.h.losses[(if s.a.lossID == "" then lossID else s.a.lossID) := gone.value],
                      drops := s.h.drops + [t2],
                      sinceAck := s.h.sinceAck + 1,
                      unacked := s.h.unacked + 1))
  }

  ghost function Next(cfg: Config, s: Sys, e: Event): Sys
    requires Enabled(cfg, s, e)
  {
    match e
    case EvalBegin(tid, now) => s.(a := Reserve(s.a), evals := s.evals + {tid}, clock := now)
    case EvalAbort(tid) => s.(a := Release(s.a), evals := s.evals - {tid})
    case EvalSpool(tid, q) =>
      s.(entries := s.entries + [q], limbo := Some(Limbo(tid, q)), h := s.h.(order := s.h.order + [q]))
    case EvalQueue =>
      s.(a := Enqueue(s.a, s.limbo.value.q), evals := s.evals - {s.limbo.value.tid}, limbo := None,
         h := s.h.(answered := s.h.answered + {s.limbo.value.q}))
    case Sync(now) => s.(a := s.a.(synced := Some(now)), clock := now)
    case Send =>
      ExtendIsBatchLength(s.a.pending, Limit(s.a), 0);
      var msg := Message(s.a.pending[..BatchLen(s.a)], NextBatch(s.a));
      s.(flight := Some(msg), h := s.h.(sent := s.h.sent + {msg}))
    case Receive(o, t1, t2, lossID) => Received(s, o, t1, t2, lossID)
    case Rewrite => s.(entries := s.a.pending)
    case Crash(midWrite) =>
      s.(up := false, a := FRESH, evals := {}, limbo := None, flight := None, torn := midWrite,
         h := s.h.(forgotten := s.h.forgotten + (if s.a.droppedIDs == [] then {} else {s.a.lossID})))
    case Restart =>
      var queue := Parse(SpoolFile(s), End(SpoolFile(s))).value;
      s.(up := true, a := Restore(FRESH, queue), entries := queue, torn := false, restored := |queue|,
         h := s.h.(drops := [], sinceAck := 0, starts := s.h.starts + 1))
    case Deliver(msg, i, now) => s.(chain := AppendOnce(s.chain, RowFor(msg.batch, i), now), chainClock := now)
    case DeliverLoss(msg, now) => s.(chain := AppendOnce(s.chain, LossRowFor(msg.batch), now), chainClock := now)
    case OtherAppend(now) => s.(chain := Housekept(s.chain, now), chainClock := now)
    case ControlRestart => s.(chain := s.chain.(triedAt := None))
    case Deletions(work) => s.(chain := s.chain.(deletes := work))
  }

  /** s' is reached from s by the events, each enabled where it happens. */
  ghost predicate Run(cfg: Config, s: Sys, es: seq<Event>, s': Sys)
    decreases |es|
  {
    if es == [] then s == s'
    else Enabled(cfg, s, es[0]) && Run(cfg, Next(cfg, s, es[0]), es[1..], s')
  }

  // ---- What every step keeps ---------------------------------------------

  /** Decisions the chain holds or the agent discarded. */
  ghost function Done(s: Sys): set<Queued> {
    set q | q in s.h.order && (RowOf(q) in Contents(s.chain.rows) || q in s.h.dropped)
  }

  ghost predicate Identified(order: seq<Queued>) {
    DistinctIDs(order) && forall q :: q in order ==> q.id == q.raw.id
  }

  /** The queue holds everything not done, in order; so does the spool, whatever
      happens next. An evaluation between spool and queue is the last decision. */
  ghost predicate QueueInv(s: Sys) {
    var done, order := Done(s), s.h.order;
    && Identified(order)
    && Within(s.a.pending, order) && Covers(order, s.a.pending, done)
    && Within(s.entries, order) && Covers(order, s.entries, done) && Complete(order, s.entries, done)
    && (forall q :: q in s.h.answered ==> q in order)
    && (s.up ==> !s.torn)
    && (!s.up ==> s.limbo.None? && s.flight.None? && s.a.pending == [])
    && (s.up && s.limbo.None? ==> Complete(order, s.a.pending, done))
    && (s.up && s.limbo.Some? ==>
          && order != [] && order[|order| - 1] == s.limbo.value.q
          && s.limbo.value.q !in s.h.answered && s.limbo.value.q !in s.a.pending
          && Complete(order[..|order| - 1], s.a.pending, done))
  }

  /** A message carries its entries under their own revision, nothing missing ahead of them. */
  ghost predicate MessageOK(s: Sys, msg: Message) {
    && msg.batch.decisions == Raws(msg.items)
    && (forall q :: q in msg.items ==> q.revision == msg.batch.revision)
    && Within(msg.items, s.h.order) && Covers(s.h.order, msg.items, Done(s))
  }

  ghost predicate SentInv(s: Sys) {
    && (forall msg :: msg in s.h.sent ==> MessageOK(s, msg))
    && (s.flight.Some? ==>
          && s.flight.value in s.h.sent
          && |s.flight.value.items| <= |s.a.pending|
          && s.flight.value.items == s.a.pending[..|s.flight.value.items|])
  }

  /** When a row is in the chain, every decision queued ahead of it is in the
      chain before it, unless it was discarded. */
  ghost predicate InOrder(order: seq<Queued>, rows: seq<Stamped>, dropped: set<Queued>) {
    forall i, j, p | 0 <= i < j < |order| && 0 <= p < |rows| ::
      rows[p].row == RowOf(order[j]) ==> order[i] in dropped || RowOf(order[i]) in Contents(rows[..p])
  }

  ghost predicate FromOrder(order: seq<Queued>, r: Row) {
    exists q :: q in order && RowOf(q) == r
  }

  ghost predicate ChainInv(s: Sys) {
    && OnceValid(s.chain)
    && (forall r :: r in Contents(s.chain.rows) && r.DecisionRow? ==> FromOrder(s.h.order, r))
    && (forall r :: r in Contents(s.chain.rows) && r.ConflictRow? ==> r.key.LossKey?)
    && InOrder(s.h.order, s.chain.rows, s.h.dropped)
    && Remembers(s.chain, s.chainClock) && OncePerRetention(s.chain) && TableExact(s.chain, s.chainClock)
  }

  ghost predicate Inv(s: Sys) { QueueInv(s) && SentInv(s) && ChainInv(s) }

  /** The two kinds of step that change what is done, or the order, leave every
      earlier message in shape. */
  lemma MessagesStay(s: Sys, s': Sys)
    requires forall msg :: msg in s.h.sent ==> MessageOK(s, msg)
    requires s'.h.sent == s.h.sent && s'.h.order == s.h.order && Done(s) <= Done(s')
    ensures forall msg :: msg in s'.h.sent ==> MessageOK(s', msg)
  {
  }

  lemma {:induction false} IdsIdentify(order: seq<Queued>, p: Queued, q: Queued)
    requires DistinctIDs(order) && p in order && q in order && p.id == q.id
    ensures p == q
  {
  }

  /** A queued decision's key is unused or names its own row: ids are never reused. */
  lemma NoConflict(s: Sys, q: Queued)
    requires Identified(s.h.order) && ChainInv(s) && q in s.h.order
    ensures FreeFor(s.chain, RowOf(q))
  {
  }
}
