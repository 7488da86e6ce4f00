/** What the shipping protocol promises, over whole runs from an empty start. */
module ShippingTheorems {
  import opened Decisions
  import opened AuditChain
  import opened ControlPlane
  import opened LocalPdp
  import opened Coverage
  import opened Shipping
  import opened ShippingInvariant
  import opened ShippingLimits

  ghost predicate AllInv(cfg: Config, s: Sys) {
    Inv(s) && CapacityInv(cfg, s) && LossInv(s) && ReportInv(s) && DropInv(s)
  }

  lemma {:induction false} RunKeepsAll(cfg: Config, s: Sys, es: seq<Event>, s': Sys)
    requires AllInv(cfg, s) && Run(cfg, s, es, s')
    ensures AllInv(cfg, s')
    decreases |es|
  {
    hide Inv, CapacityInv, LossInv, ReportInv, DropInv, Enabled, Next;
    if es != [] {
      StepKeeps(cfg, s, es[0]);
      CapacityStep(cfg, s, es[0]);
      LossStep(cfg, s, es[0]);
      ReportStep(cfg, s, es[0]);
      DropStep(cfg, s, es[0]);
      RunKeepsAll(cfg, Next(cfg, s, es[0]), es[1..], s');
    }
  }

  lemma Reachable(cfg: Config, t: Time, es: seq<Event>, s: Sys)
    requires Run(cfg, Start(t), es, s)
    ensures AllInv(cfg, s)
  {
    StartInv(t);
    RunKeepsAll(cfg, Start(t), es, s);
  }

  /** No decision is lost: an answered decision is in the chain, was discarded as
      rejected, or still waits; and at every moment, also in a crash, the spool
      holds each one that is neither recorded nor discarded. */
  lemma NothingLost(cfg: Config, t: Time, es: seq<Event>, s: Sys, q: Queued)
    requires Run(cfg, Start(t), es, s) && q in s.h.answered
    ensures RowOf(q) in Contents(s.chain.rows) || q in s.h.dropped || q in s.entries
    ensures s.up ==> RowOf(q) in Contents(s.chain.rows) || q in s.h.dropped || q in s.a.pending
  {
    Reachable(cfg, t, es, s);
    if s.up && s.limbo.Some? {
      assert q in s.h.order[..|s.h.order| - 1];
    }
  }

  /** A restart always succeeds and queues exactly what the spool says. */
  lemma RestartResumes(cfg: Config, t: Time, es: seq<Event>, s: Sys)
    requires Run(cfg, Start(t), es, s) && !s.up
    ensures Enabled(cfg, s, Restart) && Next(cfg, s, Restart).a.pending == s.entries
  {
    Reachable(cfg, t, es, s);
    SpoolReadsBack(s);
    RestartKeeps(cfg, s);
  }

  /** A decision has one row, or rows more than thirty days apart. */
  lemma AtMostOnce(cfg: Config, t: Time, es: seq<Event>, s: Sys, i: nat, j: nat)
    requires Run(cfg, Start(t), es, s) && i < j < |s.chain.rows|
    requires s.chain.rows[i].row.DecisionRow? && s.chain.rows[j].row.DecisionRow?
    requires s.chain.rows[i].row.decision.id == s.chain.rows[j].row.decision.id
    ensures s.chain.rows[i].row == s.chain.rows[j].row
    ensures s.chain.rows[j].at - s.chain.rows[i].at > ONCE_RETENTION
  {
    Reachable(cfg, t, es, s);
    ContentsAt(s.chain.rows, i);
    ContentsAt(s.chain.rows, j);
    var p :| p in s.h.order && RowOf(p) == s.chain.rows[i].row;
    var q :| q in s.h.order && RowOf(q) == s.chain.rows[j].row;
    IdsIdentify(s.h.order, p, q);
  }

  /** Every decision row is a decision the agent made, under the revision it was
      made with, and everything queued ahead of it is in the chain before it
      unless it was discarded. */
  lemma ChainInQueueOrder(cfg: Config, t: Time, es: seq<Event>, s: Sys, p: nat) returns (j: nat)
    requires Run(cfg, Start(t), es, s) && p < |s.chain.rows| && s.chain.rows[p].row.DecisionRow?
    ensures j < |s.h.order| && s.chain.rows[p].row == RowOf(s.h.order[j])
    ensures forall i :: 0 <= i < j ==> s.h.order[i] in s.h.dropped || RowOf(s.h.order[i]) in Contents(s.chain.rows[..p])
  {
    Reachable(cfg, t, es, s);
    ContentsAt(s.chain.rows, p);
    assert FromOrder(s.h.order, s.chain.rows[p].row);
    var q :| q in s.h.order && RowOf(q) == s.chain.rows[p].row;
    j :| 0 <= j < |s.h.order| && s.h.order[j] == q;
  }

  /** Everything ahead of the head of the queue is recorded or discarded. */
  lemma AheadOfTheHead(cfg: Config, t: Time, es: seq<Event>, s: Sys, i: nat, j: nat)
    requires Run(cfg, Start(t), es, s) && s.a.pending != [] && i < j < |s.h.order| && s.h.order[j] == s.a.pending[0]
    ensures RowOf(s.h.order[i]) in Contents(s.chain.rows) || s.h.order[i] in s.h.dropped
  {
    Reachable(cfg, t, es, s);
    assert s.h.order[i] in s.a.pending[..0] || s.h.order[i] in Done(s);
  }

  /** A row of the chain sent again at any later time is recorded a second time
      exactly when the last pruning went more than the retention past it. */
  lemma RecordedAgainIff(cfg: Config, t: Time, es: seq<Event>, s: Sys, i: nat, now: Time)
    requires Run(cfg, Start(t), es, s) && LastOfKey(s.chain.rows, i)
    ensures var c', x := AppendOnce(s.chain, s.chain.rows[i].row, now), s.chain.rows[i];
      && (c'.rows == s.chain.rows + [Stamped(x.row, now)] <==> Forgotten(s.chain, x.at))
      && (c' == s.chain <==> !Forgotten(s.chain, x.at))
  {
    hide Run, AppendOnce, QueueInv, SentInv, CapacityInv, LossInv, ReportInv, DropInv, Forgotten;
    Reachable(cfg, t, es, s);
    ResendRecordsTwiceIff(s.chain, s.chainClock, i, now);
  }

  /** Each loss id stands for one dropped decision: every report under it, sent or
      recorded, names that decision, at most one report waits, and two rows under
      one loss id are more than thirty days apart. */
  lemma LossReportedOnce(cfg: Config, t: Time, es: seq<Event>, s: Sys)
    requires Run(cfg, Start(t), es, s)
    ensures |s.a.droppedIDs| <= 1
    ensures forall id :: id in s.h.losses ==> s.h.losses[id] in s.h.dropped
    ensures forall msg :: msg in s.h.sent && msg.batch.dropped > 0 ==>
      ReportOf(s.h.losses, msg.batch.lossID, msg.batch.droppedIDs, msg.batch.droppedDigests)
    ensures forall r :: r in Contents(s.chain.rows) && r.LossRow? ==> ReportOf(s.h.losses, r.lossID, r.ids, r.digests)
    ensures forall i, j | 0 <= i < j < |s.chain.rows| && s.chain.rows[i].row.LossRow? && s.chain.rows[j].row.LossRow? ::
      s.chain.rows[i].row.lossID == s.chain.rows[j].row.lossID ==>
        s.chain.rows[j].at - s.chain.rows[i].at > ONCE_RETENTION
  {
    hide Run, QueueInv, CapacityInv, DropInv, Contents;
    Reachable(cfg, t, es, s);
    assert OncePerRetention(s.chain);
    assert forall msg :: msg in s.h.sent ==> ReportOK(s.h.losses, msg.batch);
    assert forall r :: r in Contents(s.chain.rows) ==> LossRowOK(s.h.losses, r);
  }

  /** No drop is silent unless a crash makes it so: a discarded decision has a loss id
      whose report waits, is in the chain, or was waiting when the agent crashed. */
  lemma DropsAreReported(cfg: Config, t: Time, es: seq<Event>, s: Sys, q: Queued) returns (id: string)
    requires Run(cfg, Start(t), es, s) && q in s.h.dropped
    ensures id in s.h.losses && s.h.losses[id] == q
    ensures Waits(s.a, id) || LossInChain(s.chain, id) || id in s.h.forgotten
  {
    hide Run, Inv, CapacityInv, LossInv, DropInv, LossInChain;
    Reachable(cfg, t, es, s);
    id :| id in s.h.losses && s.h.losses[id] == q;
  }

  predicate DeliversLoss(e: Event, id: string) { e.DeliverLoss? && e.msg.batch.lossID == id }

  ghost predicate LossDelivered(es: seq<Event>, id: string) {
    exists i :: 0 <= i < |es| && DeliversLoss(es[i], id)
  }

  /** A loss gets into the chain by the delivery of one of its reports and no other way. */
  lemma LossInChainStep(cfg: Config, s: Sys, e: Event, id: string)
    requires Inv(s) && LossInv(s) && Enabled(cfg, s, e)
    ensures LossInChain(Next(cfg, s, e).chain, id) <==> LossInChain(s.chain, id) || DeliversLoss(e, id)
  {
    hide QueueInv, SentInv, LossInv, InOrder, Remembers, OncePerRetention, TableExact, Contents;
    match e
    case Deliver(msg, i, now) => RowLosses(s.chain, RowFor(msg.batch, i), now, id);
    case DeliverLoss(msg, now) => RowLosses(s.chain, LossRowFor(msg.batch), now, id);
    case _ =>
  }

  lemma RowLosses(c: Chain, r: Row, now: Time, id: string)
    requires Keyed(r) && OnceValid(c)
    ensures LossInChain(AppendOnce(c, r, now), id) <==> LossInChain(c, id) || (r.LossRow? && r.lossID == id)
  {
    hide Contents;
    var c' := AppendOnce(c, r, now);
    AppendContents(c, r, now);
    AppendRecords(c, r, now);
    if c'.rows != c.rows { ContentsAppend(c.rows, c'.rows[|c.rows|]); }
  }

  lemma {:induction false} LossInChainIff(cfg: Config, s: Sys, es: seq<Event>, s': Sys, id: string)
    requires AllInv(cfg, s) && Run(cfg, s, es, s')
    ensures LossInChain(s'.chain, id) <==> LossInChain(s.chain, id) || LossDelivered(es, id)
    decreases |es|
  {
    hide Inv, CapacityInv, LossInv, ReportInv, DropInv, Enabled, Next, LossInChain;
    if es != [] {
      var s1 := Next(cfg, s, es[0]);
      LossInChainStep(cfg, s, es[0], id);
      RunKeepsAll(cfg, s, [es[0]], s1);
      LossInChainIff(cfg, s1, es[1..], s', id);
      DeliveredHeadOrTail(es, id);
    }
  }

  lemma DeliveredHeadOrTail(es: seq<Event>, id: string)
    requires es != []
    ensures LossDelivered(es, id) <==> DeliversLoss(es[0], id) || LossDelivered(es[1..], id)
  {
    if LossDelivered(es[1..], id) {
      var i :| 0 <= i < |es[1..]| && DeliversLoss(es[1..][i], id);
      assert DeliversLoss(es[i + 1], id);
    }
    if i :| 0 <= i < |es| && DeliversLoss(es[i], id) && i > 0 { assert es[1..][i - 1] == es[i]; }
  }

  /** The exact condition: a loss that does not wait any more is missing from the chain
      exactly when no copy of its report was ever delivered, and then its report was
      waiting when the agent crashed. */
  lemma UnreportedIff(cfg: Config, t: Time, es: seq<Event>, s: Sys, id: string)
    requires Run(cfg, Start(t), es, s) && id in s.h.losses && !Waits(s.a, id)
    ensures !LossInChain(s.chain, id) <==> !LossDelivered(es, id)
    ensures !LossDelivered(es, id) ==> id in s.h.forgotten
  {
    hide Run, Inv, CapacityInv, LossInv, DropInv;
    assert AllInv(cfg, Start(t)) by { AtStart(cfg, t); }
    LossInChainIff(cfg, Start(t), es, s, id);
    Reachable(cfg, t, es, s);
  }

  lemma AtStart(cfg: Config, t: Time)
    ensures AllInv(cfg, Start(t))
  {
    assert Run(cfg, Start(t), [], Start(t));
    Reachable(cfg, t, [], Start(t));
  }

  lemma {:induction false} OnlyCrashesForget(cfg: Config, s: Sys, es: seq<Event>, s': Sys)
    requires Run(cfg, s, es, s') && forall i :: 0 <= i < |es| ==> !es[i].Crash?
    ensures s'.h.forgotten == s.h.forgotten
    decreases |es|
  {
    if es != [] {
      assert forall i :: 0 <= i < |es[1..]| ==> es[1..][i] == es[i + 1];
      ForgetStep(cfg, s, es[0]);
      hide Next, Enabled;
      OnlyCrashesForget(cfg, Next(cfg, s, es[0]), es[1..], s');
    }
  }

  lemma ForgetStep(cfg: Config, s: Sys, e: Event)
    requires Enabled(cfg, s, e) && !e.Crash?
    ensures Next(cfg, s, e).h.forgotten == s.h.forgotten
  {
    hide AppendOnce, AfterOutcome, NextBatch, Housekept, Parse;
  }

  /** Over any stretch of a run without a crash, the report of every loss made in it
      waits or is in the chain. */
  lemma StretchReportsItsLosses(cfg: Config, t: Time, before: seq<Event>, s: Sys, es: seq<Event>, s': Sys, id: string)
    requires Run(cfg, Start(t), before, s) && Run(cfg, s, es, s') && (forall i :: 0 <= i < |es| ==> !es[i].Crash?)
    requires id in s'.h.losses && id !in s.h.losses
    ensures Waits(s'.a, id) || LossInChain(s'.chain, id)
  {
    hide Run, Inv, CapacityInv, LossInv, DropInv, LossInChain;
    Reachable(cfg, t, before, s);
    RunKeepsAll(cfg, s, es, s');
    OnlyCrashesForget(cfg, s, es, s');
  }

  /** A conflict row is never about a decision: only one loss resent under another
      bundle revision leaves one. */
  lemma ConflictsOnlyFromLossRevisions(cfg: Config, t: Time, es: seq<Event>, s: Sys, p: nat)
    requires Run(cfg, Start(t), es, s) && p < |s.chain.rows| && s.chain.rows[p].row.ConflictRow?
    ensures var r := s.chain.rows[p].row;
      && r.key.LossKey? && r.recorded.LossRow? && r.resent.LossRow?
      && r.recorded == r.resent.(revision := r.recorded.revision) && r.recorded.revision != r.resent.revision
  {
    Reachable(cfg, t, es, s);
    ContentsAt(s.chain.rows, p);
    assert ConflictOK(s.h.losses, s.chain.rows[p].row);
  }

  function HeadRevision(a: Agent): string { if a.pending == [] then "" else a.pending[0].revision }

  /** A waiting report goes out unchanged exactly while the queue's head keeps its
      revision; a decision arriving behind an empty queue already changes it. */
  lemma ReportFollowsHead(a: Agent, b: Agent, q: Queued)
    requires a.droppedIDs != [] && b.droppedIDs == a.droppedIDs
    requires b.droppedDigests == a.droppedDigests && b.lossID == a.lossID
    ensures NextBatch(a) == NextBatch(b) <==> HeadRevision(a) == HeadRevision(b)
    ensures a.pending == [] && a.reserved > 0 && q.revision != "" ==> NextBatch(Enqueue(a, q)) != NextBatch(a)
  {
  }

  /** A process drops at most three decisions between acknowledged batches and ten in
      any hour; counted across restarts, three more for each start. */
  lemma DropsAreBounded(cfg: Config, t: Time, es: seq<Event>, s: Sys)
    requires Run(cfg, Start(t), es, s)
    ensures s.h.sinceAck <= 3 && s.h.unacked <= 3 * (s.h.starts + 1)
    ensures forall i :: 0 <= i && i + 10 < |s.h.drops| ==> s.h.drops[i + 10] - s.h.drops[i] >= HOUR
  {
    Reachable(cfg, t, es, s);
  }

  lemma BufferNeverOverruns(cfg: Config, t: Time, es: seq<Event>, s: Sys)
    requires Run(cfg, Start(t), es, s)
    ensures s.a.reserved == |s.evals|
    ensures |s.a.pending| + |s.evals| <= Max(cfg.bufferSize, s.restored)
  {
    Reachable(cfg, t, es, s);
  }

  // ---- Isolation ----------------------------------------------------------

  /** The control plane takes this decision when it is sent alone. */
  predicate Acceptable(q: Queued) {
    WellFormed(q.raw) && BodyBytes(q.revision, [q.raw]) <= MAX_BODY_BYTES
  }

  /** A batch within the agent's limits is refused as sent exactly when some
      member would be refused alone. */
  lemma BatchRefusedIff(a: Agent)
    requires a.pending != [] && a.droppedIDs == [] && a.droppedDigests == [] && Limit(a) <= MAX_BATCH_DECISIONS
    requires 36 + |a.pending[0].revision| <= MAX_BODY_BYTES - MAX_BATCH_BYTES
    ensures Refusal(true, NextBatch(a)).Some? <==>
      exists i :: 0 <= i < BatchLen(a) <= |a.pending| && !Acceptable(a.pending[i])
    ensures Refusal(true, NextBatch(a)).Some? ==> Refusal(true, NextBatch(a)).value in {BAD_REQUEST, TOO_LARGE}
  {
    BatchShape(a);
    var n, b := BatchLen(a), NextBatch(a);
    assert ValidLossReport(b);
    forall i | 0 <= i < n ensures b.decisions[i] == a.pending[i].raw && b.decisions[i] in b.decisions {}
    if n == 1 { assert b.decisions == [a.pending[0].raw]; }
    forall i | 0 <= i < n ensures n > 1 ==> BodyBytes(b.revision, [b.decisions[i]]) <= MAX_BODY_BYTES {
      MemberFits(b.decisions, i);
      assert DecisionBytes([b.decisions[i]]) == b.decisions[i].rawLen + 1;
    }
    if i :| 0 <= i < n && !Acceptable(a.pending[i]) {
      assert Refusal(true, b).Some?;
    } else {
      forall d | d in b.decisions ensures WellFormed(d) {
        var i :| 0 <= i < n && b.decisions[i] == d;
        assert Acceptable(a.pending[i]);
      }
      assert n == 1 ==> Acceptable(a.pending[0]);
    }
  }

  /** The reply is one the control plane's recorder gives to this batch. */
  ghost predicate FromRecorder(b: Batch, r: Reply) {
    exists authorized: bool, fault: nat :: r == ReplyTo(authorized, b, fault)
  }

  /** Every reply in the run comes from the recorder. */
  ghost predicate AgainstRecorder(cfg: Config, s: Sys, es: seq<Event>)
    decreases |es|
  {
    es != [] ==>
      && Enabled(cfg, s, es[0])
      && (es[0].Receive? && es[0].o.Answered? ==> FromRecorder(s.flight.value.batch, es[0].o.reply))
      && AgainstRecorder(cfg, Next(cfg, s, es[0]), es[1..])
  }

  /** A decision is discarded only when it was sent alone and refused as sent. */
  lemma DiscardedAlone(s: Sys, o: Outcome, t1: Time)
    requires s.flight.Some? && s.up && Inv(s) && LossInv(s)
    requires o.Answered? ==> FromRecorder(s.flight.value.batch, o.reply)
    requires Discards(s.a, |s.flight.value.items|, o, t1).Some?
    ensures var q := Discards(s.a, |s.flight.value.items|, o, t1).value; s.flight.value.items == [q] && !Acceptable(q)
  {
    hide QueueInv, ChainInv;
    var msg := s.flight.value;
    var authorized: bool, fault: nat :| o.reply == ReplyTo(authorized, msg.batch, fault);
    assert MessageOK(s, msg);
    assert |msg.items| == 1;
    var q := msg.items[0];
    assert msg.items == [q] && msg.batch.decisions == [q.raw];
    assert q in msg.items;
    assert ReportOK(s.h.losses, msg.batch);
    assert forall d :: d in msg.batch.decisions ==> d == q.raw;
  }

  ghost predicate OnlyUnacceptableDropped(s: Sys) {
    forall q :: q in s.h.dropped ==> !Acceptable(q)
  }

  lemma {:induction false} RecorderRunIsolates(cfg: Config, s: Sys, es: seq<Event>, s': Sys)
    requires AllInv(cfg, s) && OnlyUnacceptableDropped(s) && Run(cfg, s, es, s') && AgainstRecorder(cfg, s, es)
    ensures OnlyUnacceptableDropped(s')
    decreases |es|
  {
    hide Inv, CapacityInv, LossInv, ReportInv, DropInv, Enabled;
    hide Next, Acceptable, OnlyUnacceptableDropped, FromRecorder;
    if es != [] {
      var s1 := Next(cfg, s, es[0]);
      RunKeepsAll(cfg, s, [es[0]], s1);
      IsolationStep(cfg, s, es[0]);
      RecorderRunIsolates(cfg, s1, es[1..], s');
    }
  }

  lemma IsolationStep(cfg: Config, s: Sys, e: Event)
    requires AllInv(cfg, s) && OnlyUnacceptableDropped(s) && Enabled(cfg, s, e)
    requires e.Receive? && e.o.Answered? ==> FromRecorder(s.flight.value.batch, e.o.reply)
    ensures OnlyUnacceptableDropped(Next(cfg, s, e))
  {
    hide Inv, CapacityInv, LossInv, ReportInv, DropInv, Acceptable;
    hide Honest, AppendOnce, NextBatch, AfterOutcome, FromRecorder;
    if e.Receive? && Discards(s.a, |s.flight.value.items|, e.o, e.t1).Some? {
      DiscardedAlone(s, e.o, e.t1);
    }
  }

  /** Against the control plane's recorder every acceptable answered decision is
      in the chain or still on its way, and the acceptable decisions ahead of the
      head of the queue are all recorded. */
  lemma AcceptableNeverDropped(cfg: Config, t: Time, es: seq<Event>, s: Sys, q: Queued)
    requires Run(cfg, Start(t), es, s) && AgainstRecorder(cfg, Start(t), es) && q in s.h.answered && Acceptable(q)
    ensures RowOf(q) in Contents(s.chain.rows) || q in (if s.up then s.a.pending else s.entries)
    ensures s.a.pending != [] && Before(s.h.order, q, s.a.pending[0]) ==> RowOf(q) in Contents(s.chain.rows)
  {
    hide AllInv, Acceptable;
    StartInv(t);
    assert AllInv(cfg, Start(t)) by { Reachable(cfg, t, [], Start(t)); }
    RecorderRunIsolates(cfg, Start(t), es, s);
    NothingLost(cfg, t, es, s, q);
    if s.a.pending != [] && Before(s.h.order, q, s.a.pending[0]) {
      var i, j :| 0 <= i < j < |s.h.order| && s.h.order[i] == q && s.h.order[j] == s.a.pending[0];
      AheadOfTheHead(cfg, t, es, s, i, j);
    }
  }

  ghost predicate Before(order: seq<Queued>, p: Queued, q: Queued) {
    exists i, j :: 0 <= i < j < |order| && order[i] == p && order[j] == q
  }

  // ---- The recorder's handler is a run of deliveries ---------------------

  function Deliveries(msg: Message, n: nat, clock: nat -> Time): (es: seq<Event>)
    ensures |es| == n
  {
    if n == 0 then [] else Deliveries(msg, n - 1, clock) + [Deliver(msg, n - 1, clock(n - 1))]
  }

  lemma {:induction false} RunThen(cfg: Config, s: Sys, es: seq<Event>, mid: Sys, e: Event)
    requires Run(cfg, s, es, mid) && Enabled(cfg, mid, e)
    ensures Run(cfg, s, es + [e], Next(cfg, mid, e))
    decreases |es|
  {
    hide Enabled, Next;
    if es == [] {
      assert ([] + [e])[1..] == [];
      assert Run(cfg, Next(cfg, mid, e), [], Next(cfg, mid, e));
    } else {
      RunThen(cfg, Next(cfg, s, es[0]), es[1..], mid, e);
      assert (es + [e])[1..] == es[1..] + [e];
    }
  }

  /** Appending a batch in one handler is the deliveries of its decisions in turn. */
  lemma {:induction false} HandlerIsDeliveries(cfg: Config, s: Sys, msg: Message, n: nat, clock: nat -> Time)
    requires Inv(s) && msg in s.h.sent && Refusal(true, msg.batch).None? && n <= |msg.batch.decisions|
    requires forall i, j :: 0 <= i <= j ==> s.chainClock <= clock(i) <= clock(j)
    ensures Run(cfg, s, Deliveries(msg, n, clock),
                s.(chain := AppendPrefix(s.chain, msg.batch, n, clock),
                   chainClock := if n == 0 then s.chainClock else clock(n - 1)))
    ensures Took(AppendPrefix(s.chain, msg.batch, n, clock), msg.batch, n)
  {
    hide Inv, AppendOnce, Refusal, Recorded;
    if n > 0 {
      HandlerIsDeliveries(cfg, s, msg, n - 1, clock);
      var mid := s.(chain := AppendPrefix(s.chain, msg.batch, n - 1, clock),
                    chainClock := if n == 1 then s.chainClock else clock(n - 2));
      var e := Deliver(msg, n - 1, clock(n - 1));
      assert Enabled(cfg, mid, e);
      RunThen(cfg, s, Deliveries(msg, n - 1, clock), mid, e);
      RunKeeps(cfg, s, Deliveries(msg, n - 1, clock), mid);
      DeliveryTakes(cfg, mid, msg, n - 1, clock(n - 1));
    }
  }

  lemma DeliveryTakes(cfg: Config, s: Sys, msg: Message, i: nat, now: Time)
    requires Inv(s) && Enabled(cfg, s, Deliver(msg, i, now))
    ensures Took(AppendOnce(s.chain, RowFor(msg.batch, i), now), msg.batch, i + 1)
  {
    hide Covers, Complete, InOrder, Remembers, OncePerRetention, Contents;
    assert MessageOK(s, msg);
    assert RowFor(msg.batch, i) == RowOf(msg.items[i]) && msg.items[i] in s.h.order;
    NoConflict(s, msg.items[i]);
    AppendRecords(s.chain, RowFor(msg.batch, i), now);
    AppendContents(s.chain, RowFor(msg.batch, i), now);
  }

  // ---- Replies are honest in every reachable state -------------------------------

  /** The recorder can take every message ever sent. */
  lemma SentIsReady(s: Sys, msg: Message)
    requires Inv(s) && msg in s.h.sent
    ensures Ready(s.chain, msg.batch) && SameIDSameDecision(msg.batch)
  {
    hide Covers, Complete, InOrder, Remembers, OncePerRetention, TableExact;
    assert MessageOK(s, msg);
    forall i | 0 <= i < |msg.batch.decisions| ensures FreeFor(s.chain, RowFor(msg.batch, i)) {
      assert RowFor(msg.batch, i) == RowOf(msg.items[i]) && msg.items[i] in s.h.order;
      NoConflict(s, msg.items[i]);
    }
    forall i, j | 0 <= i < j < |msg.items| && msg.items[i].raw.id == msg.items[j].raw.id
      ensures msg.items[i] == msg.items[j]
    {
      assert msg.items[i] in s.h.order && msg.items[j] in s.h.order;
      IdsIdentify(s.h.order, msg.items[i], msg.items[j]);
    }
  }

  /** Whatever the recorder answers to a message of a reachable state, the chain it
      leaves bears the answer out: the replies the runs allow include all of its own. */
  lemma RecorderIsHonest(cfg: Config, t: Time, es: seq<Event>, s: Sys, msg: Message, authorized: bool,
                         clock: nat -> Time, fault: nat)
    requires Run(cfg, Start(t), es, s) && msg in s.h.sent
    ensures Honest(ChainAfter(s.chain, authorized, msg.batch, clock, fault), msg.batch,
                   ReplyTo(authorized, msg.batch, fault))
  {
    hide Run, Inv, Honest, ChainAfter, ReplyTo;
    Reachable(cfg, t, es, s);
    SentIsReady(s, msg);
    RepliesAreHonest(s.chain, authorized, msg.batch, clock, fault);
  }

  /** So does a chain other handlers append to in between: an answer is borne out after
      the delivery it follows, and no later step undoes that. */
  lemma DeliveryIsHonest(cfg: Config, s: Sys, msg: Message, i: nat, now: Time)
    requires Inv(s) && Enabled(cfg, s, Deliver(msg, i, now)) && msg.batch.dropped == 0
    ensures var c := Next(cfg, s, Deliver(msg, i, now)).chain;
      && Honest(c, msg.batch, Reply(SERVER_ERROR, true, i + 1))
      && (i + 1 == |msg.batch.decisions| ==> Honest(c, msg.batch, Reply(OK, true, i + 1)))
  {
    hide Inv, AppendOnce, Refusal;
    DeliveryTakes(cfg, s, msg, i, now);
  }

  lemma LossDeliveryIsHonest(cfg: Config, s: Sys, msg: Message, now: Time)
    requires Inv(s) && Enabled(cfg, s, DeliverLoss(msg, now))
    ensures Honest(Next(cfg, s, DeliverLoss(msg, now)).chain, msg.batch, Reply(OK, true, 0))
  {
    hide Inv, Honest, AppendOnce;
    SentIsReady(s, msg);
    RepliesAreHonest(s.chain, true, msg.batch, (k: nat) => now, 1);
  }

  lemma {:induction false} HonestyOutlastsRuns(cfg: Config, s: Sys, es: seq<Event>, s': Sys, b: Batch, r: Reply)
    requires Run(cfg, s, es, s') && Honest(s.chain, b, r)
    ensures Honest(s'.chain, b, r)
    decreases |es|
  {
    if es != [] {
      HonestStep(cfg, s, es[0], b, r);
      hide Next, Enabled, Honest;
      HonestyOutlastsRuns(cfg, Next(cfg, s, es[0]), es[1..], s', b, r);
    }
  }

  lemma HonestStep(cfg: Config, s: Sys, e: Event, b: Batch, r: Reply)
    requires Enabled(cfg, s, e) && Honest(s.chain, b, r)
    ensures Honest(Next(cfg, s, e).chain, b, r)
  {
    match e
    case Deliver(msg, i, now) =>
      hide Honest;
      HonestyLasts(s.chain, RowFor(msg.batch, i), now, b, r);
    case DeliverLoss(msg, now) =>
      hide Honest;
      HonestyLasts(s.chain, LossRowFor(msg.batch), now, b, r);
    case OtherAppend(now) => SameRowsSameHonesty(s.chain, Housekept(s.chain, now), b, r);
    case ControlRestart => SameRowsSameHonesty(s.chain, s.chain.(triedAt := None), b, r);
    case Deletions(work) => SameRowsSameHonesty(s.chain, s.chain.(deletes := work), b, r);
    case _ => hide Honest;
  }

  lemma SameRowsSameHonesty(c: Chain, c': Chain, b: Batch, r: Reply)
    requires c'.rows == c.rows && Honest(c, b, r)
    ensures Honest(c', b, r)
  {
    if r.status == OK && b.dropped > 0 {
      var row :| LossRecorded(c, b, row);
      assert LossRecorded(c', b, row);
    }
  }

  // ---- Freshness ---------------------------------------------------------------

  /** A bundle refresh that nothing replaced: no later one, no crash, no restart. */
  ghost predicate LastSync(es: seq<Event>, i: int) {
    && 0 <= i < |es| && es[i].Sync?
    && forall j :: i < j < |es| ==> !es[j].Sync? && !es[j].Crash? && !es[j].Restart?
  }

  lemma OutcomeKeepsSync(a: Agent, n: nat, m: nat, o: Outcome, t1: Time, t2: Time, lossID: string)
    requires n <= |a.pending| && m <= |a.droppedIDs| && m <= |a.droppedDigests|
    ensures AfterOutcome(a, n, m, o, t1, t2, lossID).0.synced == a.synced
  {
    hide RecentDrops;
  }

  lemma SyncStep(cfg: Config, s: Sys, e: Event)
    requires Enabled(cfg, s, e)
    ensures Next(cfg, s, e).a.synced ==
      if e.Sync? then Some(e.now) else if e.Crash? || e.Restart? then None else s.a.synced
  {
    hide AppendOnce, AfterOutcome, NextBatch, Housekept, Parse, Honest, Refusal;
    if e.Receive? {
      var msg := s.flight.value;
      OutcomeKeepsSync(s.a, |msg.items|, |msg.batch.droppedIDs|, e.o, e.t1, e.t2, e.lossID);
    }
  }

  lemma {:induction false} RunSplitsLast(cfg: Config, s: Sys, es: seq<Event>, s': Sys) returns (mid: Sys)
    requires Run(cfg, s, es, s') && es != []
    ensures Run(cfg, s, es[..|es| - 1], mid) && Enabled(cfg, mid, es[|es| - 1])
    ensures s' == Next(cfg, mid, es[|es| - 1])
    decreases |es|
  {
    hide Enabled, Next;
    if |es| == 1 { mid := s; } else {
      mid := RunSplitsLast(cfg, Next(cfg, s, es[0]), es[1..], s');
      assert es[1..][..|es| - 2] == es[..|es| - 1][1..];
    }
  }

  lemma {:induction false} SyncedIff(cfg: Config, t: Time, es: seq<Event>, s: Sys, at: Time)
    requires Run(cfg, Start(t), es, s)
    ensures s.a.synced == Some(at) <==> exists i :: LastSync(es, i) && es[i].now == at
    decreases |es|
  {
    hide Next, Enabled;
    if es != [] {
      hide LastSync;
      var n := |es| - 1;
      var mid := RunSplitsLast(cfg, Start(t), es, s);
      SyncStep(cfg, mid, es[n]);
      SyncedIff(cfg, t, es[..n], mid, at);
      LastSyncSteps(es, at);
    }
  }

  lemma LastSyncSteps(es: seq<Event>, at: Time)
    requires es != []
    ensures var front, e := es[..|es| - 1], es[|es| - 1];
      (exists i :: LastSync(es, i) && es[i].now == at) <==>
        if e.Sync? then e.now == at
        else !e.Crash? && !e.Restart? && exists i :: LastSync(front, i) && front[i].now == at
  {
    var n := |es| - 1;
    if es[n].Sync? { assert LastSync(es, n); }
    if i :| LastSync(es[..n], i) && es[i].now == at && !es[n].Sync? && !es[n].Crash? && !es[n].Restart? {
      assert LastSync(es, i);
    }
    if i :| LastSync(es, i) && es[i].now == at && i < n { assert LastSync(es[..n], i); }
  }

  /** An evaluation is let in exactly while a slot is free and the last bundle refresh
      of this process is no older than the maximum age. */
  lemma LetInIff(cfg: Config, t: Time, es: seq<Event>, s: Sys, tid: nat, now: Time)
    requires Run(cfg, Start(t), es, s) && s.up && tid !in s.evals && s.clock <= now
    ensures Enabled(cfg, s, EvalBegin(tid, now)) <==>
      && |s.a.pending| + |s.evals| < cfg.bufferSize
      && exists i :: LastSync(es, i) && now - es[i].now <= cfg.maxAge
  {
    hide Inv, LossInv, ReportInv, DropInv, Run;
    BufferNeverOverruns(cfg, t, es, s);
    if s.a.synced.Some? { SyncedIff(cfg, t, es, s, s.a.synced.value); }
    forall i | LastSync(es, i) ensures s.a.synced == Some(es[i].now) { SyncedIff(cfg, t, es, s, es[i].now); }
  }

  // ---- What the chain stores -----------------------------------------------------

  ghost predicate StoresClean(c: Chain) {
    forall r :: r in Contents(c.rows) && r.DecisionRow? ==> WellFormed(r.decision)
  }

  lemma CleanAppend(c: Chain, r: Row, now: Time)
    requires Keyed(r) && StoresClean(c) && (r.DecisionRow? ==> WellFormed(r.decision))
    ensures StoresClean(AppendOnce(c, r, now))
  {
    hide Contents, WellFormed;
    var c' := AppendOnce(c, r, now);
    if c'.rows != c.rows { ContentsAppend(c.rows, c'.rows[|c.rows|]); }
  }

  lemma CleanStep(cfg: Config, s: Sys, e: Event)
    requires Enabled(cfg, s, e) && StoresClean(s.chain)
    ensures StoresClean(Next(cfg, s, e).chain)
  {
    hide AppendOnce, AfterOutcome, NextBatch, Contents, WellFormed, Parse, Honest;
    match e
    case Deliver(msg, i, now) =>
      assert msg.batch.decisions[i] in msg.batch.decisions;
      CleanAppend(s.chain, RowFor(msg.batch, i), now);
    case DeliverLoss(msg, now) => CleanAppend(s.chain, LossRowFor(msg.batch), now);
    case _ =>
  }

  lemma {:induction false} RunStoresClean(cfg: Config, s: Sys, es: seq<Event>, s': Sys)
    requires Run(cfg, s, es, s') && StoresClean(s.chain)
    ensures StoresClean(s'.chain)
    decreases |es|
  {
    hide Enabled, Next, StoresClean;
    if es != [] {
      CleanStep(cfg, s, es[0]);
      RunStoresClean(cfg, Next(cfg, s, es[0]), es[1..], s');
    }
  }

  /** Whatever an agent sends, a decision in the chain has an id of 1 to 128 bytes and a
      time, and of the caller's request id only plain characters or a digest. */
  lemma StoredDecisionsAreClean(cfg: Config, t: Time, es: seq<Event>, s: Sys, p: nat)
    requires Run(cfg, Start(t), es, s) && p < |s.chain.rows| && s.chain.rows[p].row.DecisionRow?
    ensures Storable(s.chain.rows[p].row.decision)
  {
    RunStoresClean(cfg, Start(t), es, s);
    ContentsAt(s.chain.rows, p);
    WellFormedIff(s.chain.rows[p].row.decision);
  }
}
