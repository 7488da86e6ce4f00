/** Runs that show where the usual reading of two promises fails: a decision recorded
    twice, and one loss that leaves a conflict row. */
module ShippingWitnesses {
  import opened Decisions
  import opened AuditChain
  import opened ControlPlane
  import opened LocalPdp
  import opened Shipping
  import opened ShippingTheorems

  const CFG := Config(HOUR, 10)

  ghost predicate Reached(s: Sys) { exists es :: Run(CFG, Start(0), es, s) }

  lemma Then(s: Sys, e: Event)
    requires Reached(s) && Enabled(CFG, s, e)
    ensures Reached(Next(CFG, s, e))
  {
    hide Enabled, Next;
    var es :| Run(CFG, Start(0), es, s);
    RunThen(CFG, Start(0), es, s, e);
  }

  /** An agent that has just started and synced. */
  const UP := Start(0).(up := true, a := FRESH.(synced := Some(0)), h := Start(0).h.(starts := 1))

  lemma StartsUp()
    ensures Reached(UP)
  {
    var s := Start(0);
    assert Run(CFG, s, [], s);
    assert SpoolFile(s) == [];
    Then(s, Restart);
    Then(Next(CFG, s, Restart), Sync(0));
    assert Next(CFG, Next(CFG, s, Restart), Sync(0)) == UP;
  }

  /** A quiet agent that can decide. */
  predicate Quiet(s: Sys) {
    && s.up && s.evals == {} && s.limbo.None? && s.a.reserved == 0
    && s.a.synced == Some(0) && s.clock == 0 && |s.a.pending| < 10
  }

  function Decided(s: Sys, q: Queued): Sys {
    s.(a := s.a.(pending := s.a.pending + [q]), entries := s.entries + [q],
       h := s.h.(order := s.h.order + [q], answered := s.h.answered + {q}))
  }

  lemma Decides(s: Sys, q: Queued)
    requires Reached(s) && Quiet(s) && FreshID(s, q)
    ensures Reached(Decided(s, q))
  {
    hide Run, Reached;
    Then(s, EvalBegin(0, 0));
    var s1 := Next(CFG, s, EvalBegin(0, 0));
    Then(s1, EvalSpool(0, q));
    var s2 := Next(CFG, s1, EvalSpool(0, q));
    Then(s2, EvalQueue);
    assert Next(CFG, s2, EvalQueue) == Decided(s, q);
  }

  function Shipped(s: Sys, msg: Message): Sys { s.(flight := Some(msg), h := s.h.(sent := s.h.sent + {msg})) }

  /** The message of the one decision q, and the report of its loss. */
  function Alone(q: Queued): Message { Message([q], Batch(q.revision, [q.raw], 0, [], [], "")) }

  function Report(q: Queued, lossID: string, revision: string): Message {
    Message([], Batch(revision, [], 1, [q.id], [Sha256(q.raw)], lossID))
  }

  lemma Ships(s: Sys, msg: Message)
    requires Reached(s) && s.up && s.flight.None? && !Idle(s.a) && BatchLen(s.a) <= |s.a.pending|
    requires msg == Message(s.a.pending[..BatchLen(s.a)], NextBatch(s.a))
    ensures Reached(Shipped(s, msg))
  {
    hide Run, Reached, NextBatch, BatchLen;
    Then(s, Send);
  }

  lemma ShipsAlone(s: Sys, q: Queued)
    requires Reached(s) && s.up && s.flight.None? && s.a.pending == [q] && s.a.batchCap == 0
    requires s.a.droppedIDs == [] && s.a.droppedDigests == []
    ensures Reached(Shipped(s, Alone(q)))
  {
    hide Run, Reached, Extend;
    BatchShape(s.a);
    assert s.a.pending[..1] == [q] && Raws([q]) == [q.raw];
    Ships(s, Alone(q));
  }

  lemma ShipsReport(s: Sys, q: Queued, revision: string)
    requires Reached(s) && s.up && s.flight.None? && s.a.droppedIDs == [q.id] && s.a.droppedDigests == [Sha256(q.raw)]
    requires revision == if s.a.pending == [] then "" else s.a.pending[0].revision
    ensures Reached(Shipped(s, Report(q, s.a.lossID, revision)))
  {
    hide Run, Reached;
    assert s.a.pending[..0] == [] && Raws([]) == [];
    Ships(s, Report(q, s.a.lossID, revision));
  }

  // ---- A decision recorded twice -----------------------------------------------------

  /** Delivered, forgotten in a pruning more than the retention later, delivered again:
      the decision is in the chain twice. */
  lemma DecisionRecordedTwice(q: Queued, late: Time) returns (s: Sys)
    requires q.id == q.raw.id && WellFormed(q.raw) && BodyBytes(q.revision, [q.raw]) <= MAX_BODY_BYTES
    requires late > ONCE_RETENTION
    ensures Reached(s) && s.chain.rows == [Stamped(RowOf(q), 0), Stamped(RowOf(q), late)]
  {
    hide Run, Reached;
    StartsUp();
    Decides(UP, q);
    var s0, msg := Decided(UP, q), Alone(q);
    ShipsAlone(s0, q);
    s := Shipped(s0, msg);
    assert Refusal(true, msg.batch).None?;
    hide Refusal, WellFormed;
    Then(s, Deliver(msg, 0, 0));
    s := Next(CFG, s, Deliver(msg, 0, 0));
    assert s.chain.once == map[KeyOf(RowOf(q)) := Stamped(RowOf(q), 0)] && s.chain.triedAt == Some(0);
    Then(s, OtherAppend(late));
    s := Next(CFG, s, OtherAppend(late));
    Then(s, Deliver(msg, 0, late));
    s := Next(CFG, s, Deliver(msg, 0, late));
  }

  // ---- One loss, a conflict row ------------------------------------------------------

  /** An agent whose decision q was refused and dropped. */
  function Lossy(q: Queued, lossID: string): Sys {
    var s := Shipped(Decided(UP, q), Alone(q));
    s.(a := s.a.(pending := [], lossID := lossID, droppedIDs := [q.id], droppedDigests := [Sha256(q.raw)],
                 dropTimes := [0], removed := 1, dropStreak := 1),
       flight := None,
       h := s.h.(dropped := {q}, losses := map[lossID := q], drops := [0], sinceAck := 1, unacked := 1))
  }

  lemma LosesOne(q: Queued, lossID: string)
    requires q.id == q.raw.id && lossID != "" && Refusal(true, Alone(q).batch) == Some(BAD_REQUEST)
    ensures Reached(Lossy(q, lossID))
  {
    hide Run, Reached;
    StartsUp();
    Decides(UP, q);
    ShipsAlone(Decided(UP, q), q);
    var s := Shipped(Decided(UP, q), Alone(q));
    var e := Receive(Answered(ReplyTo(true, Alone(q).batch, 0)), 0, 0, lossID);
    assert e.o.reply == Reply(BAD_REQUEST, true, 0);
    hide Refusal;
    Then(s, e);
    assert s.a.pending == [q] && [q][1..] == [] && RecentDrops([], 0) == [];
    assert Next(CFG, s, e) == Lossy(q, lossID);
  }

  /** The report is delivered, its reply lost, a decision p arrives and the report goes
      out again under p's revision: the control plane writes a conflict row. */
  lemma ConflictIsWritten(q: Queued, p: Queued, lossID: string) returns (s: Sys)
    requires q.id == q.raw.id && p.id == p.raw.id && p.id != q.id && p.revision != ""
    requires 0 < |q.id| <= MAX_ID_BYTES && 0 < |lossID| <= MAX_ID_BYTES
    requires Refusal(true, Alone(q).batch) == Some(BAD_REQUEST)
    ensures Reached(s) && |s.chain.rows| == 2
    ensures s.chain.rows[1].row ==
      ConflictRow(LossKey(lossID), LossRowFor(Report(q, lossID, "").batch),
                  LossRowFor(Report(q, lossID, p.revision).batch))
  {
    hide Run, Reached;
    LosesOne(q, lossID);
    var s0, first, again := Lossy(q, lossID), Report(q, lossID, ""), Report(q, lossID, p.revision);
    assert Refusal(true, first.batch).None? && Refusal(true, again.batch).None?;
    hide Refusal;
    ShipsReport(s0, q, "");
    s := Shipped(s0, first);
    Then(s, DeliverLoss(first, 0));
    s := s.(chain := AppendOnce(EMPTY_CHAIN, LossRowFor(first.batch), 0));
    ReplyLost(s, "x" + lossID);
    s := s.(flight := None);
    Decides(s, p);
    s := Decided(s, p);
    ShipsReport(s, q, p.revision);
    s := Shipped(s, again);
    Then(s, DeliverLoss(again, 0));
    s := Next(CFG, s, DeliverLoss(again, 0));
  }

  lemma ReplyLost(s: Sys, lossID: string)
    requires Reached(s) && s.up && s.flight.Some? && SendReady(s, s.flight.value) && s.clock == 0
    requires lossID != "" && lossID !in s.h.losses
    ensures Reached(s.(flight := None))
  {
    hide Run, Reached;
    Then(s, Receive(Lost, 0, 0, lossID));
  }

  // ---- A loss nobody reports -----------------------------------------------------------

  /** A crash while the report waits leaves no trace of the dropped decision: nothing in
      the chain, nothing in the spool. */
  lemma LossForgottenByCrash(q: Queued, lossID: string) returns (s: Sys)
    requires q.id == q.raw.id && lossID != "" && Refusal(true, Alone(q).batch) == Some(BAD_REQUEST)
    ensures Reached(s) && q in s.h.answered && q in s.h.dropped && !s.up
    ensures s.chain.rows == [] && s.entries == [] && s.h.forgotten == {lossID}
  {
    hide Run, Reached, Refusal;
    LosesOne(q, lossID);
    var s0, report := Lossy(q, lossID), Report(q, lossID, "");
    ShipsReport(s0, q, "");
    s := Shipped(s0, report);
    ReplyLost(s, "x" + lossID);
    s := s.(flight := None);
    Then(s, Rewrite);
    s := Next(CFG, s, Rewrite);
    Then(s, Crash(false));
    s := Next(CFG, s, Crash(false));
  }
}
