/** The agent's own limits under every interleaving: buffer slots, the one drop
    that may wait to be reported, and how many drops there can be. */
module ShippingLimits {
  import opened Decisions
  import opened AuditChain
  import opened ControlPlane
  import opened LocalPdp
  import opened Coverage
  import opened Shipping
  import opened ShippingInvariant

  function Max(a: nat, b: nat): nat { if a < b then b else a }

  // ---- Buffer slots -------------------------------------------------------

  /** Slots held are evaluations in flight, and queue and slots together stay
      within the buffer, or within what a restart put back. */
  ghost predicate CapacityInv(cfg: Config, s: Sys) {
    && s.a.reserved == |s.evals|
    && (s.limbo.Some? ==> s.limbo.value.tid in s.evals)
    && |s.a.pending| + s.a.reserved <= Max(cfg.bufferSize, s.restored)
    && (!s.up ==> s.evals == {} && s.limbo.None? && s.a == FRESH)
  }

  lemma CapacityStep(cfg: Config, s: Sys, e: Event)
    requires CapacityInv(cfg, s) && Enabled(cfg, s, e)
    ensures CapacityInv(cfg, Next(cfg, s, e))
  {
    hide AppendOnce, Honest, NextBatch, AfterOutcome, Took, Refusal, Housekept, Parse;
    if e.Receive? {
      ReplyTakesPrefix(s.a, |s.flight.value.items|, |s.flight.value.batch.droppedIDs|, e.o, e.t1, e.t2, e.lossID);
    }
  }

  /** A running evaluation holds a slot, so giving it back or queueing is never refused. */
  lemma SlotHeld(cfg: Config, s: Sys, tid: nat)
    requires CapacityInv(cfg, s) && tid in s.evals
    ensures s.a.reserved > 0
  {
  }

  // ---- The waiting drop ---------------------------------------------------

  /** The loss report for a dropped decision, whatever revision it goes out under. */
  predicate ReportOf(losses: map<string, Queued>, lossID: string, ids: seq<string>, digests: seq<Digest>) {
    && lossID in losses
    && ids == [losses[lossID].id]
    && digests == [Sha256(losses[lossID].raw)]
  }

  ghost predicate LossRowOK(losses: map<string, Queued>, r: Row) {
    r.LossRow? ==> ReportOf(losses, r.lossID, r.ids, r.digests)
  }

  /** A conflict row only ever comes from one loss reported under two revisions. */
  ghost predicate ConflictOK(losses: map<string, Queued>, r: Row) {
    r.ConflictRow? ==>
      && r.recorded.LossRow? && r.resent.LossRow?
      && LossRowOK(losses, r.recorded) && LossRowOK(losses, r.resent)
      && r.recorded.lossID == r.resent.lossID && r.recorded.revision != r.resent.revision
  }

  /** At most one drop waits, under a loss id that stands for it alone. */
  ghost predicate WaitingOK(a: Agent, losses: map<string, Queued>) {
    && Paired(a) && |a.droppedIDs| <= 1
    && (a.droppedIDs == [] <==> a.lossID == "")
    && (a.droppedIDs != [] ==> ReportOf(losses, a.lossID, a.droppedIDs, a.droppedDigests))
  }

  ghost predicate ReportOK(losses: map<string, Queued>, b: Batch) {
    if b.dropped > 0
    then b.decisions == [] && b.dropped == 1 && ReportOf(losses, b.lossID, b.droppedIDs, b.droppedDigests)
    else b.dropped == 0 && b.droppedIDs == [] && b.droppedDigests == [] && b.lossID == ""
  }

  /** The batch in flight reports exactly what waits, and carries decisions only when nothing does. */
  ghost predicate FlightOK(s: Sys) {
    s.flight.Some? ==>
      && s.flight.value.batch.droppedIDs == s.a.droppedIDs && s.flight.value.batch.dropped == |s.a.droppedIDs|
      && s.flight.value.batch.lossID == s.a.lossID
      && (s.flight.value.items == [] <==> s.a.droppedIDs != [])
  }

  ghost predicate LossInv(s: Sys) {
    && WaitingOK(s.a, s.h.losses) && FlightOK(s)
    && (forall msg :: msg in s.h.sent ==> ReportOK(s.h.losses, msg.batch))
    && (forall r :: r in Contents(s.chain.rows) ==> LossRowOK(s.h.losses, r) && ConflictOK(s.h.losses, r))
  }

  /** The chain has a report of this loss. */
  ghost predicate LossInChain(c: Chain, id: string) {
    exists r :: r in Contents(c.rows) && r.LossRow? && r.lossID == id
  }

  predicate Waits(a: Agent, id: string) { a.droppedIDs != [] && a.lossID == id }

  /** Every drop has a loss id, and its report waits, is in the chain, or was waiting
      at a crash. */
  ghost predicate ReportInv(s: Sys) {
    && (!s.up ==> s.a.droppedIDs == []) && s.h.forgotten <= s.h.losses.Keys
    && (forall q :: q in s.h.dropped ==> exists id :: id in s.h.losses && s.h.losses[id] == q)
    && (forall id :: id in s.h.losses ==>
          && s.h.losses[id] in s.h.dropped
          && (Waits(s.a, id) || LossInChain(s.chain, id) || id in s.h.forgotten))
  }

  lemma LossesOnlyGrow(losses: map<string, Queued>, id: string, q: Queued, r: Row, b: Batch)
    requires id !in losses
    ensures ReportOK(losses, b) ==> ReportOK(losses[id := q], b)
    ensures LossRowOK(losses, r) ==> LossRowOK(losses[id := q], r)
    ensures ConflictOK(losses, r) ==> ConflictOK(losses[id := q], r)
  {
  }

  lemma LossReceive(cfg: Config, s: Sys, e: Event)
    requires LossInv(s) && e.Receive? && Enabled(cfg, s, e)
    ensures LossInv(Next(cfg, s, e))
  {
    hide Honest, Contents, RecentDrops;
    var s' := Next(cfg, s, e);
    var n := |s.flight.value.items|;
    var gone := Discards(s.a, n, e.o, e.t1);
    if gone.Some? {
      assert s'.h.losses == s.h.losses[e.lossID := gone.value];
      forall msg | msg in s'.h.sent ensures ReportOK(s'.h.losses, msg.batch) {
        LossesOnlyGrow(s.h.losses, e.lossID, gone.value, DecisionRow(gone.value.raw, ""), msg.batch);
      }
      forall r | r in Contents(s'.chain.rows) ensures LossRowOK(s'.h.losses, r) && ConflictOK(s'.h.losses, r) {
        LossesOnlyGrow(s.h.losses, e.lossID, gone.value, r, s.flight.value.batch);
      }
    }
  }

  lemma LossDeliver(cfg: Config, s: Sys, e: Event)
    requires Inv(s) && LossInv(s) && (e.Deliver? || e.DeliverLoss?) && Enabled(cfg, s, e)
    ensures LossInv(Next(cfg, s, e))
  {
    hide QueueInv, Contents, Pruned;
    if e.Deliver? {
      assert MessageOK(s, e.msg);
      assert RowFor(e.msg.batch, e.i) == RowOf(e.msg.items[e.i]);
      assert e.msg.items[e.i] in s.h.order;
      NoConflict(s, e.msg.items[e.i]) by { assert QueueIdentified(s) by { IdentifiedOf(s); } }
      AppendContents(s.chain, RowFor(e.msg.batch, e.i), e.now);
    } else {
      LossAppend(s, e.msg.batch, e.now);
    }
  }

  ghost predicate QueueIdentified(s: Sys) { Identified(s.h.order) }

  lemma IdentifiedOf(s: Sys)
    requires QueueInv(s)
    ensures QueueIdentified(s)
  {
  }

  /** Appending a loss report adds its own row, or a conflict that names its revision. */
  lemma LossAppend(s: Sys, b: Batch, now: Time)
    requires LossInv(s) && OnceValid(s.chain) && ReportOK(s.h.losses, b) && b.dropped > 0
    ensures forall r :: r in Contents(AppendOnce(s.chain, LossRowFor(b), now).rows) ==>
      LossRowOK(s.h.losses, r) && ConflictOK(s.h.losses, r)
  {
  }

  lemma LossStep(cfg: Config, s: Sys, e: Event)
    requires Inv(s) && LossInv(s) && Enabled(cfg, s, e)
    ensures LossInv(Next(cfg, s, e))
  {
    hide LossInv, SentInv, ChainInv, Enabled, Next, Complete, Covers;
    match e
    case Receive(_, _, _, _) => LossReceive(cfg, s, e);
    case Deliver(_, _, _) => LossDeliver(cfg, s, e);
    case DeliverLoss(_, _) => LossDeliver(cfg, s, e);
    case _ =>
      if ChainOnly(e) { OthersKeepLosses(cfg, s, e); } else { LossQuiet(cfg, s, e); }
  }

  /** The steps that leave the rows of the chain and everything else alone. */
  predicate ChainOnly(e: Event) { e.OtherAppend? || e.ControlRestart? || e.Deletions? }

  lemma OthersKeepLosses(cfg: Config, s: Sys, e: Event)
    requires LossInv(s) && ChainOnly(e) && Enabled(cfg, s, e)
    ensures LossInv(Next(cfg, s, e))
  {
    hide Contents, Pruned;
  }

  lemma LossQuiet(cfg: Config, s: Sys, e: Event)
    requires s.up || s.flight.None?
    requires LossInv(s) && Enabled(cfg, s, e) && !e.Receive? && !e.Deliver? && !e.DeliverLoss? && !ChainOnly(e)
    ensures LossInv(Next(cfg, s, e))
  {
    hide Contents;
    if e.Send? { BatchShape(s.a); }
  }

  // ---- Every drop is reported -----------------------------------------------

  lemma ReportReceive(cfg: Config, s: Sys, e: Event)
    requires LossInv(s) && ReportInv(s) && e.Receive? && Enabled(cfg, s, e)
    ensures ReportInv(Next(cfg, s, e))
  {
    hide Contents, RecentDrops;
    var s' := Next(cfg, s, e);
    var gone := Discards(s.a, |s.flight.value.items|, e.o, e.t1);
    if gone.Some? {
      assert s.a.droppedIDs == [];
      assert s'.h.losses == s.h.losses[e.lossID := gone.value] && Waits(s'.a, e.lossID);
      forall q | q in s'.h.dropped ensures exists id :: id in s'.h.losses && s'.h.losses[id] == q {
        if q == gone.value {
          assert s'.h.losses[e.lossID] == q;
        } else {
          var id :| id in s.h.losses && s.h.losses[id] == q;
          assert s'.h.losses[id] == q;
        }
      }
    } else if s.a.droppedIDs != [] && s'.a.droppedIDs == [] {
      var row :| LossRecorded(s.chain, s.flight.value.batch, row);
      assert LossInChain(s.chain, s.a.lossID);
    }
  }

  lemma ReportGrows(c: Chain, c': Chain, id: string)
    requires Contents(c.rows) <= Contents(c'.rows) && LossInChain(c, id)
    ensures LossInChain(c', id)
  {
  }

  lemma ReportDeliver(cfg: Config, s: Sys, e: Event)
    requires ReportInv(s) && (e.Deliver? || e.DeliverLoss? || ChainOnly(e)) && Enabled(cfg, s, e)
    ensures ReportInv(Next(cfg, s, e))
  {
    hide Contents, AppendOnce, LossInChain, Took, Refusal;
    var s' := Next(cfg, s, e);
    assert Contents(s.chain.rows) <= Contents(s'.chain.rows) by {
      match e
      case Deliver(msg, i, now) => AppendContents(s.chain, RowFor(msg.batch, i), now);
      case DeliverLoss(msg, now) => AppendContents(s.chain, LossRowFor(msg.batch), now);
      case _ =>
    }
    forall id | id in s.h.losses && LossInChain(s.chain, id) ensures LossInChain(s'.chain, id) {
      ReportGrows(s.chain, s'.chain, id);
    }
  }

  lemma ReportStep(cfg: Config, s: Sys, e: Event)
    requires LossInv(s) && ReportInv(s) && Enabled(cfg, s, e)
    ensures ReportInv(Next(cfg, s, e))
  {
    if e.Receive? {
      ReportReceive(cfg, s, e);
    } else if e.Deliver? || e.DeliverLoss? || ChainOnly(e) {
      ReportDeliver(cfg, s, e);
    } else {
      ReportQuiet(cfg, s, e);
    }
  }

  lemma ReportQuiet(cfg: Config, s: Sys, e: Event)
    requires LossInv(s) && ReportInv(s) && Enabled(cfg, s, e)
    requires !e.Receive? && !e.Deliver? && !e.DeliverLoss? && !ChainOnly(e)
    ensures ReportInv(Next(cfg, s, e))
  {
    hide LossInChain, Parse, NextBatch;
  }

  // ---- How many drops -----------------------------------------------------

  ghost predicate Sorted(t: seq<Time>) { forall i, j :: 0 <= i <= j < |t| ==> t[i] <= t[j] }

  /** Any eleven drops in a row span at least an hour. */
  ghost predicate Spaced(drops: seq<Time>) {
    forall i :: 0 <= i && i + MAX_DROPS_PER_HOUR < |drops| ==> drops[i + MAX_DROPS_PER_HOUR] - drops[i] >= HOUR
  }

  /** `recent` is what is left of `drops` after forgetting some an hour old. */
  ghost predicate Remembered(drops: seq<Time>, recent: seq<Time>, clock: Time) {
    && |recent| <= |drops| && recent == drops[|drops| - |recent|..]
    && (forall i :: 0 <= i < |drops| - |recent| ==> drops[i] <= clock - HOUR)
    && (forall i :: 0 <= i < |drops| ==> drops[i] <= clock)
    && Sorted(drops)
  }

  lemma {:induction false} RecentIsSuffix(t: seq<Time>, now: Time)
    requires Sorted(t)
    ensures var r := RecentDrops(t, now);
      && |r| <= |t| && r == t[|t| - |r|..]
      && forall i :: 0 <= i < |t| - |r| ==> t[i] <= now - HOUR
  {
    if t != [] {
      var front, last := t[..|t| - 1], t[|t| - 1];
      RecentIsSuffix(front, now);
      var r, cut := RecentDrops(front, now), |front| - |RecentDrops(front, now)|;
      assert t == front + [last];
      assert RecentDrops(t, now) == if last > now - HOUR then r + [last] else r;
      hide RecentDrops;
      if last > now - HOUR {
        SuffixGrows(front, last, cut);
        assert forall i :: 0 <= i < cut ==> t[i] == front[i];
      } else {
        assert forall i :: 0 <= i < |front| ==> front[i] == t[i] <= last;
        OldForgotten(front, now);
        assert t[|t|..] == [];
      }
    }
  }

  lemma SuffixGrows(front: seq<Time>, last: Time, cut: nat)
    requires cut <= |front|
    ensures (front + [last])[cut..] == front[cut..] + [last]
  {
  }

  lemma {:induction false} OldForgotten(t: seq<Time>, now: Time)
    requires forall i :: 0 <= i < |t| ==> t[i] <= now - HOUR
    ensures RecentDrops(t, now) == []
  {
    if t != [] { OldForgotten(t[..|t| - 1], now); }
  }

  lemma ForgettingRemembers(drops: seq<Time>, recent: seq<Time>, clock: Time, now: Time)
    requires Remembered(drops, recent, clock) && clock <= now
    ensures Remembered(drops, RecentDrops(recent, now), now)
  {
    RecentIsSuffix(recent, now);
    var r := RecentDrops(recent, now);
    var cut := |drops| - |recent|;
    assert forall i :: 0 <= i < |recent| ==> recent[i] == drops[cut + i];
    forall i | 0 <= i < |drops| - |r| ensures drops[i] <= now - HOUR {
      if i >= cut { assert recent[i - cut] == drops[i]; }
    }
  }

  lemma DropKeepsSpacing(drops: seq<Time>, recent: seq<Time>, t1: Time, t2: Time)
    requires Spaced(drops) && Remembered(drops, recent, t1) && t1 <= t2 && |recent| < MAX_DROPS_PER_HOUR
    ensures Spaced(drops + [t2]) && Remembered(drops + [t2], recent + [t2], t2)
  {
  }

  ghost predicate DropInv(s: Sys) {
    && Spaced(s.h.drops)
    && (s.up ==> Remembered(s.h.drops, s.a.dropTimes, s.clock) && s.a.dropStreak == s.h.sinceAck)
    && s.h.sinceAck <= MAX_DROP_STREAK
    && s.h.unacked <= MAX_DROP_STREAK * s.h.starts + s.h.sinceAck
  }

  lemma DropReceive(cfg: Config, s: Sys, o: Outcome, t1: Time, t2: Time, lossID: string)
    requires DropInv(s) && Enabled(cfg, s, Receive(o, t1, t2, lossID))
    ensures DropInv(Next(cfg, s, Receive(o, t1, t2, lossID)))
  {
    hide Honest, NextBatch, Spaced, Sorted, Remembered, RecentDrops;
    var n := |s.flight.value.items|;
    RememberedLater(s.h.drops, s.a.dropTimes, s.clock, t1);
    RememberedLater(s.h.drops, s.a.dropTimes, t1, t2);
    ForgettingRemembers(s.h.drops, s.a.dropTimes, s.clock, t1);
    RememberedLater(s.h.drops, RecentDrops(s.a.dropTimes, t1), t1, t2);
    if Discards(s.a, n, o, t1).Some? {
      DropKeepsSpacing(s.h.drops, RecentDrops(s.a.dropTimes, t1), t1, t2);
    }
  }

  lemma DropStep(cfg: Config, s: Sys, e: Event)
    requires DropInv(s) && Enabled(cfg, s, e)
    ensures DropInv(Next(cfg, s, e))
  {
    hide Honest, AppendOnce, NextBatch, Spaced, Sorted, Remembered, Received, Refusal;
    if e.Receive? {
      DropReceive(cfg, s, e.o, e.t1, e.t2, e.lossID);
    } else if e.EvalBegin? || e.Sync? {
      RememberedLater(s.h.drops, s.a.dropTimes, s.clock, e.now);
    } else if e.Restart? {
      EmptySpaced(s.clock);
    }
  }

  lemma EmptySpaced(clock: Time)
    ensures Spaced([]) && Remembered([], [], clock)
  {
  }

  lemma RememberedLater(drops: seq<Time>, recent: seq<Time>, clock: Time, now: Time)
    requires Remembered(drops, recent, clock) && clock <= now
    ensures Remembered(drops, recent, now)
  {
  }
}
