/** Every step of the shipping protocol keeps its invariant. */
module ShippingInvariant {
  import opened Decisions
  import opened AuditChain
  import opened ControlPlane
  import opened LocalPdp
  import opened Coverage
  import opened Shipping

  lemma SpoolKeeps(cfg: Config, s: Sys, tid: nat, q: Queued)
    requires Inv(s) && Enabled(cfg, s, EvalSpool(tid, q))
    ensures Inv(Next(cfg, s, EvalSpool(tid, q)))
  {
    var s' := Next(cfg, s, EvalSpool(tid, q));
    var order, done := s.h.order, Done(s);
    assert q !in order;
    assert done <= Done(s');
    CoversLater(order, s.a.pending, done, q);
    CoversMore(s'.h.order, s.a.pending, done, Done(s'));
    CoversPush(order, s.entries, done, q);
    CoversMore(s'.h.order, s'.entries, done, Done(s'));
    assert s'.h.order[..|order|] == order;
    forall msg | msg in s'.h.sent ensures MessageOK(s', msg) {
      CoversLater(order, msg.items, done, q);
      CoversMore(s'.h.order, msg.items, done, Done(s'));
    }
    NewDecisionUnrecorded(s, q);
    forall r | r in Contents(s.chain.rows) && r.DecisionRow? ensures FromOrder(s'.h.order, r) {
      var p :| p in order && RowOf(p) == r;
      assert p in s'.h.order;
    }
  }

  /** Queueing a fresh decision leaves the chain in order: none of its rows is of it. */
  lemma NewDecisionUnrecorded(s: Sys, q: Queued)
    requires Identified(s.h.order) && ChainInv(s) && FreshID(s, q)
    ensures RowOf(q) !in Contents(s.chain.rows)
    ensures InOrder(s.h.order + [q], s.chain.rows, s.h.dropped)
  {
    if RowOf(q) in Contents(s.chain.rows) {
      assert false;
    }
    var order := s.h.order + [q];
    forall i, j, p | 0 <= i < j < |order| && 0 <= p < |s.chain.rows|
      ensures s.chain.rows[p].row == RowOf(order[j]) ==>
        order[i] in s.h.dropped || RowOf(order[i]) in Contents(s.chain.rows[..p])
    {
      ContentsAt(s.chain.rows, p);
    }
  }

  lemma QueueKeeps(cfg: Config, s: Sys)
    requires Inv(s) && Enabled(cfg, s, EvalQueue)
    ensures Inv(Next(cfg, s, EvalQueue))
  {
    hide InOrder;
    CoversLast(s.h.order, s.a.pending, Done(s));
    assert Done(Next(cfg, s, EvalQueue)) == Done(s);
  }

  lemma SendKeeps(cfg: Config, s: Sys)
    requires Inv(s) && Enabled(cfg, s, Send)
    ensures Inv(Next(cfg, s, Send))
  {
    hide InOrder;
    var s' := Next(cfg, s, Send);
    assert Done(s') == Done(s);
    BatchShape(s.a);
    CoversTake(s.h.order, s.a.pending, Done(s), BatchLen(s.a));
    forall msg | msg in s'.h.sent ensures MessageOK(s', msg) {
      if msg in s.h.sent { assert MessageOK(s, msg); }
    }
  }

  /** How many entries a reply takes off the queue. */
  function Taken(a: Agent, n: nat, o: Outcome, t1: Time): nat
    requires n <= |a.pending|
  {
    if o.Lost? then 0
    else if o.reply.status == OK then n
    else
      var recorded := if o.reply.parsed && Partial(o.reply, n) then o.reply.recorded else 0;
      recorded + (if Discards(a, n, o, t1).Some? then 1 else 0)
  }

  /** A reply takes a prefix off the queue: recorded decisions, then perhaps the one it discards. */
  lemma ReplyTakesPrefix(a: Agent, n: nat, m: nat, o: Outcome, t1: Time, t2: Time, lossID: string)
    requires n <= |a.pending| && m <= |a.droppedIDs| && m <= |a.droppedDigests|
    ensures var k := Taken(a, n, o, t1);
      && k <= |a.pending|
      && AfterOutcome(a, n, m, o, t1, t2, lossID).0.pending == a.pending[k..]
      && (Discards(a, n, o, t1).Some? ==> k > 0 && Discards(a, n, o, t1).value == a.pending[k - 1])
      && AfterOutcome(a, n, m, o, t1, t2, lossID).0.reserved == a.reserved
  {
  }

  lemma TakenAreDone(cfg: Config, s: Sys, o: Outcome, t1: Time, t2: Time, lossID: string)
    requires Inv(s) && Enabled(cfg, s, Receive(o, t1, t2, lossID))
    ensures var s' := Next(cfg, s, Receive(o, t1, t2, lossID));
      var k := Taken(s.a, |s.flight.value.items|, o, t1);
      && Done(s) <= Done(s')
      && forall i :: 0 <= i < k ==> s.a.pending[i] in Done(s')
  {
    hide AfterOutcome, InOrder, Covers, Complete, OnceValid, Remembers, OncePerRetention, TableExact;
    var s' := Next(cfg, s, Receive(o, t1, t2, lossID));
    var msg := s.flight.value;
    var n := |msg.items|;
    var k := Taken(s.a, n, o, t1);
    ReplyTakesPrefix(s.a, n, |msg.batch.droppedIDs|, o, t1, t2, lossID);
    assert MessageOK(s, msg);
    forall i | 0 <= i < k ensures s.a.pending[i] in Done(s') {
      var q := s.a.pending[i];
      assert q in s.h.order;
      if !(Discards(s.a, n, o, t1).Some? && i == k - 1) {
        assert msg.items[i] == q;
        assert RowFor(msg.batch, i) == RowOf(q);
        assert Recorded(s.chain, RowFor(msg.batch, i));
      }
    }
  }

  lemma ReceiveKeeps(cfg: Config, s: Sys, o: Outcome, t1: Time, t2: Time, lossID: string)
    requires Inv(s) && Enabled(cfg, s, Receive(o, t1, t2, lossID))
    ensures Inv(Next(cfg, s, Receive(o, t1, t2, lossID)))
  {
    hide AfterOutcome, Done, OnceValid, Remembers, OncePerRetention, TableExact;
    var s' := Next(cfg, s, Receive(o, t1, t2, lossID));
    var order, done := s.h.order, Done(s');
    var n := |s.flight.value.items|;
    var k := Taken(s.a, n, o, t1);
    TakenAreDone(cfg, s, o, t1, t2, lossID);
    ReplyTakesPrefix(s.a, n, |s.flight.value.batch.droppedIDs|, o, t1, t2, lossID);
    CoversMore(order, s.a.pending, Done(s), done);
    CoversDrop(order, s.a.pending, done, k);
    CoversMore(order, s.entries, Done(s), done);
    if s.limbo.None? {
      CompleteDrop(order, s.a.pending, done, k);
    } else {
      CompleteDrop(order[..|order| - 1], s.a.pending, done, k);
    }
    MessagesStay(s, s');
  }

  lemma RestartKeeps(cfg: Config, s: Sys)
    requires Inv(s) && Enabled(cfg, s, Restart)
    ensures Inv(Next(cfg, s, Restart))
    ensures Next(cfg, s, Restart).a.pending == s.entries
  {
    hide ChainInv, Parse, End, SpoolFile;
    var s' := Next(cfg, s, Restart);
    SpoolReadsBack(s);
    assert s.entries + [] == s.entries;
    assert Done(s') == Done(s);
    hide Done;
    MessagesStay(s, s');
    ChainInvFrame(s, s');
  }

  lemma SpoolReadsBack(s: Sys)
    ensures Parse(SpoolFile(s), End(SpoolFile(s))) == Some(s.entries)
  {
    SpoolRoundTrip(s.entries);
    assert SpoolFile(s) == if s.torn then Lines(s.entries) + [Torn] else Lines(s.entries);
  }

  lemma ChainInvFrame(s: Sys, s': Sys)
    requires ChainInv(s) && s'.chain == s.chain && s'.chainClock == s.chainClock
    requires s'.h.order == s.h.order && s'.h.dropped == s.h.dropped
    ensures ChainInv(s')
  {
  }

  lemma DeliverChain(cfg: Config, s: Sys, msg: Message, i: nat, now: Time)
    requires Inv(s) && Enabled(cfg, s, Deliver(msg, i, now))
    ensures ChainInv(Next(cfg, s, Deliver(msg, i, now)))
    ensures Contents(s.chain.rows) <= Contents(Next(cfg, s, Deliver(msg, i, now)).chain.rows)
  {
    hide Covers, Complete, ChainInv, InOrder;
    assert MessageOK(s, msg);
    assert RowFor(msg.batch, i) == RowOf(msg.items[i]);
    assert msg.items[i] in s.h.order;
    if KeyOf(RowOf(msg.items[i])) !in s.chain.once {
      ChainInOrder(s);
      DeliveredInOrder(s, msg, i, now);
    }
    AppendKeepsChain(s, msg.items[i], now);
  }

  lemma ChainInOrder(s: Sys)
    requires ChainInv(s)
    ensures InOrder(s.h.order, s.chain.rows, s.h.dropped)
  {
  }

  lemma AppendKeepsChain(s: Sys, q: Queued, now: Time)
    requires Identified(s.h.order) && ChainInv(s) && q in s.h.order && s.chainClock <= now
    requires KeyOf(RowOf(q)) !in s.chain.once ==>
      InOrder(s.h.order, s.chain.rows + [Stamped(RowOf(q), now)], s.h.dropped)
    ensures ChainInv(s.(chain := AppendOnce(s.chain, RowOf(q), now), chainClock := now))
    ensures Contents(s.chain.rows) <= Contents(AppendOnce(s.chain, RowOf(q), now).rows)
  {
    hide Remembers, OncePerRetention, OnceValid, TableExact, Housekept, Contents, InOrder;
    NoConflict(s, q);
    AppendKeepsTable(s.chain, RowOf(q), now, s.chainClock);
    AppendRecords(s.chain, RowOf(q), now);
    AppendRemembers(s.chain, RowOf(q), now, s.chainClock);
    AppendContents(s.chain, RowOf(q), now);
    assert FromOrder(s.h.order, RowOf(q));
  }

  /** The appended decision has everything queued ahead of it in the chain or discarded. */
  lemma DeliveredInOrder(s: Sys, msg: Message, i: nat, now: Time)
    requires Identified(s.h.order) && InOrder(s.h.order, s.chain.rows, s.h.dropped)
    requires MessageOK(s, msg) && i < |msg.items| && Took(s.chain, msg.batch, i)
    ensures InOrder(s.h.order, s.chain.rows + [Stamped(RowOf(msg.items[i]), now)], s.h.dropped)
  {
    var order, rows := s.h.order, s.chain.rows;
    var q := msg.items[i];
    var more := rows + [Stamped(RowOf(q), now)];
    forall x, y, p | 0 <= x < y < |order| && 0 <= p < |more|
      ensures more[p].row == RowOf(order[y]) ==> order[x] in s.h.dropped || RowOf(order[x]) in Contents(more[..p])
    {
      if more[p].row == RowOf(order[y]) {
        if p < |rows| {
          assert more[..p] == rows[..p];
        } else {
          assert more[..p] == rows;
          IdsIdentify(order, order[y], q);
          assert order[y] == msg.items[i];
          if order[x] in msg.items[..i] {
            var z :| 0 <= z < i && msg.items[z] == order[x];
            assert RowFor(msg.batch, z) == RowOf(order[x]);
          }
        }
      }
    }
  }

  lemma DeliverLossChain(cfg: Config, s: Sys, msg: Message, now: Time)
    requires Inv(s) && Enabled(cfg, s, DeliverLoss(msg, now))
    ensures ChainInv(Next(cfg, s, DeliverLoss(msg, now)))
    ensures Contents(s.chain.rows) <= Contents(Next(cfg, s, DeliverLoss(msg, now)).chain.rows)
  {
    hide QueueInv, SentInv, ChainInv, AppendOnce, Refusal;
    LossKeepsChain(s, LossRowFor(msg.batch), now);
  }

  lemma LossKeepsChain(s: Sys, row: Row, now: Time)
    requires ChainInv(s) && row.LossRow? && s.chainClock <= now
    ensures ChainInv(s.(chain := AppendOnce(s.chain, row, now), chainClock := now))
    ensures Contents(s.chain.rows) <= Contents(AppendOnce(s.chain, row, now).rows)
  {
    hide Remembers, OncePerRetention, OnceValid, AppendOnce, InOrder, Contents, FromOrder, TableExact;
    AppendKeepsTable(s.chain, row, now, s.chainClock);
    AppendRecords(s.chain, row, now);
    AppendRemembers(s.chain, row, now, s.chainClock);
    AppendContents(s.chain, row, now);
    LossAppends(s.chain, row, now);
    var rows' := AppendOnce(s.chain, row, now).rows;
    if rows' != s.chain.rows {
      var x := rows'[|s.chain.rows|];
      assert rows' == s.chain.rows + [x];
      ContentsAppend(s.chain.rows, x);
      OtherRowKeepsOrder(s, x);
    }
  }

  /** A loss report adds at most one row: its own, or a conflict over its loss id. */
  lemma LossAppends(c: Chain, row: Row, now: Time)
    requires row.LossRow?
    ensures var rows' := AppendOnce(c, row, now).rows;
      rows' == c.rows || (|rows'| == |c.rows| + 1 && rows'[..|c.rows|] == c.rows
        && var x := rows'[|c.rows|].row; !x.DecisionRow? && (x.ConflictRow? ==> x.key.LossKey?))
  {
  }

  lemma OthersKeepChain(s: Sys, now: Time)
    requires ChainInv(s) && s.chainClock <= now
    ensures ChainInv(s.(chain := Housekept(s.chain, now), chainClock := now))
    ensures Housekept(s.chain, now).rows == s.chain.rows
  {
    hide Remembers, OncePerRetention, OnceValid, InOrder, TableExact, Housekept;
    HousekeepingKeeps(s.chain, now, s.chainClock);
  }

  lemma SameTableKeepsChain(s: Sys, c: Chain)
    requires ChainInv(s) && SameTable(s.chain, c)
    ensures ChainInv(s.(chain := c))
  {
    hide Remembers, OncePerRetention, OnceValid, InOrder, TableExact;
    SameTableKeeps(s.chain, c, s.chainClock);
  }

  lemma OtherRowKeepsOrder(s: Sys, x: Stamped)
    requires InOrder(s.h.order, s.chain.rows, s.h.dropped) && !x.row.DecisionRow?
    ensures InOrder(s.h.order, s.chain.rows + [x], s.h.dropped)
  {
    var more := s.chain.rows + [x];
    assert forall p :: 0 <= p < |s.chain.rows| ==> more[..p] == s.chain.rows[..p];
  }

  /** A step that only adds rows to the chain keeps the queue and the messages. */
  lemma ChainGrowthKeeps(s: Sys, s': Sys)
    requires QueueInv(s) && SentInv(s)
    requires s' == s.(chain := s'.chain, chainClock := s'.chainClock)
    requires Contents(s.chain.rows) <= Contents(s'.chain.rows)
    ensures QueueInv(s') && SentInv(s')
  {
  }

  lemma QuietKeeps(cfg: Config, s: Sys, e: Event)
    requires Inv(s) && Enabled(cfg, s, e)
    requires e.EvalBegin? || e.EvalAbort? || e.Sync? || e.Rewrite? || e.Crash?
    ensures Inv(Next(cfg, s, e))
  {
  }

  lemma StepKeeps(cfg: Config, s: Sys, e: Event)
    requires Inv(s) && Enabled(cfg, s, e)
    ensures Inv(Next(cfg, s, e))
  {
    hide QueueInv, SentInv, ChainInv, Enabled, Next;
    match e
    case EvalSpool(tid, q) => SpoolKeeps(cfg, s, tid, q);
    case EvalQueue => QueueKeeps(cfg, s);
    case Send => SendKeeps(cfg, s);
    case Receive(o, t1, t2, lossID) => ReceiveKeeps(cfg, s, o, t1, t2, lossID);
    case Restart => RestartKeeps(cfg, s);
    case Deliver(msg, i, now) =>
      DeliverChain(cfg, s, msg, i, now);
      DeliverOnlyChain(cfg, s, e);
      ChainGrowthKeeps(s, Next(cfg, s, e));
    case DeliverLoss(msg, now) =>
      DeliverLossChain(cfg, s, msg, now);
      DeliverOnlyChain(cfg, s, e);
      ChainGrowthKeeps(s, Next(cfg, s, e));
    case OtherAppend(now) =>
      DeliverOnlyChain(cfg, s, e);
      OthersKeepChain(s, now);
      ChainGrowthKeeps(s, Next(cfg, s, e));
    case ControlRestart => HousekeepingStateKeeps(cfg, s, e);
    case Deletions(_) => HousekeepingStateKeeps(cfg, s, e);
    case _ => QuietKeeps(cfg, s, e);
  }

  lemma HousekeepingStateKeeps(cfg: Config, s: Sys, e: Event)
    requires Inv(s) && Enabled(cfg, s, e) && (e.ControlRestart? || e.Deletions?)
    ensures Inv(Next(cfg, s, e))
  {
    hide QueueInv, SentInv, ChainInv;
    SameTableKeepsChain(s, Next(cfg, s, e).chain);
    ChainGrowthKeeps(s, Next(cfg, s, e));
  }

  lemma DeliverOnlyChain(cfg: Config, s: Sys, e: Event)
    requires Enabled(cfg, s, e) && (e.Deliver? || e.DeliverLoss? || e.OtherAppend?)
    ensures var s' := Next(cfg, s, e); s' == s.(chain := s'.chain, chainClock := s'.chainClock)
    ensures e.OtherAppend? ==>
      s.chainClock <= e.now && Next(cfg, s, e).chain == Housekept(s.chain, e.now) && Next(cfg, s, e).chainClock == e.now
  {
  }

  lemma StartInv(t: Time)
    ensures Inv(Start(t))
  {
  }

  lemma {:induction false} RunKeeps(cfg: Config, s: Sys, es: seq<Event>, s': Sys)
    requires Inv(s) && Run(cfg, s, es, s')
    ensures Inv(s')
    decreases |es|
  {
    hide Inv, Enabled, Next;
    if es != [] {
      StepKeeps(cfg, s, es[0]);
      RunKeeps(cfg, Next(cfg, s, es[0]), es[1..], s');
    }
  }
}
