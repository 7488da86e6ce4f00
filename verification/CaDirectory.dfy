/** The rotation commands as they run, file operation by file operation, and the
    server that reloads the directory. */
module CaDirectory {
  import opened Decisions
  import opened DiskRotation

  datatype Outcome = Done | Refused | Crashed

  function Prefix(ops: seq<FileOp>, n: nat): seq<FileOp> { if n < |ops| then ops[..n] else ops }

  /** What a command reports when it may make n file operations before a crash. */
  function Verdict(plan: Plan, n: nat): Outcome {
    if n < |plan.ops| then Crashed else if plan.ok then Done else Refused
  }

  class Directory {
    var key: Option<nat>
    var crt: Option<CaCert>
    var nextKey: Option<nat>
    var nextCrt: Option<CaCert>
    var prev: Option<CaCert>
    var prevModified: Time
    var since: SinceFile
    /** File operations left before the machine goes down. */
    var budget: nat

    function View(): Dir
      reads this
    {
      Dir(key, crt, nextKey, nextCrt, prev, prevModified, since)
    }

    constructor (d: Dir, budget: nat)
      ensures View() == d && this.budget == budget
    {
      key, crt, nextKey, nextCrt := d.key, d.crt, d.nextKey, d.nextCrt;
      prev, prevModified, since := d.prev, d.prevModified, d.since;
      this.budget := budget;
    }

    /** One write, rename or remove, unless the machine goes down first. */
    method Apply(op: FileOp) returns (alive: bool)
      modifies this
      ensures alive == (old(budget) > 0)
      ensures if alive then View() == Do(old(View()), op) && budget == old(budget) - 1
              else View() == old(View()) && budget == 0
    {
      if budget == 0 { return false; }
      budget := budget - 1;
      match op {
        case WriteNextKey(k) => nextKey := Some(k);
        case WriteNextCrt(c) => nextCrt := Some(c);
        case WriteSince(at) => since := Recorded(at);
        case WritePrev(c, modified) => prev, prevModified := Some(c), modified;
        case RenameKey => key, nextKey := nextKey, None;
        case RenameCrt => crt, nextCrt := nextCrt, None;
        case RemovePrev => prev := None;
        case RemoveSince => since := NoSince;
      }
      return true;
    }

    /** n operations of a plan are made, and the machine is still up. */
    ghost predicate At(d: Dir, ops: seq<FileOp>, n: nat, start: nat)
      reads this
    {
      n <= |ops| && View() == Exec(d, ops[..n]) && budget + n == start
    }

    /** The next operation of a plan, and what is left if it was the last possible. */
    method Advance(op: FileOp, ghost d: Dir, ghost ops: seq<FileOp>, ghost n: nat,
                   ghost start: nat) returns (alive: bool)
      requires At(d, ops, n, start) && n < |ops| && ops[n] == op
      modifies this
      ensures alive ==> At(d, ops, n + 1, start) && (n + 1 == |ops| ==> View() == Exec(d, ops))
      ensures !alive ==> start < |ops| && View() == Exec(d, Prefix(ops, start))
    {
      alive := Apply(op);
      assert ops[..n + 1][..n] == ops[..n] && ops[..|ops|] == ops;
    }

    /** `repairActivation`. */
    method RepairActivation() returns (r: Outcome)
      modifies this
      ensures var plan := RepairPlan(old(View()));
        r == Verdict(plan, old(budget)) && View() == Exec(old(View()), Prefix(plan.ops, old(budget)))
        && (r.Done? ==> budget == old(budget) - |plan.ops|)
    {
      assert Exec(View(), []) == View();
      ExecOne(View(), RenameCrt);
      if key.None? || crt.None? { return Refused; }
      if Matches(key, crt) { return Done; }
      if nextCrt.None? || !Matches(key, nextCrt) { return Refused; }
      var alive := Apply(RenameCrt);
      return if alive then Done else Crashed;
    }

    /** The repair every command starts with, seen as the first part of its plan. */
    method Begin(ghost cmd: Command) returns (r: Outcome)
      modifies this
      ensures var d, plan := old(View()), CommandPlan(old(View()), cmd);
        if r.Done? then
          && At(d, plan.ops, |RepairPlan(d).ops|, old(budget)) && View() == Exec(d, RepairPlan(d).ops)
          && plan.ops[|RepairPlan(d).ops|..] == PlanAfterRepair(View(), cmd).ops
          && plan.ok == PlanAfterRepair(View(), cmd).ok
        else r == Verdict(plan, old(budget)) && View() == Interrupted(d, cmd, old(budget))
    {
      hide PlanAfterRepair, Exec;
      ghost var d, repair := View(), RepairPlan(View());
      r := RepairActivation();
      if repair.ok {
        ghost var plan := CommandPlan(d, cmd);
        assert plan.ops[..|repair.ops|] == repair.ops;
      }
    }

    /** `PrepareCA`. */
    method PrepareCA(cert: CaCert) returns (r: Outcome)
      modifies this
      ensures r == Verdict(CommandPlan(old(View()), Prepare(cert)), old(budget))
      ensures View() == Interrupted(old(View()), Prepare(cert), old(budget))
    {
      hide Exec, RepairPlan;
      ghost var d, b, cmd := View(), budget, Prepare(cert);
      ghost var k, ops := |RepairPlan(d).ops|, CommandPlan(d, cmd).ops;
      r := Begin(cmd);
      if !r.Done? { return; }
      assert ops == ops[..k] + ops[k..] && (ops[k..] == [] ==> ops[..k] == ops);
      if nextKey.Some? { return Refused; }
      if Read(View()).None? { return Refused; }
      var alive := Advance(WriteNextKey(cert.key), d, ops, k, b);
      if !alive { return Crashed; }
      alive := Advance(WriteNextCrt(cert), d, ops, k + 1, b);
      return if alive then Done else Crashed;
    }

    /** `ActivateCA`: the old certificate is set aside first, unless a crash already
        left it so; then the key moves, then the certificate. */
    method ActivateCA(now: Time) returns (r: Outcome)
      modifies this
      ensures r == Verdict(CommandPlan(old(View()), Activate(now)), old(budget))
      ensures View() == Interrupted(old(View()), Activate(now), old(budget))
    {
      hide Exec, RepairPlan;
      ghost var d, b, cmd := View(), budget, Activate(now);
      ghost var k, ops := |RepairPlan(d).ops|, CommandPlan(d, cmd).ops;
      r := Begin(cmd);
      if !r.Done? { return; }
      assert ops == ops[..k] + ops[k..] && (ops[k..] == [] ==> ops[..k] == ops);
      if nextKey.None? || nextCrt.None? || !Matches(nextKey, nextCrt) || crt.None? { return Refused; }
      var active, alive := crt.value, true;
      if prev.Some? {
        if prev != crt { return Refused; }
      } else {
        alive := Advance(WriteSince(ToSecond(now)), d, ops, k, b);
        if !alive { return Crashed; }
        alive := Advance(WritePrev(active, now), d, ops, k + 1, b);
        if !alive { return Crashed; }
        k := k + 2;
      }
      alive := Advance(RenameKey, d, ops, k, b);
      if !alive { return Crashed; }
      alive := Advance(RenameCrt, d, ops, k + 1, b);
      return if alive then Done else Crashed;
    }

    /** `RetireCA`: the removal of the recorded time may fail unnoticed; here it only
        fails by a crash. */
    method RetireCA(force: bool, now: Time) returns (r: Outcome)
      modifies this
      ensures r == Verdict(CommandPlan(old(View()), Retire(force, now)), old(budget))
      ensures View() == Interrupted(old(View()), Retire(force, now), old(budget))
    {
      hide Exec, RepairPlan;
      ghost var d, b, cmd := View(), budget, Retire(force, now);
      ghost var k, ops := |RepairPlan(d).ops|, CommandPlan(d, cmd).ops;
      r := Begin(cmd);
      if !r.Done? { return; }
      assert ops == ops[..k] + ops[k..] && (ops[k..] == [] ==> ops[..k] == ops);
      if prev.None? { return Refused; }
      var from := PrevSince(View());
      if from.None? { return Refused; }
      var wait := RETIRE_AFTER - (now - from.value);
      if wait > 0 && !force { return Refused; }
      var alive := Advance(RemovePrev, d, ops, k, b);
      if !alive { return Crashed; }
      alive := Advance(RemoveSince, d, ops, k + 1, b);
      return if alive then Done else Crashed;
    }
  }

  /** A running server's material, and its count of changes. */
  class Authority {
    var state: CaState
    var seqNo: int

    constructor (state: CaState)
      ensures this.state == state && seqNo == 1
    {
      this.state, seqNo := state, 1;
    }

    /** `ReloadCA`: install what the directory holds; an unreadable directory changes
        nothing, and the sequence moves exactly when the trust material does. */
    method ReloadCA(d: Dir) returns (changed: Option<bool>)
      modifies this
      ensures changed.None? <==> Read(d).None?
      ensures state == if Read(d).Some? then Read(d).value else old(state)
      ensures changed.Some? ==> changed.value == (state != old(state))
      ensures seqNo == old(seqNo) + (if state != old(state) then 1 else 0)
    {
      var st := Read(d);
      if st.None? { return None; }
      if state.trusted == st.value.trusted && state.cert == st.value.cert { return Some(false); }
      state := st.value;
      seqNo := seqNo + 1;
      return Some(true);
    }
  }
}
