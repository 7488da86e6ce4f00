/** Rotation of the disk CA: prepare, activate and retire as sequences of atomic
    file operations, any of which can be the last before a crash. A key stands for
    its public half and for the key id derived from it. */
module DiskRotation {
  import opened Decisions

  datatype CaCert = CaCert(key: nat, serial: nat)

  datatype SinceFile = NoSince | Recorded(at: Time) | Garbled

  /** The files of the authority's directory. */
  datatype Dir = Dir(
    key: Option<nat>,
    crt: Option<CaCert>,
    nextKey: Option<nat>,
    nextCrt: Option<CaCert>,
    prev: Option<CaCert>,
    prevModified: Time,
    since: SinceFile)

  datatype FileOp =
    | WriteNextKey(key: nat)
    | WriteNextCrt(cert: CaCert)
    | WriteSince(at: Time)
    | WritePrev(cert: CaCert, modified: Time)
    | RenameKey
    | RenameCrt
    | RemovePrev
    | RemoveSince

  function Do(d: Dir, op: FileOp): Dir {
    match op
    case WriteNextKey(k) => d.(nextKey := Some(k))
    case WriteNextCrt(c) => d.(nextCrt := Some(c))
    case WriteSince(at) => d.(since := Recorded(at))
    case WritePrev(c, modified) => d.(prev := Some(c), prevModified := modified)
    case RenameKey => d.(key := d.nextKey, nextKey := None)
    case RenameCrt => d.(crt := d.nextCrt, nextCrt := None)
    case RemovePrev => d.(prev := None)
    case RemoveSince => d.(since := NoSince)
  }

  function Exec(d: Dir, ops: seq<FileOp>): Dir
    decreases |ops|
  {
    if ops == [] then d else Do(Exec(d, ops[..|ops| - 1]), ops[|ops| - 1])
  }

  lemma {:induction false} ExecAppend(d: Dir, a: seq<FileOp>, b: seq<FileOp>)
    ensures Exec(d, a + b) == Exec(Exec(d, a), b)
    decreases |b|
  {
    if b == [] { assert a + b == a; } else {
      ExecAppend(d, a, b[..|b| - 1]);
      assert (a + b)[..|a + b| - 1] == a + b[..|b| - 1];
    }
  }

  // ---- Reading --------------------------------------------------------------

  /** What a server loads: the signing certificate and every trusted one. */
  datatype CaState = CaState(cert: CaCert, trusted: seq<CaCert>)

  function Listed(c: Option<CaCert>): seq<CaCert> { if c.Some? then [c.value] else [] }

  predicate Matches(key: Option<nat>, crt: Option<CaCert>) { key.Some? && crt.Some? && crt.value.key == key.value }

  /** `readDiskState`: None when the directory cannot be used. */
  function Read(d: Dir): Option<CaState> {
    if d.key.None? || d.crt.None? then None
    else if Matches(d.key, d.crt) then Some(CaState(d.crt.value, [d.crt.value] + Listed(d.nextCrt) + Listed(d.prev)))
    else if Matches(d.key, d.nextCrt) then Some(CaState(d.nextCrt.value, [d.nextCrt.value] + Listed(d.prev)))
    else None
  }

  // ---- The commands -----------------------------------------------------------

  const RETIRE_AFTER: Time := 24 * HOUR

  datatype Command = Prepare(cert: CaCert) | Activate(now: Time) | Retire(force: bool, now: Time)

  /** The file operations a command makes when nothing stops it, and whether it
      succeeds; a command that refuses may already have repaired the directory. */
  datatype Plan = Plan(ops: seq<FileOp>, ok: bool)

  /** The start of the second t falls in. */
  function ToSecond(t: Time): (s: Time)
    ensures s <= t < s + SECOND && s % SECOND == 0
  {
    t - t % SECOND
  }

  function PrevSince(d: Dir): Option<Time> {
    match d.since
    case Recorded(at) => Some(at)
    case Garbled => None
    case NoSince => if d.prev.Some? then Some(d.prevModified) else None
  }

  /** `repairActivation`. */
  function RepairPlan(d: Dir): Plan {
    if d.key.None? || d.crt.None? then Plan([], false)
    else if Matches(d.key, d.crt) then Plan([], true)
    else if Matches(d.key, d.nextCrt) then Plan([RenameCrt], true)
    else Plan([], false)
  }

  function PlanAfterRepair(d: Dir, cmd: Command): Plan {
    match cmd
    case Prepare(cert) =>
      if d.nextKey.Some? || Read(d).None? then Plan([], false)
      else Plan([WriteNextKey(cert.key), WriteNextCrt(cert)], true)
    case Activate(now) =>
      if d.nextKey.None? || !Matches(d.nextKey, d.nextCrt) || d.crt.None? then Plan([], false)
      else if d.prev.None? then
        Plan([WriteSince(ToSecond(now)), WritePrev(d.crt.value, now), RenameKey, RenameCrt], true)
      else if d.prev == d.crt then Plan([RenameKey, RenameCrt], true)
      else Plan([], false)
    case Retire(force, now) =>
      if d.prev.None? || PrevSince(d).None? then Plan([], false)
      else if RETIRE_AFTER - (now - PrevSince(d).value) > 0 && !force then Plan([], false)
      else Plan([RemovePrev, RemoveSince], true)
  }

  function CommandPlan(d: Dir, cmd: Command): Plan {
    var repair := RepairPlan(d);
    if !repair.ok then repair
    else var rest := PlanAfterRepair(Exec(d, repair.ops), cmd); Plan(repair.ops + rest.ops, rest.ok)
  }

  // ---- Soundness of every single file operation ----------------------------------

  predicate Steady(d: Dir) { Matches(d.key, d.crt) }

  /** Every directory the commands leave, crashes included: at rest, or an
      activation caught between its two renames. */
  predicate Sound(d: Dir) {
    && d.key.Some? && d.crt.Some?
    && if Steady(d) then
         && (d.nextCrt.Some? ==> Matches(d.nextKey, d.nextCrt))
         && (d.nextKey.Some? ==> d.nextKey != d.key)
       else
         Matches(d.key, d.nextCrt) && d.nextKey.None? && d.prev == d.crt
  }

  /** When a file operation may come next. */
  predicate Fitting(d: Dir, op: FileOp) {
    match op
    case WriteNextKey(k) => Steady(d) && d.nextKey.None? && d.nextCrt.None? && d.key != Some(k)
    case WriteNextCrt(c) => Steady(d) && d.nextKey == Some(c.key) && d.nextCrt.None?
    case WriteSince(_) => Steady(d) && d.prev.None?
    case WritePrev(c, _) => Steady(d) && d.prev.None? && d.since.Recorded? && d.crt == Some(c)
    case RenameKey => Steady(d) && Matches(d.nextKey, d.nextCrt) && d.prev == d.crt
    case RenameCrt => !Steady(d)
    case RemovePrev => Steady(d) && d.prev.Some?
    case RemoveSince => Steady(d) && d.prev.None?
  }

  function Active(d: Dir): CaCert
    requires Sound(d)
  {
    if Steady(d) then d.crt.value else d.nextCrt.value
  }

  function Trusted(d: Dir): set<CaCert>
    requires Sound(d)
  {
    {Active(d)} + (if d.nextCrt.Some? then {d.nextCrt.value} else {}) + (if d.prev.Some? then {d.prev.value} else {})
  }

  /** A sound directory reads back with a key that matches its active certificate. */
  lemma SoundReads(d: Dir)
    requires Sound(d)
    ensures Read(d).Some? && Read(d).value.cert == Active(d) && Some(Active(d).key) == d.key
    ensures (forall c :: c in Read(d).value.trusted <==> c in Trusted(d)) && |Read(d).value.trusted| <= 3
  {
  }

  /** One file operation keeps the directory sound; what signs afterwards was trusted
      before; and trust is only ever lost by removing the previous certificate. */
  lemma OpKeeps(d: Dir, op: FileOp)
    requires Sound(d) && Fitting(d, op)
    ensures var d' := Do(d, op);
      && Sound(d') && Active(d') in Trusted(d)
      && (if op.RemovePrev? then Trusted(d) - {d.prev.value} <= Trusted(d') else Trusted(d) <= Trusted(d'))
      && (Active(d') != Active(d) ==> op.RenameKey? && d'.prev == Some(Active(d)))
  {
  }

  ghost predicate AllFitting(d: Dir, ops: seq<FileOp>) {
    forall i :: 0 <= i < |ops| ==> Sound(Exec(d, ops[..i])) && Fitting(Exec(d, ops[..i]), ops[i])
  }

  lemma FittingAppend(d: Dir, a: seq<FileOp>, b: seq<FileOp>)
    requires AllFitting(d, a) && AllFitting(Exec(d, a), b)
    ensures AllFitting(d, a + b)
  {
    forall i | 0 <= i < |a + b| ensures Sound(Exec(d, (a + b)[..i])) && Fitting(Exec(d, (a + b)[..i]), (a + b)[i]) {
      if i < |a| {
        assert (a + b)[..i] == a[..i];
      } else {
        assert (a + b)[..i] == a + b[..i - |a|];
        ExecAppend(d, a, b[..i - |a|]);
      }
    }
  }

  lemma FittingOne(d: Dir, ops: seq<FileOp>)
    requires ops != [] && Sound(d) && Fitting(d, ops[0]) && AllFitting(Do(d, ops[0]), ops[1..])
    ensures AllFitting(d, ops)
  {
    ExecOne(d, ops[0]);
    assert [ops[0]][..0] == [];
    FittingAppend(d, [ops[0]], ops[1..]);
    assert ops == [ops[0]] + ops[1..];
  }

  lemma ExecOne(d: Dir, op: FileOp)
    ensures Exec(d, [op]) == Do(d, op)
  {
  }

  lemma RepairFits(d: Dir)
    requires Sound(d)
    ensures var p := RepairPlan(d);
      p.ok && AllFitting(d, p.ops) && Sound(Exec(d, p.ops)) && Steady(Exec(d, p.ops)) && Exec(d, p.ops).key == d.key
  {
  }

  /** The next key is drawn at random, so it is not the one in use. */
  predicate FreshKey(d: Dir, cmd: Command) { cmd.Prepare? ==> d.key != Some(cmd.cert.key) }

  lemma PlanAfterRepairFits(d: Dir, cmd: Command)
    requires Sound(d) && Steady(d) && FreshKey(d, cmd)
    ensures AllFitting(d, PlanAfterRepair(d, cmd).ops)
  {
    hide Exec;
    var ops := PlanAfterRepair(d, cmd).ops;
    if ops != [] {
      var d1 := Do(d, ops[0]);
      match cmd
      case Activate(now) =>
        if d.prev.None? {
          assert ops[1..] == [ops[1], RenameKey, RenameCrt] && ops[1..][1..] == [RenameKey, RenameCrt];
          RenamesFit(Do(d1, ops[1]));
          FittingOne(d1, ops[1..]);
          FittingOne(d, ops);
        } else {
          RenamesFit(d);
        }
      case _ =>
        assert ops[1..][1..] == [];
        FittingOne(d1, ops[1..]);
        FittingOne(d, ops);
    }
  }

  lemma RenamesFit(d: Dir)
    requires Sound(d) && Fitting(d, RenameKey)
    ensures AllFitting(d, [RenameKey, RenameCrt])
  {
  }

  /** Every file operation of every command, run on a sound directory, fits. */
  lemma CommandFits(d: Dir, cmd: Command)
    requires Sound(d) && FreshKey(d, cmd)
    ensures AllFitting(d, CommandPlan(d, cmd).ops)
  {
    hide AllFitting, PlanAfterRepair, Exec;
    RepairFits(d);
    var d1 := Exec(d, RepairPlan(d).ops);
    PlanAfterRepairFits(d1, cmd);
    FittingAppend(d, RepairPlan(d).ops, PlanAfterRepair(d1, cmd).ops);
  }

  /** A command stopped by a crash after n file operations, or not at all. */
  function Interrupted(d: Dir, cmd: Command, n: nat): Dir {
    var ops := CommandPlan(d, cmd).ops;
    Exec(d, if n < |ops| then ops[..n] else ops)
  }

  lemma {:induction false} FittingStaysSound(d: Dir, ops: seq<FileOp>)
    requires Sound(d) && AllFitting(d, ops)
    ensures Sound(Exec(d, ops))
  {
    hide Sound, Fitting;
    if ops != [] {
      var front := ops[..|ops| - 1];
      assert AllFitting(d, front) by {
        assert forall i :: 0 <= i < |front| ==> front[..i] == ops[..i] && front[i] == ops[i];
      }
      FittingStaysSound(d, front);
      OpKeeps(Exec(d, front), ops[|ops| - 1]);
    }
  }

  /** Whatever the command and wherever it stops, the directory reads back. */
  lemma CrashReadsBack(d: Dir, cmd: Command, n: nat)
    requires Sound(d) && FreshKey(d, cmd)
    ensures Sound(Interrupted(d, cmd, n)) && Read(Interrupted(d, cmd, n)).Some?
  {
    hide CommandPlan, Exec, Sound, Fitting, Read;
    CommandFits(d, cmd);
    var ops := CommandPlan(d, cmd).ops;
    var done := if n < |ops| then ops[..n] else ops;
    assert AllFitting(d, done) by {
      assert forall i :: 0 <= i < |done| ==> done[..i] == ops[..i] && done[i] == ops[i];
    }
    FittingStaysSound(d, done);
    SoundReads(Interrupted(d, cmd, n));
  }

  // ---- What each command does -------------------------------------------------------

  /** The directory with an interrupted activation finished. */
  function Finished(d: Dir): Dir
    requires Sound(d)
  {
    if Steady(d) then d else d.(crt := d.nextCrt, nextCrt := None)
  }

  lemma RepairFinishes(d: Dir)
    requires Sound(d)
    ensures RepairPlan(d).ok && Exec(d, RepairPlan(d).ops) == Finished(d)
    ensures Steady(Finished(d)) && Sound(Finished(d)) && Finished(d).crt == Some(Active(d))
  {
    ExecOne(d, RenameCrt);
  }

  lemma ExecTwo(d: Dir, a: FileOp, b: FileOp)
    ensures Exec(d, [a, b]) == Do(Do(d, a), b)
  {
    assert [a, b] == [a] + [b];
    ExecAppend(d, [a], [b]);
    ExecOne(d, a);
    ExecOne(Do(d, a), b);
  }

  lemma CommandRuns(d: Dir, cmd: Command)
    requires Sound(d)
    ensures var rest := PlanAfterRepair(Finished(d), cmd);
      && CommandPlan(d, cmd).ok == rest.ok
      && Exec(d, CommandPlan(d, cmd).ops) == Exec(Finished(d), rest.ops)
  {
    hide PlanAfterRepair, Exec;
    RepairFinishes(d);
    ExecAppend(d, RepairPlan(d).ops, PlanAfterRepair(Finished(d), cmd).ops);
  }

  /** A prepare goes ahead exactly when nothing is prepared, and adds the next CA. */
  lemma PrepareIff(d: Dir, n: CaCert)
    requires Sound(d)
    ensures CommandPlan(d, Prepare(n)).ok <==> d.nextKey.None?
    ensures Exec(d, CommandPlan(d, Prepare(n)).ops) ==
      if d.nextKey.None? then Finished(d).(nextKey := Some(n.key), nextCrt := Some(n)) else d
  {
    hide CommandPlan;
    CommandRuns(d, Prepare(n));
    ExecTwo(Finished(d), WriteNextKey(n.key), WriteNextCrt(n));
  }

  /** An activation goes ahead exactly when a CA is prepared and the last one replaced,
      if it is still trusted, is the one in use. The prepared CA takes over, the one in
      use is trusted as the previous, and the time of the first attempt is recorded. */
  lemma ActivateIff(d: Dir, now: Time)
    requires Sound(d)
    ensures CommandPlan(d, Activate(now)).ok <==>
      d.nextKey.Some? && d.nextCrt.Some? && (d.prev.Some? ==> d.prev == d.crt)
    ensures Exec(d, CommandPlan(d, Activate(now)).ops) ==
      if !CommandPlan(d, Activate(now)).ok then Finished(d)
      else Dir(d.nextKey, d.nextCrt, None, None, d.crt, if d.prev.None? then now else d.prevModified,
               if d.prev.None? then Recorded(ToSecond(now)) else d.since)
  {
    hide CommandPlan, ToSecond;
    CommandRuns(d, Activate(now));
    var d1 := Finished(d);
    if PlanAfterRepair(d1, Activate(now)).ok {
      if d1.prev.None? {
        var a, b := WriteSince(ToSecond(now)), WritePrev(d1.crt.value, now);
        assert [a, b, RenameKey, RenameCrt] == [a, b] + [RenameKey, RenameCrt];
        ExecAppend(d1, [a, b], [RenameKey, RenameCrt]);
        ExecTwo(d1, a, b);
        ExecTwo(Do(Do(d1, a), b), RenameKey, RenameCrt);
      } else {
        ExecTwo(d1, RenameKey, RenameCrt);
      }
    }
  }

  /** A retire goes ahead exactly when there is a previous CA, the time it was replaced
      is known, and a day has passed since or it is forced; a forced one always does. */
  lemma RetireIff(d: Dir, force: bool, now: Time)
    requires Sound(d)
    ensures CommandPlan(d, Retire(force, now)).ok <==>
      && d.prev.Some? && !d.since.Garbled?
      && (force || now - (if d.since.Recorded? then d.since.at else d.prevModified) >= 24 * HOUR)
    ensures Exec(d, CommandPlan(d, Retire(force, now)).ops) ==
      if CommandPlan(d, Retire(force, now)).ok then Finished(d).(prev := None, since := NoSince) else Finished(d)
  {
    hide CommandPlan;
    CommandRuns(d, Retire(force, now));
    ExecTwo(Finished(d), RemovePrev, RemoveSince);
  }

  /** A directory is usable exactly when its key has a certificate, its own or the
      prepared one; any other is left alone by every command. */
  lemma UnusableIff(d: Dir, cmd: Command)
    ensures Read(d).Some? <==>
      && d.key.Some? && d.crt.Some?
      && (d.crt.value.key == d.key.value || (d.nextCrt.Some? && d.nextCrt.value.key == d.key.value))
    ensures Read(d).None? ==> CommandPlan(d, cmd) == Plan([], false)
  {
  }
}
