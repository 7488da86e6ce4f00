/** Runs of the rotation commands, one file operation at a time, read by servers
    that reload at different moments. */
module RotationRuns {
  import opened Decisions
  import opened DiskRotation

  /** The directory and what is left of the command under way. */
  datatype Moment = Moment(dir: Dir, todo: seq<FileOp>)

  datatype Event = Start(cmd: Command) | FileStep | Crash

  predicate Enabled(m: Moment, e: Event) {
    match e
    case Start(cmd) => m.todo == [] && FreshKey(m.dir, cmd)
    case FileStep => m.todo != []
    case Crash => true
  }

  function Next(m: Moment, e: Event): Moment
    requires Enabled(m, e)
  {
    match e
    case Start(cmd) => m.(todo := CommandPlan(m.dir, cmd).ops)
    case FileStep => Moment(Do(m.dir, m.todo[0]), m.todo[1..])
    case Crash => m.(todo := [])
  }

  ghost predicate Run(ms: seq<Moment>, es: seq<Event>) {
    && |ms| == |es| + 1
    && Sound(ms[0].dir) && ms[0].todo == []
    && forall i :: 0 <= i < |es| ==> Enabled(ms[i], es[i]) && ms[i + 1] == Next(ms[i], es[i])
  }

  ghost predicate Inv(m: Moment) { Sound(m.dir) && AllFitting(m.dir, m.todo) }

  lemma FittingTail(d: Dir, ops: seq<FileOp>)
    requires ops != [] && AllFitting(d, ops)
    ensures Fitting(d, ops[0]) && AllFitting(Do(d, ops[0]), ops[1..])
  {
    assert ops[..0] == [];
    forall i | 0 <= i < |ops[1..]|
      ensures Sound(Exec(Do(d, ops[0]), ops[1..][..i])) && Fitting(Exec(Do(d, ops[0]), ops[1..][..i]), ops[1..][i])
    {
      assert ops[..i + 1] == [ops[0]] + ops[1..][..i];
      ExecOne(d, ops[0]);
      ExecAppend(d, [ops[0]], ops[1..][..i]);
    }
  }

  lemma StepKeeps(m: Moment, e: Event)
    requires Inv(m) && Enabled(m, e)
    ensures Inv(Next(m, e))
    ensures e.FileStep? ==> Fitting(m.dir, m.todo[0])
  {
    hide CommandPlan, Fitting, Sound;
    match e
    case Start(cmd) => CommandFits(m.dir, cmd);
    case FileStep =>
      FittingTail(m.dir, m.todo);
      OpKeeps(m.dir, m.todo[0]);
    case Crash =>
  }

  /** Every disk state of every run reads back. */
  lemma {:induction false} RunKeeps(ms: seq<Moment>, es: seq<Event>, n: nat)
    requires Run(ms, es) && n <= |es|
    ensures Inv(ms[n]) && Read(ms[n].dir).Some?
  {
    hide AllFitting, Sound, Enabled, Next;
    if n == 0 {
      assert AllFitting(ms[0].dir, []) by { NothingFits(ms[0].dir); }
    } else {
      RunKeeps(ms, es, n - 1);
      StepKeeps(ms[n - 1], es[n - 1]);
    }
    SoundReads(ms[n].dir);
  }

  lemma NothingFits(d: Dir)
    ensures AllFitting(d, [])
  {
  }

  /** The step that stops trusting the previous CA. */
  predicate Untrusts(m: Moment, e: Event) { e.FileStep? && m.todo != [] && m.todo[0].RemovePrev? }

  /** In every run: what signs after a step was trusted before it, a CA that stops
      signing is the previous CA from then on, and only a retire ends any trust. */
  lemma StepTrust(ms: seq<Moment>, es: seq<Event>, i: nat)
    requires Run(ms, es) && i < |es|
    ensures Sound(ms[i].dir) && Sound(ms[i + 1].dir)
    ensures Active(ms[i + 1].dir) in Trusted(ms[i].dir)
    ensures Active(ms[i + 1].dir) != Active(ms[i].dir) ==> ms[i + 1].dir.prev == Some(Active(ms[i].dir))
    ensures !Untrusts(ms[i], es[i]) ==> Trusted(ms[i].dir) <= Trusted(ms[i + 1].dir)
    ensures Untrusts(ms[i], es[i]) ==>
      ms[i].dir.prev.Some? && Trusted(ms[i].dir) - {ms[i].dir.prev.value} <= Trusted(ms[i + 1].dir)
  {
    hide CommandPlan;
    RunKeeps(ms, es, i);
    RunKeeps(ms, es, i + 1);
    StepKeeps(ms[i], es[i]);
    if es[i].FileStep? { OpKeeps(ms[i].dir, ms[i].todo[0]); }
  }

  /** Over any stretch without a retire, whatever was trusted stays trusted. */
  lemma {:induction false} TrustLasts(ms: seq<Moment>, es: seq<Event>, i: nat, j: nat)
    requires Run(ms, es) && i <= j <= |es| && forall k :: i <= k < j ==> !Untrusts(ms[k], es[k])
    ensures Sound(ms[i].dir) && Sound(ms[j].dir) && Trusted(ms[i].dir) <= Trusted(ms[j].dir)
    decreases j
  {
    hide Run, Sound, Untrusts, Trusted;
    if i < j {
      TrustLasts(ms, es, i, j - 1);
      StepTrust(ms, es, j - 1);
    } else {
      RunKeeps(ms, es, i);
    }
  }

  // ---- The overlap window --------------------------------------------------------

  /** The active CA is a and n is prepared to replace it, n is replacing it, or n
      has replaced it and a is still trusted as the previous one. */
  predicate Overlapping(d: Dir, a: CaCert, n: CaCert) {
    && Sound(d) && a.key != n.key
    && if Steady(d) && d.crt == Some(a) then d.nextCrt == Some(n) && d.nextKey == Some(n.key)
       else if Steady(d) then d.crt == Some(n) && d.prev == Some(a)
       else d.crt == Some(a) && d.nextCrt == Some(n) && d.prev == Some(a)
  }

  /** The retire that ends the window: a is removed after n replaced it. */
  predicate RetiresReplaced(m: Moment, e: Event, a: CaCert) {
    Untrusts(m, e) && m.dir.prev == Some(a) && m.dir.crt != Some(a)
  }

  /** A prepare that runs to its end opens the window. */
  lemma PrepareOpens(d: Dir, n: CaCert)
    requires Sound(d) && FreshKey(d, Prepare(n)) && CommandPlan(d, Prepare(n)).ok
    ensures Overlapping(Exec(d, CommandPlan(d, Prepare(n)).ops), Active(d), n)
  {
    var repair := RepairPlan(d);
    RepairFits(d);
    if !Steady(d) { ExecOne(d, RenameCrt); }
    var d1 := Exec(d, repair.ops);
    var rest := [WriteNextKey(n.key), WriteNextCrt(n)];
    assert PlanAfterRepair(d1, Prepare(n)).ops == rest;
    ExecAppend(d, repair.ops, rest);
    assert rest == [rest[0]] + [rest[1]];
    ExecAppend(d1, [rest[0]], [rest[1]]);
    ExecOne(d1, rest[0]);
    ExecOne(Do(d1, rest[0]), rest[1]);
  }

  lemma WindowStep(m: Moment, e: Event, a: CaCert, n: CaCert)
    requires Inv(m) && Enabled(m, e) && Overlapping(m.dir, a, n) && !RetiresReplaced(m, e, a)
    ensures Overlapping(Next(m, e).dir, a, n)
  {
  }

  lemma {:induction false} WindowLasts(ms: seq<Moment>, es: seq<Event>, s: nat, i: nat, a: CaCert, n: CaCert)
    requires Run(ms, es) && s <= i <= |es| && Overlapping(ms[s].dir, a, n)
    requires forall k :: s <= k < i ==> !RetiresReplaced(ms[k], es[k], a)
    ensures Overlapping(ms[i].dir, a, n)
    decreases i
  {
    hide Overlapping, RetiresReplaced, Enabled, Next, Inv;
    if s < i {
      WindowLasts(ms, es, s, i - 1, a, n);
      RunKeeps(ms, es, i - 1);
      WindowStep(ms[i - 1], es[i - 1], a, n);
    }
  }

  // ---- Tokens ------------------------------------------------------------------------

  const DEFAULT_JWT_TTL: Time := 5 * MINUTE
  const MAX_JWT_TTL: Time := 24 * HOUR

  function ClampTTL(ttl: Time): Time {
    if ttl <= 0 then DEFAULT_JWT_TTL else if ttl > MAX_JWT_TTL then MAX_JWT_TTL else ttl
  }

  /** The expiry claim of a token signed at `now`: whole seconds. */
  function Expiry(now: Time, ttl: Time): Time { ToSecond(now + ClampTTL(ttl)) }

  /** A token lives for what was asked, five minutes if nothing was, a day at the most,
      less the part of a second its expiry is cut by. */
  lemma LifetimeExact(now: Time, ttl: Time)
    ensures var life := if ttl <= 0 then 300 * SECOND else if ttl > 86400 * SECOND then 86400 * SECOND else ttl;
      Expiry(now, ttl) <= now + life < Expiry(now, ttl) + SECOND && Expiry(now, ttl) % SECOND == 0
  {
  }

  /** `verificationKey`: the first trusted key with the token's key id, or the active
      one when the token names none. */
  function VerificationKey(trusted: seq<CaCert>, active: CaCert, kid: Option<nat>): Option<nat> {
    if trusted == [] then None
    else if (kid.None? && trusted[0] == active) || kid == Some(trusted[0].key) then Some(trusted[0].key)
    else VerificationKey(trusted[1..], active, kid)
  }

  /** A named key is found exactly when it is trusted, and then it is that key. */
  lemma {:induction false} NamedKeyFound(trusted: seq<CaCert>, active: CaCert, k: nat)
    ensures VerificationKey(trusted, active, Some(k))
      == if exists c :: c in trusted && c.key == k then Some(k) else None
  {
    if trusted != [] {
      NamedKeyFound(trusted[1..], active, k);
      assert trusted == [trusted[0]] + trusted[1..];
    }
  }

  /** A token that names no key is checked against the active one. */
  lemma {:induction false} UnnamedKeyIsActive(trusted: seq<CaCert>, active: CaCert)
    ensures VerificationKey(trusted, active, None) == if active in trusted then Some(active.key) else None
  {
    if trusted != [] {
      UnnamedKeyIsActive(trusted[1..], active);
      assert trusted == [trusted[0]] + trusted[1..];
    }
  }

  /** Between a completed prepare and the retire of the CA it replaces, a server that
      loaded any disk state accepts the key a server that loaded any other signs with. */
  lemma ServersAgree(ms: seq<Moment>, es: seq<Event>, s: nat, i: nat, j: nat, a: CaCert, n: CaCert)
    requires Run(ms, es) && s <= i <= |es| && s <= j <= |es| && Overlapping(ms[s].dir, a, n)
    requires forall k :: s <= k < i || s <= k < j ==> !RetiresReplaced(ms[k], es[k], a)
    ensures Read(ms[i].dir).Some? && Read(ms[j].dir).Some?
    ensures var signer, verifier := Read(ms[i].dir).value, Read(ms[j].dir).value;
      && signer.cert in verifier.trusted
      && VerificationKey(verifier.trusted, verifier.cert, Some(signer.cert.key)) == Some(signer.cert.key)
  {
    hide RetiresReplaced, VerificationKey, Enabled, Next;
    WindowLasts(ms, es, s, i, a, n);
    WindowLasts(ms, es, s, j, a, n);
    SoundReads(ms[i].dir);
    SoundReads(ms[j].dir);
    var signer, verifier := Read(ms[i].dir).value, Read(ms[j].dir).value;
    assert signer.cert in verifier.trusted;
    NamedKeyFound(verifier.trusted, verifier.cert, signer.cert.key);
  }

  // ---- When a retire is safe ------------------------------------------------------------

  /** A previous CA always comes with the time its replacement was recorded. */
  predicate Dated(d: Dir) { d.prev.Some? ==> d.since.Recorded? }

  lemma {:induction false} RunDated(ms: seq<Moment>, es: seq<Event>, n: nat)
    requires Run(ms, es) && n <= |es| && Dated(ms[0].dir)
    ensures Dated(ms[n].dir)
  {
    hide CommandPlan, AllFitting, Sound;
    if n > 0 {
      RunDated(ms, es, n - 1);
      RunKeeps(ms, es, n - 1);
      StepKeeps(ms[n - 1], es[n - 1]);
    }
  }

  lemma WholeSeconds(t: Time)
    ensures ToSecond(t) <= t && ToSecond(t + MAX_JWT_TTL) == ToSecond(t) + MAX_JWT_TTL
  {
  }

  lemma ToSecondMonotone(a: Time, b: Time)
    requires a <= b
    ensures ToSecond(a) <= ToSecond(b)
  {
  }

  /** An unforced retire at `now` goes ahead only when every token signed up to the
      moment whose second is recorded has reached its expiry, whatever its lifetime. */
  lemma RetireWaitsForTokens(d: Dir, now: Time, recordedAt: Time, signedAt: Time, ttl: Time)
    requires d.since == Recorded(ToSecond(recordedAt)) && signedAt <= recordedAt
    requires RemovePrev in CommandPlan(d, Retire(false, now)).ops
    ensures Expiry(signedAt, ttl) <= now
  {
  }

  /** The wait covers every token the old CA signed before it stopped at `stopped`
      exactly when it stopped within the recorded second. An activation resumed after
      a crash keeps the time of the first attempt, so it may not. */
  lemma WaitCoversIff(recordedAt: Time, stopped: Time)
    requires recordedAt <= stopped
    ensures (forall signedAt, ttl | signedAt <= stopped :: Expiry(signedAt, ttl) <= ToSecond(recordedAt) + RETIRE_AFTER)
      <==> ToSecond(stopped) == ToSecond(recordedAt)
  {
    ToSecondMonotone(recordedAt, stopped);
    WholeSeconds(stopped);
    if ToSecond(stopped) == ToSecond(recordedAt) {
      forall signedAt, ttl | signedAt <= stopped ensures Expiry(signedAt, ttl) <= ToSecond(recordedAt) + RETIRE_AFTER {
        ToSecondMonotone(signedAt + ClampTTL(ttl), stopped + MAX_JWT_TTL);
      }
    } else {
      assert Expiry(stopped, MAX_JWT_TTL) == ToSecond(stopped) + RETIRE_AFTER;
    }
  }

  /** Such a resumption: an activation at second 10 crashes with the old certificate
      set aside, is resumed a day later, and the old CA may be retired at once. */
  lemma ResumedActivationIsEarly()
    ensures var a, n := CaCert(1, 1), CaCert(2, 2);
      var d0 := Dir(Some(1), Some(a), Some(2), Some(n), None, 0, NoSince);
      var d1 := Interrupted(d0, Activate(10 * SECOND), 2);
      var later := 10 * SECOND + DAY;
      && Read(d1).Some? && Read(d1).value.cert == a
      && var d2 := Exec(d1, CommandPlan(d1, Activate(later)).ops);
         && Read(d2).Some? && Read(d2).value.cert == n && RemovePrev in CommandPlan(d2, Retire(false, later)).ops
         && Expiry(later - MINUTE, DAY) > later
  {
    var a, n := CaCert(1, 1), CaCert(2, 2);
    var d0 := Dir(Some(1), Some(a), Some(2), Some(n), None, 0, NoSince);
    var t := 10 * SECOND;
    assert Exec(d0, []) == d0;
    var ops := [WriteSince(t), WritePrev(a, t), RenameKey, RenameCrt];
    assert CommandPlan(d0, Activate(t)).ops == ops;
    assert ops[..2] == [ops[0]] + [ops[1]];
    ExecAppend(d0, [ops[0]], [ops[1]]);
    ExecOne(d0, ops[0]);
    ExecOne(Do(d0, ops[0]), ops[1]);
    var d1 := Interrupted(d0, Activate(t), 2);
    assert d1 == Dir(Some(1), Some(a), Some(2), Some(n), Some(a), t, Recorded(t));
    var later := t + DAY;
    assert Exec(d1, []) == d1;
    var more := [RenameKey, RenameCrt];
    assert CommandPlan(d1, Activate(later)).ops == more;
    assert more == [more[0]] + [more[1]];
    ExecAppend(d1, [more[0]], [more[1]]);
    ExecOne(d1, more[0]);
    ExecOne(Do(d1, more[0]), more[1]);
    var d2 := Exec(d1, more);
    assert d2 == Dir(Some(2), Some(n), None, None, Some(a), t, Recorded(t));
    assert Exec(d2, []) == d2;
    assert CommandPlan(d2, Retire(false, later)).ops == [RemovePrev, RemoveSince];
  }
}
