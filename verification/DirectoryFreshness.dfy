/** The policy directory fails closed: write handlers, the background sync and
    evaluations on one replica, interleaved in every possible way. A version stands
    for the database after that many commits. */
module DirectoryFreshness {
  import opened Decisions

  /** The versions the engine's domains, groups and policies were read at. */
  datatype Loaded = Loaded(domains: nat, groups: nat, policies: nat)

  predicate AtLeast(l: Loaded, v: nat) { v <= l.domains && v <= l.groups && v <= l.policies }

  /** A write handler, from its commit to the return of `refreshAfterWrite`. */
  datatype Writer = Waiting(version: nat) | Refreshing(version: nat) | Failed(version: nat) | Returned(version: nat)

  /** How far the one reload under way is, and who runs it. */
  datatype Reload =
    | Idle
    | Started(writer: Option<nat>)
    | HaveDomains(writer: Option<nat>, domains: nat)
    | HaveGroups(writer: Option<nat>, domains: nat, groups: nat)
    | Installed(writer: Option<nat>)
    | HavePolicies(writer: Option<nat>, policies: nat)
    | PoliciesLoaded(writer: Option<nat>)
    | BadPolicies(writer: Option<nat>)
    | Failing(writer: Option<nat>)

  /** Whether evaluation is open: closed by a failure, or by age once the sync runs. */
  datatype Gate = Gate(broken: bool, loadedAt: Option<Time>, interval: Time)

  const STALE_AFTER := 3

  predicate TooOld(g: Gate, now: Time) {
    g.interval > 0 && (g.loadedAt.None? || now - g.loadedAt.value > STALE_AFTER * g.interval)
  }

  /** `directoryStale`. */
  predicate Shut(g: Gate, now: Time) { g.broken || TooOld(g, now) }

  datatype State = State(
    committed: nat,
    loaded: Loaded,
    gate: Gate,
    reload: Reload,
    writers: map<nat, Writer>,
    clock: Time)

  datatype Step =
    | Commit(w: nat)
    | CommitElsewhere
    | BeginSync
    | BeginWrite(w: nat)
    | ReadDomains
    | ReadGroups
    | Install
    | ReadPolicies
    | LoadPolicies(ok: bool)
    | Fail
    | MarkBadSet
    | Finish(now: Time)
    | GiveUp
    | MarkBroken(w: nat)
    | StartSync(interval: Time)
    | Tick(now: Time)

  predicate Enabled(s: State, step: Step) {
    match step
    case Commit(w) => w !in s.writers
    case BeginSync => s.reload.Idle?
    case BeginWrite(w) => s.reload.Idle? && w in s.writers && s.writers[w].Waiting?
    case ReadDomains => s.reload.Started?
    case ReadGroups => s.reload.HaveDomains?
    case Install => s.reload.HaveGroups?
    case ReadPolicies => s.reload.Installed?
    case LoadPolicies(_) => s.reload.HavePolicies?
    case Fail => s.reload.Started? || s.reload.HaveDomains? || s.reload.Installed?
    case MarkBadSet => s.reload.BadPolicies?
    case Finish(now) => s.reload.PoliciesLoaded? && s.clock <= now
    case GiveUp => s.reload.Failing?
    case MarkBroken(w) => w in s.writers && s.writers[w].Failed?
    case Tick(now) => s.clock <= now
    case _ => true
  }

  /** The reload's writer, if it has one, moves on. */
  function Moved(s: State, writer: Option<nat>, ok: bool): map<nat, Writer> {
    if writer.Some? && writer.value in s.writers then
      var v := s.writers[writer.value].version;
      s.writers[writer.value := if ok then Returned(v) else Failed(v)]
    else s.writers
  }

  function Next(s: State, step: Step): State
    requires Enabled(s, step)
  {
    match step
    case Commit(w) => s.(committed := s.committed + 1, writers := s.writers[w := Waiting(s.committed + 1)])
    case CommitElsewhere => s.(committed := s.committed + 1)
    case BeginSync => s.(reload := Started(None))
    case BeginWrite(w) => s.(reload := Started(Some(w)), writers := s.writers[w := Refreshing(s.writers[w].version)])
    case ReadDomains => s.(reload := HaveDomains(s.reload.writer, s.committed))
    case ReadGroups => s.(reload := HaveGroups(s.reload.writer, s.reload.domains, s.committed))
    case Install =>
      s.(loaded := s.loaded.(domains := s.reload.domains, groups := s.reload.groups),
         reload := Installed(s.reload.writer))
    case ReadPolicies => s.(reload := HavePolicies(s.reload.writer, s.committed))
    case LoadPolicies(ok) =>
      if ok then s.(loaded := s.loaded.(policies := s.reload.policies), reload := PoliciesLoaded(s.reload.writer))
      else s.(reload := BadPolicies(s.reload.writer))
    case Fail => s.(reload := Failing(s.reload.writer))
    case MarkBadSet => s.(gate := s.gate.(broken := true), reload := Failing(s.reload.writer))
    case Finish(now) =>
      s.(gate := s.gate.(loadedAt := Some(now), broken := false), clock := now,
         writers := Moved(s, s.reload.writer, true), reload := Idle)
    case GiveUp => s.(writers := Moved(s, s.reload.writer, false), reload := Idle)
    case MarkBroken(w) => s.(gate := s.gate.(broken := true), writers := s.writers[w := Returned(s.writers[w].version)])
    case StartSync(interval) => s.(gate := s.gate.(interval := interval))
    case Tick(now) => s.(clock := now)
  }

  // ---- The invariant ------------------------------------------------------------------

  /** Every write that has tried its reload, or is at it. */
  predicate Tried(w: Writer) { !w.Waiting? }

  /** What the reload under way has read is no older than v. */
  predicate ReadsSince(s: State, v: nat) {
    match s.reload
    case HaveDomains(_, d) => v <= d
    case HaveGroups(_, d, g) => v <= d && v <= g
    case Installed(_) => v <= s.loaded.domains && v <= s.loaded.groups
    case HavePolicies(_, p) => v <= s.loaded.domains && v <= s.loaded.groups && v <= p
    case PoliciesLoaded(_) => AtLeast(s.loaded, v)
    case _ => true
  }

  /** The writer a reload is run for is waiting for its end. */
  predicate OwnerInv(s: State) {
    !s.reload.Idle? && s.reload.writer.Some? ==>
      s.reload.writer.value in s.writers && s.writers[s.reload.writer.value].Refreshing?
  }

  /** A finished write is in what is loaded, or evaluation is closed. */
  ghost predicate FreshInv(s: State) {
    && (forall w :: w in s.writers && Tried(s.writers[w]) ==> ReadsSince(s, s.writers[w].version))
    && (forall w :: w in s.writers && s.writers[w].Returned? ==>
          s.gate.broken || AtLeast(s.loaded, s.writers[w].version))
    && (forall w :: w in s.writers ==> s.writers[w].version <= s.committed)
  }

  /** The reload never takes the engine back to an older version. */
  ghost predicate ForwardInv(s: State) {
    && s.loaded.domains <= s.committed && s.loaded.groups <= s.committed && s.loaded.policies <= s.committed
    && match s.reload
       case HaveDomains(_, d) => s.loaded.domains <= d <= s.committed
       case HaveGroups(_, d, g) => s.loaded.domains <= d <= s.committed && s.loaded.groups <= g <= s.committed
       case HavePolicies(_, p) => s.loaded.policies <= p <= s.committed
       case _ => true
  }

  lemma ForwardStep(s: State, step: Step)
    requires ForwardInv(s) && Enabled(s, step)
    ensures ForwardInv(Next(s, step))
    ensures var l, l' := s.loaded, Next(s, step).loaded;
      l.domains <= l'.domains && l.groups <= l'.groups && l.policies <= l'.policies
  {
  }

  lemma OwnerStep(s: State, step: Step)
    requires OwnerInv(s) && Enabled(s, step)
    ensures OwnerInv(Next(s, step))
  {
  }

  /** A write keeps its version; it is new, or was already there, no less far on. */
  lemma WriterStep(s: State, step: Step, w: nat)
    requires OwnerInv(s) && Enabled(s, step) && w in Next(s, step).writers
    ensures var w' := Next(s, step).writers[w];
      if w in s.writers
      then w'.version == s.writers[w].version && (Tried(w') ==> Tried(s.writers[w]) || step == BeginWrite(w))
      else w' == Waiting(Next(s, step).committed)
    ensures w in s.writers && Next(s, step).writers[w].Returned? && !s.writers[w].Returned? ==>
      step == MarkBroken(w) || (step.Finish? && s.writers[w].Refreshing?)
  {
  }

  lemma ReadsStep(s: State, step: Step, v: nat)
    requires Enabled(s, step) && ForwardInv(s) && v <= s.committed && (ReadsSince(s, v) || step.BeginWrite?)
    ensures ReadsSince(Next(s, step), v)
  {
  }

  lemma FreshStep(s: State, step: Step)
    requires FreshInv(s) && ForwardInv(s) && OwnerInv(s) && Enabled(s, step)
    ensures FreshInv(Next(s, step))
  {
    var s' := Next(s, step);
    ForwardStep(s, step);
    forall w | w in s'.writers
      ensures s'.writers[w].version <= s'.committed
      ensures Tried(s'.writers[w]) ==> ReadsSince(s', s'.writers[w].version)
      ensures s'.writers[w].Returned? ==> s'.gate.broken || AtLeast(s'.loaded, s'.writers[w].version)
    {
      hide Next, Enabled, ForwardInv;
      WriterStep(s, step, w);
      assert s.committed <= s'.committed;
      if w in s.writers {
        var v := s.writers[w].version;
        if Tried(s.writers[w]) || step == BeginWrite(w) { ReadsStep(s, step, v); }
        FinishStep(s, step);
      }
    }
  }

  /** Evaluation only opens again when a whole reload is loaded. */
  lemma FinishStep(s: State, step: Step)
    requires Enabled(s, step)
    ensures s.gate.broken && !Next(s, step).gate.broken ==> s.reload.PoliciesLoaded? && Next(s, step).loaded == s.loaded
    ensures step.Finish? ==> s.reload.PoliciesLoaded? && Next(s, step).loaded == s.loaded
    ensures step.MarkBroken? ==> Next(s, step).gate.broken
  {
  }

  // ---- Runs --------------------------------------------------------------------------------

  predicate Stale(s: State) { Shut(s.gate, s.clock) }

  ghost predicate Run(ss: seq<State>, steps: seq<Step>) {
    && |ss| == |steps| + 1 && ss[0].reload.Idle? && ss[0].writers == map[] && ForwardInv(ss[0])
    && forall i :: 0 <= i < |steps| ==> Enabled(ss[i], steps[i]) && ss[i + 1] == Next(ss[i], steps[i])
  }

  lemma {:induction false} RunInv(ss: seq<State>, steps: seq<Step>, n: nat)
    requires Run(ss, steps) && n <= |steps|
    ensures FreshInv(ss[n]) && ForwardInv(ss[n]) && OwnerInv(ss[n])
  {
    hide Enabled, Next, FreshInv, ForwardInv;
    if n == 0 {
      assert FreshInv(ss[0]) by { NoWriters(ss[0]); }
    } else {
      RunInv(ss, steps, n - 1);
      ForwardStep(ss[n - 1], steps[n - 1]);
      OwnerStep(ss[n - 1], steps[n - 1]);
      FreshStep(ss[n - 1], steps[n - 1]);
    }
  }

  lemma NoWriters(s: State)
    requires s.writers == map[]
    ensures FreshInv(s)
  {
  }

  lemma {:induction false} LoadedForward(ss: seq<State>, steps: seq<Step>, i: nat, j: nat)
    requires Run(ss, steps) && i <= j <= |steps|
    ensures var l, l' := ss[i].loaded, ss[j].loaded;
      l.domains <= l'.domains && l.groups <= l'.groups && l.policies <= l'.policies
    decreases j
  {
    hide Enabled, Next, FreshInv, ForwardInv;
    if i < j {
      LoadedForward(ss, steps, i, j - 1);
      RunInv(ss, steps, j - 1);
      ForwardStep(ss[j - 1], steps[j - 1]);
    }
  }

  /** The main result: an evaluation admitted at step a and reading the engine at any
      later step j sees domains, groups and policies read after every write whose
      handler had returned when it was admitted. */
  lemma AdmittedSeesWrites(ss: seq<State>, steps: seq<Step>, a: nat, j: nat, w: nat)
    requires Run(ss, steps) && a <= j <= |steps| && !Stale(ss[a])
    requires w in ss[a].writers && ss[a].writers[w].Returned?
    ensures AtLeast(ss[j].loaded, ss[a].writers[w].version)
  {
    hide Enabled, Next, ForwardInv, ReadsSince;
    RunInv(ss, steps, a);
    LoadedForward(ss, steps, a, j);
  }

  lemma {:induction false} ReturnedStays(ss: seq<State>, steps: seq<Step>, n: nat, m: nat, w: nat)
    requires Run(ss, steps) && n <= m <= |steps| && w in ss[n].writers && ss[n].writers[w].Returned?
    ensures w in ss[m].writers && ss[m].writers[w] == ss[n].writers[w]
    decreases m
  {
    hide Enabled, Next, FreshInv, ForwardInv;
    if n < m {
      ReturnedStays(ss, steps, n, m - 1, w);
      RunInv(ss, steps, m - 1);
      ReturnedStep(ss[m - 1], steps[m - 1], w);
    }
  }

  lemma ReturnedStep(s: State, step: Step, w: nat)
    requires OwnerInv(s) && Enabled(s, step) && w in s.writers && s.writers[w].Returned?
    ensures w in Next(s, step).writers && Next(s, step).writers[w] == s.writers[w]
  {
  }

  /** A write whose reload failed: evaluation is closed when its handler returns, and at
      every later moment it is closed or the write is loaded. */
  lemma FailedReloadCloses(ss: seq<State>, steps: seq<Step>, n: nat, w: nat, m: nat)
    requires Run(ss, steps) && n < m <= |steps| && steps[n] == MarkBroken(w)
    ensures Stale(ss[n + 1]) && w in ss[n].writers
    ensures Stale(ss[m]) || AtLeast(ss[m].loaded, ss[n].writers[w].version)
  {
    hide ForwardInv, ReadsSince;
    ReturnedStays(ss, steps, n + 1, m, w);
    RunInv(ss, steps, m);
  }

  // ---- A reload without interruption -------------------------------------------------------

  /** How a reload comes out. */
  datatype Outcome = Whole | NothingRead | DirectoryOnly | BadSet

  /** The steps of one reload, by the sync or, with `w`, after a write. */
  function Begin(w: Option<nat>): Step { if w.Some? then BeginWrite(w.value) else BeginSync }

  function End(w: Option<nat>): seq<Step> { if w.Some? then [GiveUp, MarkBroken(w.value)] else [GiveUp] }

  function Steps(o: Outcome, w: Option<nat>, now: Time): seq<Step> {
    match o
    case Whole => [Begin(w), ReadDomains, ReadGroups, Install, ReadPolicies, LoadPolicies(true), Finish(now)]
    case NothingRead => [Begin(w), Fail] + End(w)
    case DirectoryOnly => [Begin(w), ReadDomains, ReadGroups, Install, Fail] + End(w)
    case BadSet => [Begin(w), ReadDomains, ReadGroups, Install, ReadPolicies, LoadPolicies(false), MarkBadSet] + End(w)
  }

  /** The gate after a reload: a whole one opens it, a bad set or a failed one after a
      write closes it, any other failure leaves it. */
  function GateAfter(g: Gate, o: Outcome, write: bool, now: Time): Gate {
    if o.Whole? then g.(broken := false, loadedAt := Some(now))
    else if write || o.BadSet? then g.(broken := true)
    else g
  }

  ghost predicate Path(s: State, steps: seq<Step>, s': State)
    decreases |steps|
  {
    if steps == [] then s == s' else Enabled(s, steps[0]) && Path(Next(s, steps[0]), steps[1..], s')
  }

  lemma {:induction false} PathAppend(s: State, a: seq<Step>, mid: State, b: seq<Step>, s': State)
    requires Path(s, a, mid) && Path(mid, b, s')
    ensures Path(s, a + b, s')
    decreases |a|
  {
    hide Enabled, Next;
    if a == [] { assert a + b == b; } else {
      assert (a + b)[1..] == a[1..] + b;
      PathAppend(Next(s, a[0]), a[1..], mid, b, s');
    }
  }

  lemma PathOne(s: State, step: Step)
    requires Enabled(s, step)
    ensures Path(s, [step], Next(s, step))
  {
    assert [step][1..] == [];
    assert Path(Next(s, step), [], Next(s, step));
  }

  lemma PathSnoc(s: State, steps: seq<Step>, mid: State, step: Step)
    requires Path(s, steps, mid) && Enabled(mid, step)
    ensures Path(s, steps + [step], Next(mid, step))
  {
    hide Enabled, Next;
    PathOne(mid, step);
    PathAppend(s, steps, mid, [step], Next(mid, step));
  }

  /** A reload may begin: none is under way, and its writer, if any, waits for one. */
  predicate CanBegin(s: State, w: Option<nat>) {
    s.reload.Idle? && (w.Some? ==> w.value in s.writers && s.writers[w.value].Waiting?)
  }

  function Begun(s: State, w: Option<nat>): State
    requires CanBegin(s, w)
  {
    s.(reload := Started(w),
       writers := if w.Some? then s.writers[w.value := Refreshing(s.writers[w.value].version)] else s.writers)
  }

  lemma BeginsAndInstalls(s: State, w: Option<nat>)
    requires CanBegin(s, w)
    ensures Path(s, [Begin(w)], Begun(s, w))
    ensures var s1 := Begun(s, w);
      Path(s, [Begin(w), ReadDomains, ReadGroups, Install],
           s1.(loaded := s1.loaded.(domains := s.committed, groups := s.committed), reload := Installed(w)))
  {
    hide Path;
    var s1 := Begun(s, w);
    PathOne(s, Begin(w));
    var s2 := s1.(reload := HaveDomains(w, s.committed));
    PathSnoc(s, [Begin(w)], s1, ReadDomains);
    var s3 := s1.(reload := HaveGroups(w, s.committed, s.committed));
    PathSnoc(s, [Begin(w)] + [ReadDomains], s2, ReadGroups);
    PathSnoc(s, [Begin(w)] + [ReadDomains] + [ReadGroups], s3, Install);
    assert [Begin(w)] + [ReadDomains] + [ReadGroups] + [Install] == [Begin(w), ReadDomains, ReadGroups, Install];
  }

  /** A reload that has failed gives up, and its writer closes evaluation. */
  lemma GivesUp(s: State, w: Option<nat>) returns (s': State)
    requires s.reload == Failing(w) && (w.Some? ==> w.value in s.writers)
    ensures Path(s, End(w), s') && s'.reload.Idle? && s'.gate == if w.Some? then s.gate.(broken := true) else s.gate
  {
    hide Path;
    s' := Next(s, GiveUp);
    PathOne(s, GiveUp);
    if w.Some? {
      PathSnoc(s, [GiveUp], s', MarkBroken(w.value));
      s' := Next(s', MarkBroken(w.value));
      assert [GiveUp] + [MarkBroken(w.value)] == End(w);
    }
  }

  /** One whole reload of the object is this run of steps, and leaves the same gate. */
  lemma ReloadIsSteps(s: State, o: Outcome, w: Option<nat>, now: Time) returns (s': State)
    requires CanBegin(s, w) && s.clock <= now
    ensures Path(s, Steps(o, w, now), s') && s'.reload.Idle? && s'.gate == GateAfter(s.gate, o, w.Some?, now)
  {
    hide Path, Next, Begun;
    BeginsAndInstalls(s, w);
    BegunIs(s, w);
    var s1 := Begun(s, w);
    var s4 := s1.(loaded := s1.loaded.(domains := s.committed, groups := s.committed), reload := Installed(w));
    var four := [Begin(w), ReadDomains, ReadGroups, Install];
    match o {
      case Whole => s' := Finishes(s, four, s4, w, now);
      case NothingRead =>
        s' := FailsAfter(s, [Begin(w)], s1, w);
        assert [Begin(w)] + [Fail] + End(w) == Steps(o, w, now);
      case DirectoryOnly =>
        s' := FailsAfter(s, four, s4, w);
        assert four + [Fail] + End(w) == Steps(o, w, now);
      case BadSet => s' := MeetsBadSet(s, four, s4, w, now);
    }
  }

  lemma BegunIs(s: State, w: Option<nat>)
    requires CanBegin(s, w)
    ensures var s1 := Begun(s, w);
      s1.gate == s.gate && s1.reload == Started(w) && s1.clock == s.clock && (w.Some? ==> w.value in s1.writers)
  {
  }

  lemma FailsAfter(s: State, steps: seq<Step>, mid: State, w: Option<nat>) returns (s': State)
    requires Path(s, steps, mid) && (mid.reload == Started(w) || mid.reload == Installed(w))
    requires w.Some? ==> w.value in mid.writers
    ensures Path(s, steps + [Fail] + End(w), s') && s'.reload.Idle?
    ensures s'.gate == if w.Some? then mid.gate.(broken := true) else mid.gate
  {
    hide Path;
    PathSnoc(s, steps, mid, Fail);
    s' := GivesUp(Next(mid, Fail), w);
    PathAppend(s, steps + [Fail], Next(mid, Fail), End(w), s');
  }

  lemma Finishes(s: State, four: seq<Step>, s4: State, w: Option<nat>, now: Time) returns (s': State)
    requires four == [Begin(w), ReadDomains, ReadGroups, Install] && Path(s, four, s4)
    requires s4.reload == Installed(w) && s4.clock <= now
    ensures Path(s, Steps(Whole, w, now), s') && s'.reload.Idle?
    ensures s'.gate == s4.gate.(broken := false, loadedAt := Some(now))
  {
    hide Path;
    PathSnoc(s, four, s4, ReadPolicies);
    var s5 := Next(s4, ReadPolicies);
    PathSnoc(s, four + [ReadPolicies], s5, LoadPolicies(true));
    var s6 := Next(s5, LoadPolicies(true));
    PathSnoc(s, four + [ReadPolicies] + [LoadPolicies(true)], s6, Finish(now));
    s' := Next(s6, Finish(now));
    assert four + [ReadPolicies] + [LoadPolicies(true)] + [Finish(now)] == Steps(Whole, w, now);
  }

  lemma MeetsBadSet(s: State, four: seq<Step>, s4: State, w: Option<nat>, now: Time) returns (s': State)
    requires four == [Begin(w), ReadDomains, ReadGroups, Install] && Path(s, four, s4)
    requires s4.reload == Installed(w) && (w.Some? ==> w.value in s4.writers)
    ensures Path(s, Steps(BadSet, w, now), s') && s'.reload.Idle? && s'.gate == s4.gate.(broken := true)
  {
    hide Path;
    PathSnoc(s, four, s4, ReadPolicies);
    var s5 := Next(s4, ReadPolicies);
    PathSnoc(s, four + [ReadPolicies], s5, LoadPolicies(false));
    var s6 := Next(s5, LoadPolicies(false));
    PathSnoc(s, four + [ReadPolicies] + [LoadPolicies(false)], s6, MarkBadSet);
    var seven := four + [ReadPolicies] + [LoadPolicies(false)] + [MarkBadSet];
    s' := GivesUp(Next(s6, MarkBadSet), w);
    PathAppend(s, seven, Next(s6, MarkBadSet), End(w), s');
    assert seven + End(w) == Steps(BadSet, w, now);
  }
}
