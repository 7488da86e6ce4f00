/** Reporting and storing the kept CAs outside the lock: concurrent callers, each
    taking the delivery lock before it lets go of the state lock, and savers that
    skip when another is at work. */
module KeptDelivery {
  import opened Decisions
  import opened CaOverlap
  import opened CaOverlapRuns
  import opened KeptEvents

  /** What a snapshot stores, and the version it was taken at. */
  datatype Snapshot = Snapshot(version: nat, current: set<Cert>, retired: map<Cert, Kept>)

  function Snap(o: Overlap): Snapshot { Snapshot(o.version, o.current, o.retired) }

  /** What a caller carries out of the state lock: its events, the kept set at that
      moment, and the snapshot to store, if any. */
  datatype Handoff = Handoff(events: seq<KeptEvent>, seen: set<Cert>, snap: Option<Snapshot>)

  /** The caller that holds the state lock, by how far it is. */
  datatype Inside = Nobody | Locked | Collected(handoff: Handoff) | Handing

  /** The caller that holds the save lock, by how far it is. */
  datatype Saver = Free | Saving(wanted: Snapshot) | Written(wanted: Snapshot)

  /** A lock is a place for one caller; `waiting` are the callers about to save. `log`
      is every event in the order its change was made; `past` the states the process
      went through, by version. */
  datatype State = State(
    o: Overlap,
    pending: seq<KeptEvent>,
    inside: Inside,
    delivering: Option<Handoff>,
    waiting: seq<Snapshot>,
    saver: Saver,
    delivered: seq<KeptEvent>,
    saved: nat,
    stored: Option<Snapshot>,
    log: seq<KeptEvent>,
    past: map<nat, Snapshot>)

  datatype Step =
    | Lock
    | Change(op: Op, events: seq<KeptEvent>)
    | Collect
    | TakeDelivery
    | Release
    | Deliver
    | EndDelivery
    | TrySave(i: nat)
    | Write(ok: bool)
    | MarkSaved

  /** The kept CAs the operation reports as dropped. */
  function OpMisreports(o: Overlap, op: Op): set<Cert> {
    match op
    case UpdateOp(fetched, stored, now) => Misreports(o, stored, Certs(fetched), now)
    case AttachOp(rows, now) => Misreports(o, Some(rows), o.current, now)
    case _ => {}
  }

  /** What the methods of the overlap promise about the events they queue. */
  ghost predicate Reports(o: Overlap, op: Op, events: seq<KeptEvent>) {
    Fold(o.retired.Keys, events) == Apply(o, op).retired.Keys - OpMisreports(o, op)
  }

  /** After the boot fetch, the store is attached before the next refresh. */
  predicate InBootOrder(o: Overlap, op: Op) { op.UpdateOp? ==> o.baselined }

  ghost predicate Enabled(s: State, step: Step) {
    match step
    case Lock => s.inside.Nobody?
    case Change(op, events) => s.inside.Locked? && InBootOrder(s.o, op) && Reports(s.o, op, events)
    case Collect => s.inside.Locked?
    case TakeDelivery => s.inside.Collected? && s.delivering.None?
    case Release => s.inside.Handing?
    case Deliver => !s.inside.Handing? && s.delivering.Some? && s.delivering.value.events != []
    case EndDelivery => !s.inside.Handing? && s.delivering.Some? && s.delivering.value.events == []
    case TrySave(i) => i < |s.waiting|
    case Write(_) => s.saver.Saving?
    case MarkSaved => s.saver.Written?
  }

  ghost function Next(s: State, step: Step): State
    requires Enabled(s, step)
  {
    match step
    case Lock => s.(inside := Locked)
    case Change(op, events) =>
      var o := Apply(s.o, op);
      s.(o := o, pending := s.pending + events, log := s.log + events, past := s.past[o.version := Snap(o)])
    case Collect =>
      var snap := if s.o.attached && s.o.version != s.saved then Some(Snap(s.o)) else None;
      s.(pending := [], inside := Collected(Handoff(s.pending, s.o.retired.Keys, snap)))
    case TakeDelivery => s.(inside := Handing, delivering := Some(s.inside.handoff))
    case Release => s.(inside := Nobody)
    case Deliver =>
      var h := s.delivering.value;
      s.(delivered := s.delivered + [h.events[0]], delivering := Some(h.(events := h.events[1..])))
    case EndDelivery =>
      var snap := s.delivering.value.snap;
      s.(delivering := None, waiting := s.waiting + (if snap.Some? then [snap.value] else []))
    case TrySave(i) =>
      var wanted, rest := s.waiting[i], s.waiting[..i] + s.waiting[i + 1..];
      if !s.saver.Free? || wanted.version <= s.saved then s.(waiting := rest)
      else s.(waiting := rest, saver := Saving(wanted))
    case Write(ok) =>
      if ok then s.(stored := Some(s.saver.wanted), saver := Written(s.saver.wanted)) else s.(saver := Free)
    case MarkSaved => s.(saved := s.saver.wanted.version, saver := Free)
  }

  // ---- Versions ---------------------------------------------------------------

  /** The version tells the stored states apart. */
  predicate Counts(o: Overlap, o': Overlap) {
    o.version <= o'.version && (o.version == o'.version ==> o'.retired == o.retired && o'.current == o.current)
  }

  lemma {:induction false} MergeCounts(m: Merging, rows: seq<Row>, next: set<Cert>, now: Time, first: bool)
    ensures Counts(m.o, MergeRows(m, rows, next, now, first).o)
    ensures MergeRows(m, rows, next, now, first).o.current == m.o.current
    ensures MergeRows(m, rows, next, now, first).o.baselined == m.o.baselined
  {
    if rows != [] { MergeCounts(m, rows[..|rows| - 1], next, now, first); }
  }

  lemma RetireCounts(o: Overlap, prev: set<Cert>, next: set<Cert>, now: Time)
    ensures var o' := Retire(o, prev, next, now);
      Counts(o, o') && o'.current == o.current && o'.baselined == o.baselined
  {
  }

  lemma WithoutCounts(o: Overlap, out: set<Cert>)
    ensures Counts(o, Without(o, out)) && Without(o, out).current == o.current
  {
  }

  lemma ServeCounts(o: Overlap, now: Time)
    ensures Counts(o, ServeNow(o, now)) && ServeNow(o, now).current == o.current
    ensures ServeNow(o, now).baselined == o.baselined
  {
    hide Ordered;
    WithoutCounts(o, Ended(o, now));
  }

  lemma InstalledCounts(o: Overlap, fetched: seq<Cert>, stored: Option<seq<Row>>, now: Time)
    ensures Counts(o, Installed(o, fetched, stored, now))
    ensures (o.baselined ==> Installed(o, fetched, stored, now).baselined)
  {
    hide Retire, Without, MergeRows;
    var next := Certs(fetched);
    if stored.Some? {
      MergeCounts(Merging(o.(baselined := true), o.current, []), stored.value, next, now, !o.baselined);
    }
    var m := MergeIf(o, stored, next, now);
    RetireCounts(m.o, m.prev, next, now);
    var left := Retire(m.o, m.prev, next, now).(restoreCap := map[]);
    WithoutCounts(left, next);
    assert Without(left, next).baselined == left.baselined by { WithoutFrame(left, next); }
  }

  lemma WithoutFrame(o: Overlap, out: set<Cert>)
    ensures Without(o, out).baselined == o.baselined
  {
  }

  lemma RestoredCounts(o: Overlap, rows: seq<Row>, now: Time)
    ensures Counts(o, Restored(o, rows, now)) && Restored(o, rows, now).baselined
    ensures Restored(o, rows, now).version > o.version
  {
    hide Retire, MergeRows;
    var start := o.(attached := true, baselined := true);
    MergeCounts(Merging(start, o.current, []), rows, o.current, now, !o.baselined);
    var m := Merge(o.(attached := true), rows, o.current, now);
    RetireCounts(m.o, m.prev, o.current, now);
  }

  lemma ApplyCounts(o: Overlap, op: Op)
    ensures Counts(o, Apply(o, op)) && (o.baselined ==> Apply(o, op).baselined)
    ensures op.AttachOp? ==> Apply(o, op).baselined && Apply(o, op).version > o.version
  {
    hide ServeNow, Installed, Restored, Without;
    match op
    case UpdateOp(fetched, stored, now) =>
      InstalledCounts(o, fetched, stored, now);
      ServeCounts(Installed(o, fetched, stored, now), now);
    case ServeOp(now) => ServeCounts(o, now);
    case DistrustOp(out, now) =>
      var o' := o.(distrusted := out);
      WithoutCounts(o', out);
      WithoutFrame(o', out);
      ServeCounts(Without(o', out), now);
    case AttachOp(rows, now) =>
      RestoredCounts(o, rows, now);
      ServeCounts(Restored(o, rows, now), now);
  }

  /** Until the store is attached a process keeps nothing. */
  lemma EmptyUntilAttached(o: Overlap, op: Op)
    requires o.retired == map[] && (op.ServeOp? || op.DistrustOp?)
    ensures Apply(o, op).retired == map[]
  {
  }

  // ---- The invariant ------------------------------------------------------------

  function InDelivery(s: State): seq<KeptEvent> { if s.delivering.Some? then s.delivering.value.events else [] }

  function Gathered(s: State): seq<KeptEvent> { if s.inside.Collected? then s.inside.handoff.events else [] }

  /** Every event is delivered, being delivered, collected or pending, in order. */
  ghost predicate OrderInv(s: State) {
    && s.log == s.delivered + InDelivery(s) + Gathered(s) + s.pending
    && (s.pending != [] ==> s.inside.Locked?)
    && (s.inside.Handing? ==> s.delivering.Some?)
  }

  /** The events tell the kept set, now and at each unlock. */
  ghost predicate StoryInv(s: State) {
    && Fold({}, s.log) == s.o.retired.Keys
    && (!s.o.baselined ==> s.o.retired == map[])
    && (s.inside.Collected? ==> s.inside.handoff.seen == s.o.retired.Keys)
    && (s.delivering.Some? ==> Fold({}, s.delivered + s.delivering.value.events) == s.delivering.value.seen)
  }

  /** A state the process went through by version v. */
  predicate Taken(past: map<nat, Snapshot>, v: nat, p: Snapshot) {
    p.version in past && past[p.version] == p && p.version <= v
  }

  function StoredVersion(s: State): nat { if s.stored.Some? then s.stored.value.version else 0 }

  /** Every snapshot on its way to the store is a state the process went through. */
  ghost predicate SnapsInv(s: State) {
    var past, v := s.past, s.o.version;
    && Taken(past, v, Snap(s.o))
    && (s.stored.Some? ==> Taken(past, v, s.stored.value))
    && (s.inside.Collected? && s.inside.handoff.snap.Some? ==> Taken(past, v, s.inside.handoff.snap.value))
    && (s.delivering.Some? && s.delivering.value.snap.Some? ==> Taken(past, v, s.delivering.value.snap.value))
    && (forall p :: p in s.waiting ==> Taken(past, v, p))
    && (!s.saver.Free? ==> Taken(past, v, s.saver.wanted))
  }

  /** A save under way is of a later version than the last one marked. */
  ghost predicate SaverInv(s: State) {
    && (!s.saver.Free? ==> s.saved < s.saver.wanted.version)
    && (if s.saver.Written? then s.stored == Some(s.saver.wanted) else StoredVersion(s) == s.saved)
  }

  ghost predicate Inv(s: State) { OrderInv(s) && StoryInv(s) && SnapsInv(s) && SaverInv(s) }

  lemma OrderStep(s: State, step: Step)
    requires OrderInv(s) && Enabled(s, step)
    ensures OrderInv(Next(s, step))
  {
    hide Apply, Reports;
    match step
    case Change(op, events) =>
      assert s.log + events == s.delivered + InDelivery(s) + Gathered(s) + (s.pending + events);
    case Collect => assert s.delivered + InDelivery(s) + [] + s.pending == s.delivered + InDelivery(s) + s.pending + [];
    case TakeDelivery =>
      var evs := s.inside.handoff.events;
      assert s.delivered + [] + evs + [] == s.delivered + evs + [] + [];
    case Deliver =>
      var h := s.delivering.value;
      assert s.delivered + h.events == s.delivered + [h.events[0]] + h.events[1..];
    case _ =>
  }

  /** Until the store is attached a process keeps nothing, so every operation's
      events account for what it changed. */
  lemma StoryOfChange(s: State, op: Op, events: seq<KeptEvent>)
    requires StoryInv(s) && InBootOrder(s.o, op) && Reports(s.o, op, events)
    ensures Fold({}, s.log + events) == Apply(s.o, op).retired.Keys
    ensures !Apply(s.o, op).baselined ==> Apply(s.o, op).retired == map[]
  {
    hide Apply, Fold;
    ApplyCounts(s.o, op);
    FoldAppend({}, s.log, events);
    if !s.o.baselined && !op.AttachOp? { EmptyUntilAttached(s.o, op); }
  }

  lemma StoryStep(s: State, step: Step)
    requires OrderInv(s) && StoryInv(s) && Enabled(s, step)
    ensures StoryInv(Next(s, step))
  {
    hide Apply, Fold, Reports;
    match step
    case Change(op, events) => StoryOfChange(s, op, events);
    case TakeDelivery => assert s.log == s.delivered + s.inside.handoff.events;
    case Deliver =>
      var h := s.delivering.value;
      assert s.delivered + h.events == s.delivered + [h.events[0]] + h.events[1..];
    case _ =>
  }

  /** A change adds a state to the past and takes none away. */
  lemma TakenStays(o: Overlap, past: map<nat, Snapshot>, op: Op)
    requires Taken(past, o.version, Snap(o))
    ensures var o' := Apply(o, op);
      var past' := past[o'.version := Snap(o')];
      Taken(past', o'.version, Snap(o')) && forall p :: Taken(past, o.version, p) ==> Taken(past', o'.version, p)
  {
    hide Apply;
    ApplyCounts(o, op);
  }

  lemma SnapsChange(s: State, op: Op, events: seq<KeptEvent>)
    requires SnapsInv(s) && Enabled(s, Change(op, events))
    ensures SnapsInv(Next(s, Change(op, events)))
  {
    hide Apply, Reports, Taken;
    TakenStays(s.o, s.past, op);
  }

  lemma SnapsStep(s: State, step: Step)
    requires SnapsInv(s) && Enabled(s, step) && !step.Change?
    ensures SnapsInv(Next(s, step))
  {
    hide Apply, Reports, Taken;
    if step.Collect? { assert Taken(s.past, s.o.version, Snap(s.o)); }
  }

  lemma SaverStep(s: State, step: Step)
    requires SaverInv(s) && Enabled(s, step)
    ensures SaverInv(Next(s, step))
  {
  }

  // ---- Runs -----------------------------------------------------------------------

  /** A process that has just fetched the issuer's bundle for the first time. */
  ghost function Booted(grace: Time, fetched: seq<Cert>, now: Time): State {
    var o := Update(Fresh(grace), fetched, None, now);
    State(o, [], Nobody, None, [], Free, [], 0, None, [], map[o.version := Snap(o)])
  }

  ghost predicate Run(ss: seq<State>, steps: seq<Step>) {
    && |ss| == |steps| + 1
    && forall i :: 0 <= i < |steps| ==> Enabled(ss[i], steps[i]) && ss[i + 1] == Next(ss[i], steps[i])
  }

  lemma BootedInv(grace: Time, fetched: seq<Cert>, now: Time)
    ensures Inv(Booted(grace, fetched, now))
  {
  }

  lemma {:induction false} RunInv(grace: Time, fetched: seq<Cert>, now: Time, ss: seq<State>, steps: seq<Step>, n: nat)
    requires Run(ss, steps) && ss[0] == Booted(grace, fetched, now) && n <= |steps|
    ensures Inv(ss[n])
  {
    hide Enabled, Next, OrderInv, StoryInv, SnapsInv, SaverInv, Booted;
    if n == 0 {
      BootedInv(grace, fetched, now);
    } else {
      RunInv(grace, fetched, now, ss, steps, n - 1);
      OrderStep(ss[n - 1], steps[n - 1]);
      StoryStep(ss[n - 1], steps[n - 1]);
      if steps[n - 1].Change? {
        SnapsChange(ss[n - 1], steps[n - 1].op, steps[n - 1].events);
      } else {
        SnapsStep(ss[n - 1], steps[n - 1]);
      }
      SaverStep(ss[n - 1], steps[n - 1]);
    }
  }

  /** Events reach the hook in the order of the changes, none skipped or repeated;
      when a caller's are all delivered, everything delivered so far folds to the
      kept set that caller left behind; and when no caller is under way, to the
      kept set of the process. */
  lemma DeliveredInOrder(grace: Time, fetched: seq<Cert>, now: Time, ss: seq<State>, steps: seq<Step>, n: nat)
    requires Run(ss, steps) && ss[0] == Booted(grace, fetched, now) && n <= |steps|
    ensures ss[n].delivered <= ss[n].log && Fold({}, ss[n].log) == ss[n].o.retired.Keys
    ensures n < |steps| && steps[n].EndDelivery? ==> Fold({}, ss[n].delivered) == ss[n].delivering.value.seen
    ensures ss[n].inside.Nobody? && ss[n].delivering.None? ==> ss[n].delivered == ss[n].log
  {
    hide Fold, Next, Reports;
    RunInv(grace, fetched, now, ss, steps, n);
    if n < |steps| && steps[n].EndDelivery? {
      assert ss[n].delivered + [] == ss[n].delivered;
    }
  }

  lemma OneStepForward(s: State, step: Step)
    requires SaverInv(s) && Enabled(s, step)
    ensures StoredVersion(s) <= StoredVersion(Next(s, step))
    ensures step == Write(true) ==> StoredVersion(s) < StoredVersion(Next(s, step))
  {
  }

  /** A successful save always stores a later state of the process than the one in
      the store, whatever callers save at the same time. */
  lemma {:induction false} StoredNeverGoesBack(grace: Time, fetched: seq<Cert>, now: Time, ss: seq<State>,
                                               steps: seq<Step>, i: nat, j: nat)
    requires Run(ss, steps) && ss[0] == Booted(grace, fetched, now) && i < j <= |steps|
    ensures StoredVersion(ss[i]) <= StoredVersion(ss[j])
    ensures ss[j].stored.Some? ==> Taken(ss[j].past, ss[j].o.version, ss[j].stored.value)
    ensures steps[j - 1] == Write(true) ==> StoredVersion(ss[i]) < StoredVersion(ss[j])
    decreases j
  {
    hide Enabled, Next, OrderInv, StoryInv, Booted, Taken, StoredVersion;
    RunInv(grace, fetched, now, ss, steps, j);
    RunInv(grace, fetched, now, ss, steps, j - 1);
    OneStepForward(ss[j - 1], steps[j - 1]);
    if i < j - 1 { StoredNeverGoesBack(grace, fetched, now, ss, steps, i, j - 1); }
  }

  /** A caller that leaves an unsaved state behind carries exactly that state out; once
      its events are delivered and no other save is at work, it is what gets stored. */
  lemma ChangesReachTheStore(s: State, after: State)
    requires s.inside.Locked? && s.o.attached && s.saved < s.o.version
    requires after.delivering.Some? && after.delivering.value == Handoff([], s.o.retired.Keys, Some(Snap(s.o)))
    requires !after.inside.Handing? && after.waiting == [] && after.saver.Free? && after.saved < s.o.version
    ensures Enabled(s, Collect) && Next(s, Collect).inside.Collected?
    ensures Next(s, Collect).inside.handoff == Handoff(s.pending, s.o.retired.Keys, Some(Snap(s.o)))
    ensures Enabled(after, EndDelivery) && Enabled(Next(after, EndDelivery), TrySave(0))
    ensures var trying := Next(Next(after, EndDelivery), TrySave(0));
      && Enabled(trying, Write(true)) && Enabled(Next(trying, Write(true)), MarkSaved)
      && var done := Next(Next(trying, Write(true)), MarkSaved);
         && done.stored == Some(Snapshot(s.o.version, s.o.current, s.o.retired))
         && done.saved == s.o.version && done.saver.Free? && done.waiting == []
  {
    hide Apply, Reports;
  }
}
