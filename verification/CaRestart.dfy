/** Kept CAs across restarts, with one writer: no number of crashes, restarts and
    stored snapshots makes Omega trust a withdrawn CA for longer. */
module CaRestart {
  import opened Decisions
  import opened CaOverlap
  import opened CaOverlapRuns

  /** One process at a time over the stored rows; no grace is longer than `longest`.
      `collected` is the state an operation left to be stored: it is written while the
      backend's refresh lock is still held, so no other operation comes between. */
  datatype World = World(process: Option<Overlap>, rows: seq<Row>, clock: Time, collected: Option<Overlap>)

  datatype Event =
    | Boot(grace: Time, fetched: seq<Cert>, now: Time)
    | AttachStore(now: Time)
    | Refresh(fetched: seq<Cert>, readable: bool, now: Time)
    | Reserve(now: Time)
    | DistrustList(out: set<Cert>, now: Time)
    | Save(at: Time)
    | NotSaved
    | Crash

  function EventTime(w: World, e: Event): Time {
    match e
    case Boot(_, _, now) => now
    case AttachStore(now) => now
    case Refresh(_, _, now) => now
    case Reserve(now) => now
    case DistrustList(_, now) => now
    case Save(at) => at
    case _ => w.clock
  }

  predicate Enabled(longest: Time, w: World, e: Event) {
    && w.clock <= EventTime(w, e)
    && match e
       case Boot(grace, fetched, _) => w.process.None? && fetched != [] && 0 <= grace <= longest
       case Refresh(fetched, _, _) => w.process.Some? && w.collected.None? && fetched != []
       case Save(_) => w.collected.Some?
       case NotSaved => w.collected.Some?
       case Crash => w.process.Some?
       case _ => w.process.Some? && w.collected.None?
  }

  /** An operation stores its state if a store is attached and something changed. */
  predicate Collects(w': World) {
    w'.collected.None? || (w'.process.Some? && w'.process.value.attached && w'.collected == w'.process)
  }

  ghost predicate Next(w: World, e: Event, w': World) {
    && w'.clock == EventTime(w, e)
    && match e
       case Save(at) =>
         && w.collected.Some? && w'.process == w.process && w'.collected == None
         && SnapshotOf(w.collected.value, Some(at), w'.rows)
       case NotSaved => w'.process == w.process && w'.collected == None && w'.rows == w.rows
       case Crash => w'.process == None && w'.collected == None && w'.rows == w.rows
       case Boot(grace, fetched, now) =>
         && w'.rows == w.rows && w'.collected == None
         && w'.process == Some(Update(Fresh(grace), fetched, None, now))
       case AttachStore(now) =>
         && w.process.Some? && w'.rows == w.rows && Collects(w')
         && w'.process == Some(Attach(w.process.value, w.rows, now))
       case Refresh(fetched, readable, now) =>
         && w.process.Some? && w'.rows == w.rows && Collects(w')
         && w'.process == Some(Update(w.process.value, fetched, Shared(w, readable), now))
       case Reserve(now) =>
         w.process.Some? && w'.rows == w.rows && Collects(w') && w'.process == Some(Serve(w.process.value, now))
       case DistrustList(out, now) =>
         w.process.Some? && w'.rows == w.rows && Collects(w') && w'.process == Some(Distrust(w.process.value, out, now))
  }

  /** The rows a refresh folds in. */
  function Shared(w: World, readable: bool): Option<seq<Row>>
    requires w.process.Some?
  {
    if w.process.value.attached && readable then Some(w.rows) else None
  }

  /** What is about to be stored is the present state. */
  predicate Timely(w: World) { w.collected.Some? ==> w.collected == w.process }

  /** The last moment a stored row can make any process trust its CA. */
  function RowEnd(longest: Time, r: Row): Time
    requires r.cert.Some?
  {
    var end := if r.until.Some? then r.until.value else (if r.savedAt.Some? then r.savedAt.value else 0) + longest;
    Min(end, r.cert.value.notAfter)
  }

  predicate Grants(r: Row, c: Cert) {
    r.cert == Some(c) && (r.until.Some? || r.savedAt.Some?)
  }

  /** Nothing in memory or in the store can make c trusted at or after `end`:
      the issuer does not publish it, and every keep and row runs out by then. */
  ghost predicate EndsBy(longest: Time, w: World, c: Cert, end: Time) {
    && Timely(w)
    && (w.process.Some? ==>
          && c !in w.process.value.current
          && w.process.value.grace <= longest
          && (c in w.process.value.retired ==> w.process.value.retired[c].until <= end))
    && (forall r :: r in w.rows && Grants(r, c) ==> RowEnd(longest, r) <= end)
  }

  predicate Publishes(e: Event, c: Cert) {
    (e.Boot? && c in e.fetched) || (e.Refresh? && c in e.fetched)
  }

  /** While rows are merged: c stays within its end, and is only a former
      publication when a stored row capped it. */
  ghost predicate MergeEnds(m: Merging, c: Cert, end: Time) {
    && (c in m.o.retired ==> m.o.retired[c].until <= end)
    && (c in m.prev ==> c in m.o.restoreCap && Min(m.o.restoreCap[c], c.notAfter) <= end)
  }

  lemma {:induction false} MergeStaysWithin(longest: Time, m: Merging, rows: seq<Row>, next: set<Cert>, now: Time,
                                            first: bool, c: Cert, end: Time)
    requires MergeEnds(m, c, end) && m.o.grace <= longest
    requires forall r :: r in rows && Grants(r, c) ==> RowEnd(longest, r) <= end
    ensures var m' := MergeRows(m, rows, next, now, first);
      MergeEnds(m', c, end) && m'.o.grace == m.o.grace && m'.o.current == m.o.current
  {
    if rows != [] {
      MergeStaysWithin(longest, m, rows[..|rows| - 1], next, now, first, c, end);
      assert rows[|rows| - 1] in rows;
    }
  }

  lemma RetireStaysWithin(m: Merging, next: set<Cert>, now: Time, c: Cert, end: Time)
    requires MergeEnds(m, c, end)
    ensures var o := Retire(m.o, m.prev, next, now); c in o.retired ==> o.retired[c].until <= end
  {
  }

  /** The kept CAs after serving are among those before, with the same ends. */
  lemma ServingKeepsEnds(o: Overlap, now: Time)
    ensures forall c :: c in ServeNow(o, now).retired ==> c in o.retired && ServeNow(o, now).retired[c] == o.retired[c]
    ensures ServeNow(o, now).current == o.current && ServeNow(o, now).grace == o.grace
  {
  }

  lemma UpdateStaysWithin(longest: Time, o: Overlap, fetched: seq<Cert>, stored: Option<seq<Row>>, now: Time, c: Cert,
                          end: Time)
    requires c !in o.current && c !in fetched && o.grace <= longest && (c in o.retired ==> o.retired[c].until <= end)
    requires stored.Some? ==> forall r :: r in stored.value && Grants(r, c) ==> RowEnd(longest, r) <= end
    ensures var o' := Update(o, fetched, stored, now);
      c !in o'.current && o'.grace == o.grace && (c in o'.retired ==> o'.retired[c].until <= end)
  {
    hide ServeNow, Retire, MergeRows;
    var next := Certs(fetched);
    if stored.Some? {
      var start := Merging(o.(baselined := true), o.current, []);
      MergeStaysWithin(longest, start, stored.value, next, now, !o.baselined, c, end);
    }
    var m := MergeIf(o, stored, next, now);
    RetireStaysWithin(m, next, now, c, end);
    RetireFrame(m.o, m.prev, next, now);
    ServingKeepsEnds(Installed(o, fetched, stored, now), now);
  }

  lemma RetireFrame(o: Overlap, prev: set<Cert>, next: set<Cert>, now: Time)
    ensures var o' := Retire(o, prev, next, now);
      o'.grace == o.grace && o'.current == o.current && o'.loaded == o.loaded
  {
  }

  lemma AttachStaysWithin(longest: Time, o: Overlap, rows: seq<Row>, now: Time, c: Cert, end: Time)
    requires c !in o.current && o.grace <= longest && (c in o.retired ==> o.retired[c].until <= end)
    requires forall r :: r in rows && Grants(r, c) ==> RowEnd(longest, r) <= end
    ensures var o' := Attach(o, rows, now);
      c !in o'.current && o'.grace == o.grace && (c in o'.retired ==> o'.retired[c].until <= end)
  {
    hide ServeNow, Retire, MergeRows;
    var start := o.(attached := true);
    var merging := Merging(start.(baselined := true), o.current, []);
    MergeStaysWithin(longest, merging, rows, o.current, now, !o.baselined, c, end);
    var m := Merge(start, rows, o.current, now);
    RetireStaysWithin(m, o.current, now, c, end);
    RetireFrame(m.o, m.prev, o.current, now);
    ServingKeepsEnds(Restored(o, rows, now), now);
  }

  /** No step the issuer does not republish c in moves its end of trust later. */
  lemma StepNeverExtends(longest: Time, w: World, e: Event, w': World, c: Cert, end: Time)
    requires EndsBy(longest, w, c, end) && Enabled(longest, w, e) && Next(w, e, w') && !Publishes(e, c)
    ensures EndsBy(longest, w', c, end)
  {
    hide Update, Attach, RowEnd;
    match e
    case Boot(grace, fetched, now) => UpdateStaysWithin(longest, Fresh(grace), fetched, None, now, c, end);
    case AttachStore(now) => AttachStaysWithin(longest, w.process.value, w.rows, now, c, end);
    case Refresh(fetched, readable, now) =>
      UpdateStaysWithin(longest, w.process.value, fetched, Shared(w, readable), now, c, end);
    case Reserve(now) => ServingKeepsEnds(w.process.value, now);
    case DistrustList(out, now) => DistrustStaysWithin(w.process.value, out, now);
    case Save(at) => SnapshotStaysWithin(longest, w.process.value, at, w'.rows, c, end);
    case _ =>
  }

  lemma DistrustStaysWithin(o: Overlap, out: set<Cert>, now: Time)
    ensures var o' := Distrust(o, out, now);
      && o'.current == o.current && o'.grace == o.grace
      && forall c :: c in o'.retired ==> c in o.retired && o'.retired[c] == o.retired[c]
  {
    hide ServeNow;
    ServingKeepsEnds(Purged(o, out), now);
  }

  lemma SnapshotStaysWithin(longest: Time, o: Overlap, at: Time, rows: seq<Row>, c: Cert, end: Time)
    requires SnapshotOf(o, Some(at), rows) && c !in o.current && (c in o.retired ==> o.retired[c].until <= end)
    ensures forall r :: r in rows && Grants(r, c) ==> RowEnd(longest, r) <= end
  {
  }

  ghost predicate Run(longest: Time, ws: seq<World>, es: seq<Event>) {
    && |ws| == |es| + 1
    && forall i :: 0 <= i < |es| ==> Enabled(longest, ws[i], es[i]) && Next(ws[i], es[i], ws[i + 1])
  }

  /** Over any stretch of restarts, refreshes, saves and crashes in which the issuer
      does not publish c, an end of trust stays an end of trust. */
  lemma {:induction false} RestartsNeverExtendTrust(longest: Time, ws: seq<World>, es: seq<Event>, c: Cert, end: Time,
                                                    k: nat, n: nat)
    requires Run(longest, ws, es) && k <= n <= |es| && EndsBy(longest, ws[k], c, end)
    requires forall i :: k <= i < n ==> !Publishes(es[i], c)
    ensures EndsBy(longest, ws[n], c, end)
    decreases n
  {
    hide Enabled, Next, EndsBy, Publishes;
    if n > k {
      RestartsNeverExtendTrust(longest, ws, es, c, end, k, n - 1);
      StepNeverExtends(longest, ws[n - 1], es[n - 1], ws[n], c, end);
    }
  }

  /** A bundle served at `now` with c in it, c not published, is served before c's end. */
  lemma ServedOnlyBeforeEnd(longest: Time, w: World, c: Cert, end: Time, now: Time)
    requires EndsBy(longest, w, c, end) && w.process.Some?
    requires ServedAt(w.process.value, w.process.value.fetched, now) && c !in w.process.value.fetched
    requires c in w.process.value.served.value
    ensures now < end
  {
    var o := w.process.value;
    OrderedSpec(o.retired.Keys);
    assert c in Certs(Ordered(o.retired.Keys));
  }

  /** Everything stored is older than the clock and bounded by the longest grace. */
  ghost predicate RowsInv(longest: Time, w: World) {
    && Timely(w)
    && (forall r :: r in w.rows && r.cert.Some? ==>
          && (r.until.Some? ==> r.until.value <= w.clock + longest)
          && (r.savedAt.Some? ==> r.savedAt.value <= w.clock))
    && (w.process.Some? ==>
          && w.process.value.loaded && 0 <= w.process.value.grace <= longest
          && forall c :: c in w.process.value.retired ==> w.process.value.retired[c].until <= w.clock + longest)
  }

  /** The events that compare the issuer's bundle with what was published before. */
  predicate Fetches(e: Event) { e.Boot? || e.Refresh? }

  /** A CA missing from a fetched bundle is trusted until its expiry or for the
      longest grace after that fetch, whichever is first. */
  lemma WithdrawalBoundsTrust(longest: Time, w: World, e: Event, w': World, c: Cert)
    requires RowsInv(longest, w) && (w.process.Some? ==> OverlapInv(w.process.value))
    requires Fetches(e) && Enabled(longest, w, e) && Next(w, e, w') && c !in e.fetched
    ensures EndsBy(longest, w', c, Min(e.now + longest, c.notAfter))
  {
    hide Update, OverlapInv;
    var o := if e.Boot? then Fresh(e.grace) else w.process.value;
    var stored := if e.Refresh? && o.attached && e.readable then Some(w.rows) else None;
    var end := Min(e.now + longest, c.notAfter);
    assert forall r :: r in w.rows && Grants(r, c) ==> RowEnd(longest, r) <= end;
    if e.Boot? { FreshInv(e.grace); }
    UpdateFrame(o, e.fetched, stored, e.now);
    WithdrawnWithin(longest, o, e.fetched, stored, e.now, c);
  }

  lemma UpdateFrame(o: Overlap, fetched: seq<Cert>, stored: Option<seq<Row>>, now: Time)
    requires OverlapInv(o)
    ensures Update(o, fetched, stored, now).current == Certs(fetched)
  {
  }

  lemma WithdrawnWithin(longest: Time, o: Overlap, fetched: seq<Cert>, stored: Option<seq<Row>>, now: Time, c: Cert)
    requires OverlapInv(o) && c !in fetched && o.grace <= longest
    requires c in o.retired ==> o.retired[c].until <= now + longest
    requires stored.Some? ==> forall r :: r in stored.value && Grants(r, c) ==>
      RowEnd(longest, r) <= Min(now + longest, c.notAfter)
    ensures var o' := Update(o, fetched, stored, now);
      o'.grace == o.grace && (c in o'.retired ==> o'.retired[c].until <= Min(now + longest, c.notAfter))
  {
    hide ServeNow, Retire, MergeRows, Ordered;
    var next, end := Certs(fetched), Min(now + longest, c.notAfter);
    if stored.Some? {
      var start := Merging(o.(baselined := true), o.current, []);
      MergeKeptWithin(longest, start, stored.value, next, now, !o.baselined, c, end);
    }
    var m := MergeIf(o, stored, next, now);
    RetireKeptWithin(m.o, m.prev, next, now, c, end);
    RetireFrame(m.o, m.prev, next, now);
    ServingKeepsEnds(Installed(o, fetched, stored, now), now);
  }

  lemma {:induction false} MergeKeptWithin(longest: Time, m: Merging, rows: seq<Row>, next: set<Cert>, now: Time,
                                           first: bool, c: Cert, end: Time)
    requires (c in m.o.retired ==> m.o.retired[c].until <= end)
    requires forall r :: r in rows && Grants(r, c) ==> RowEnd(longest, r) <= end
    ensures var m' := MergeRows(m, rows, next, now, first);
      (c in m'.o.retired ==> m'.o.retired[c].until <= end) && m'.o.grace == m.o.grace && m'.o.current == m.o.current
  {
    if rows != [] {
      MergeKeptWithin(longest, m, rows[..|rows| - 1], next, now, first, c, end);
      assert rows[|rows| - 1] in rows;
    }
  }

  lemma RetireKeptWithin(o: Overlap, prev: set<Cert>, next: set<Cert>, now: Time, c: Cert, end: Time)
    requires (c in o.retired ==> o.retired[c].until <= end) && Min(now + o.grace, c.notAfter) <= end
    ensures var o' := Retire(o, prev, next, now); c in o'.retired ==> o'.retired[c].until <= end
  {
  }

  lemma RowsInvStep(longest: Time, w: World, e: Event, w': World)
    requires 0 <= longest && RowsInv(longest, w) && Enabled(longest, w, e) && Next(w, e, w')
    requires w.process.Some? ==> OverlapInv(w.process.value)
    ensures RowsInv(longest, w') && (w'.process.Some? ==> OverlapInv(w'.process.value))
  {
    hide Update, Attach, Serve, Distrust, OverlapInv;
    match e
    case Boot(grace, fetched, now) =>
      FreshInv(grace);
      UpdateServes(Fresh(grace), fetched, None, now);
      KeepsWithin(Fresh(grace), fetched, None, now, now + longest);
    case AttachStore(now) =>
      AttachServes(w.process.value, w.rows, now);
      AttachKeepsWithin(w.process.value, w.rows, now, now + longest);
    case Refresh(fetched, readable, now) =>
      var stored := Shared(w, readable);
      UpdateServes(w.process.value, fetched, stored, now);
      KeepsWithin(w.process.value, fetched, stored, now, now + longest);
    case Reserve(now) =>
      ServeServes(w.process.value, now);
      ServingKeepsEndsIfLoaded(w.process.value, now);
    case DistrustList(out, now) =>
      DistrustServes(w.process.value, out, now);
      DistrustStaysWithin(w.process.value, out, now);
    case _ =>
  }

  lemma ServingKeepsEndsIfLoaded(o: Overlap, now: Time)
    ensures forall c :: c in Serve(o, now).retired ==> c in o.retired && Serve(o, now).retired[c] == o.retired[c]
    ensures Serve(o, now).grace == o.grace
  {
  }

  lemma {:induction false} MergeAllWithin(m: Merging, rows: seq<Row>, next: set<Cert>, now: Time, first: bool,
                                          end: Time)
    requires forall c :: c in m.o.retired ==> m.o.retired[c].until <= end
    requires forall r :: r in rows && r.cert.Some? && r.until.Some? ==> r.until.value <= end
    ensures var m' := MergeRows(m, rows, next, now, first);
      && (forall c :: c in m'.o.retired ==> m'.o.retired[c].until <= end)
      && m'.o.grace == m.o.grace && m'.o.current == m.o.current
  {
    if rows != [] {
      MergeAllWithin(m, rows[..|rows| - 1], next, now, first, end);
      assert rows[|rows| - 1] in rows;
    }
  }

  lemma KeepsWithin(o: Overlap, fetched: seq<Cert>, stored: Option<seq<Row>>, now: Time, end: Time)
    requires (forall c :: c in o.retired ==> o.retired[c].until <= end) && now + o.grace <= end
    requires stored.Some? ==> forall r :: r in stored.value && r.cert.Some? && r.until.Some? ==> r.until.value <= end
    ensures var o' := Update(o, fetched, stored, now);
      o'.grace == o.grace && forall c :: c in o'.retired ==> o'.retired[c].until <= end
  {
    hide ServeNow, MergeRows, Retire;
    var next := Certs(fetched);
    if stored.Some? {
      MergeAllWithin(Merging(o.(baselined := true), o.current, []), stored.value, next, now, !o.baselined, end);
    }
    var m := MergeIf(o, stored, next, now);
    RetireFrame(m.o, m.prev, next, now);
    RetireAllWithin(m.o, m.prev, next, now, end);
    ServingKeepsEnds(Installed(o, fetched, stored, now), now);
  }

  lemma RetireAllWithin(o: Overlap, prev: set<Cert>, next: set<Cert>, now: Time, end: Time)
    requires (forall c :: c in o.retired ==> o.retired[c].until <= end) && now + o.grace <= end
    ensures var o' := Retire(o, prev, next, now); forall c :: c in o'.retired ==> o'.retired[c].until <= end
  {
  }

  lemma AttachKeepsWithin(o: Overlap, rows: seq<Row>, now: Time, end: Time)
    requires (forall c :: c in o.retired ==> o.retired[c].until <= end) && now + o.grace <= end
    requires forall r :: r in rows && r.cert.Some? && r.until.Some? ==> r.until.value <= end
    ensures var o' := Attach(o, rows, now);
      o'.grace == o.grace && forall c :: c in o'.retired ==> o'.retired[c].until <= end
  {
    hide ServeNow, MergeRows, Retire;
    var start := o.(attached := true);
    MergeAllWithin(Merging(start.(baselined := true), o.current, []), rows, o.current, now, !o.baselined, end);
    var m := Merge(start, rows, o.current, now);
    RetireFrame(m.o, m.prev, o.current, now);
    RetireAllWithin(m.o, m.prev, o.current, now, end);
    ServingKeepsEnds(Restored(o, rows, now), now);
  }

  /** A world before anything ran. */
  function Nothing(clock: Time): World { World(None, [], clock, None) }

  lemma {:induction false} RunRowsInv(longest: Time, ws: seq<World>, es: seq<Event>, n: nat)
    requires 0 <= longest && Run(longest, ws, es) && n <= |es| && ws[0] == Nothing(ws[0].clock)
    ensures RowsInv(longest, ws[n]) && (ws[n].process.Some? ==> OverlapInv(ws[n].process.value))
  {
    hide Enabled, Next, OverlapInv;
    if n > 0 {
      hide RowsInv;
      RunRowsInv(longest, ws, es, n - 1);
      RowsInvStep(longest, ws[n - 1], es[n - 1], ws[n]);
    }
  }

  /** The events that serve a bundle at their own time. */
  predicate Serves(e: Event) { Fetches(e) || e.Reserve? || e.AttachStore? }

  lemma ServesNow(longest: Time, w: World, e: Event, w': World)
    requires RowsInv(longest, w) && (w.process.Some? ==> OverlapInv(w.process.value))
    requires Serves(e) && Enabled(longest, w, e) && Next(w, e, w')
    ensures w'.process.Some? && ServedAt(w'.process.value, w'.process.value.fetched, w'.clock)
    ensures w'.process.value.current == Certs(w'.process.value.fetched)
  {
    hide Update, Serve, Attach, Ordered;
    match e
    case Boot(grace, fetched, now) =>
      FreshInv(grace);
      UpdateServes(Fresh(grace), fetched, None, now);
    case AttachStore(now) => AttachServes(w.process.value, w.rows, now);
    case Refresh(fetched, readable, now) =>
      UpdateServes(w.process.value, fetched, Shared(w, readable), now);
    case Reserve(now) => ServeServes(w.process.value, now);
  }

  /** The main result: from an empty store, once a fetch lacks c and until a fetch
      has it again, no bundle with c in it is served at or after the end that fetch
      set, whatever restarts, saves, store reads and crashes come between. */
  lemma WithdrawnTrustEnds(longest: Time, ws: seq<World>, es: seq<Event>, c: Cert, k: nat, n: nat)
    requires 0 <= longest && Run(longest, ws, es) && k < n <= |es| && ws[0] == Nothing(ws[0].clock)
    requires Fetches(es[k]) && (forall i :: k <= i < n ==> !Publishes(es[i], c)) && Serves(es[n - 1])
    ensures ws[n].process.Some? && ws[n].process.value.served.Some?
    ensures c in ws[n].process.value.served.value ==> ws[n].clock < Min(es[k].now + longest, c.notAfter)
  {
    hide Enabled, Next, OverlapInv, RowsInv, Run;
    var end := Min(es[k].now + longest, c.notAfter);
    RunStep(longest, ws, es, k);
    RunStep(longest, ws, es, n - 1);
    RunRowsInv(longest, ws, es, k);
    WithdrawalBoundsTrust(longest, ws[k], es[k], ws[k + 1], c);
    RestartsNeverExtendTrust(longest, ws, es, c, end, k + 1, n);
    RunRowsInv(longest, ws, es, n - 1);
    ServesNow(longest, ws[n - 1], es[n - 1], ws[n]);
    if c in ws[n].process.value.served.value {
      ServedOnlyBeforeEnd(longest, ws[n], c, end, ws[n].clock);
    }
  }

  lemma RunStep(longest: Time, ws: seq<World>, es: seq<Event>, i: nat)
    requires Run(longest, ws, es) && i < |es|
    ensures |ws| == |es| + 1 && Enabled(longest, ws[i], es[i]) && Next(ws[i], es[i], ws[i + 1])
  {
  }
}
