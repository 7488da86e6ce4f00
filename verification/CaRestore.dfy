/** What a process takes up from the store: the merge seen one certificate at a time,
    and the round trip from a stored snapshot through a restart. */
module CaRestore {
  import opened Decisions
  import opened CaOverlap
  import opened CaOverlapRuns
  import opened KeptEvents

  /** Where one certificate stands in a merge: its keep, whether it counts as published
      before, and the cap a stored row put on keeping it. */
  datatype Standing = Standing(kept: Option<Kept>, before: bool, cap: Option<Time>)

  function Lookup<T>(m: map<Cert, T>, c: Cert): Option<T> { if c in m then Some(m[c]) else None }

  function StandingOf(m: Merging, c: Cert): Standing {
    Standing(Lookup(m.o.retired, c), c in m.prev, Lookup(m.o.restoreCap, c))
  }

  /** What its stored row does for a certificate. */
  function Restore(st: Standing, grace: Time, barred: bool, r: Row, now: Time, first: bool): Standing
    requires r.cert.Some?
  {
    var c := r.cert.value;
    if !c.isCA then st
    else match r.until
      case None =>
        if first && r.savedAt.Some? && now < r.savedAt.value + grace
        then st.(before := true, cap := Some(r.savedAt.value + grace)) else st
      case Some(until) =>
        var end := KeepEnd(grace, c, r.keptAt, until);
        if barred || now >= end then st else st.(kept := Some(Kept(r.keptAt, end)))
  }

  lemma MergeRowOwn(m: Merging, r: Row, next: set<Cert>, now: Time, first: bool)
    requires r.cert.Some?
    ensures var m', c := MergeRow(m, r, next, now, first), r.cert.value;
      StandingOf(m', c) == Restore(StandingOf(m, c), m.o.grace, c in next || c in m.o.distrusted, r, now, first)
  {
  }

  lemma MergeRowOther(m: Merging, r: Row, next: set<Cert>, now: Time, first: bool, c: Cert)
    ensures var m' := MergeRow(m, r, next, now, first);
      && m'.o.grace == m.o.grace && m'.o.distrusted == m.o.distrusted
      && (r.cert != Some(c) ==> StandingOf(m', c) == StandingOf(m, c))
  {
    hide KeepEnd;
  }

  /** The merge does for each certificate what its one row does, and nothing to a
      certificate without a row. */
  lemma {:induction false} MergeExact(m: Merging, rows: seq<Row>, next: set<Cert>, now: Time, first: bool, c: Cert)
    requires DistinctRows(rows)
    ensures var m' := MergeRows(m, rows, next, now, first);
      && m'.o.grace == m.o.grace && m'.o.distrusted == m.o.distrusted
      && ((forall r :: r in rows ==> r.cert != Some(c)) ==> StandingOf(m', c) == StandingOf(m, c))
      && (forall r :: r in rows && r.cert == Some(c) ==>
            StandingOf(m', c) == Restore(StandingOf(m, c), m.o.grace, c in next || c in m.o.distrusted, r, now, first))
  {
    hide MergeRow, Restore, StandingOf;
    if rows != [] {
      var front, last := rows[..|rows| - 1], rows[|rows| - 1];
      assert rows == front + [last];
      MergeExact(m, front, next, now, first, c);
      MergeRowOther(MergeRows(m, front, next, now, first), last, next, now, first, c);
      if last.cert == Some(c) { MergeRowOwn(MergeRows(m, front, next, now, first), last, next, now, first); }
      assert last.cert == Some(c) ==> forall r :: r in front ==> r.cert != Some(c);
    }
  }

  /** The keep of a certificate once the rows are folded in and what next lacks is kept. */
  function KeepAfter(st: Standing, o: Overlap, next: set<Cert>, c: Cert, now: Time): Option<Kept> {
    var caps := if st.cap.Some? then map[c := st.cap.value] else map[];
    var gone := st.before && o.grace > 0 && c !in next && c.notAfter > now && c !in o.distrusted;
    var leaving := if gone then Some(Kept(now, KeepFor(o.grace, caps, c, now))) else None;
    var kept := if st.kept.Some? then st.kept else leaving;
    if kept.Some? && now < kept.value.until then kept else None
  }

  lemma RetireExact(m: Merging, o: Overlap, next: set<Cert>, c: Cert, now: Time)
    requires o.grace == m.o.grace && o.distrusted == m.o.distrusted
    ensures var kept := Lookup(Retire(m.o, m.prev, next, now).retired, c);
      KeepAfter(StandingOf(m, c), o, next, c, now) == if kept.Some? && now < kept.value.until then kept else None
    ensures Retire(m.o, m.prev, next, now).loaded == m.o.loaded
    ensures Retire(m.o, m.prev, next, now).restoreCap == m.o.restoreCap
  {
  }

  /** A certificate's keep after the stored rows are folded in and the bundle served. */
  lemma AttachExact(o: Overlap, rows: seq<Row>, now: Time, c: Cert)
    requires DistinctRows(rows) && o.loaded
    ensures var st := StandingOf(Merge(o.(attached := true), rows, o.current, now), c);
      Lookup(Attach(o, rows, now).retired, c) == KeepAfter(st, o, o.current, c, now)
  {
    hide MergeRows, ServeNow, Retire, KeepAfter;
    var start := Merging(o.(attached := true, baselined := true), o.current, []);
    MergeExact(start, rows, o.current, now, !o.baselined, c);
    MergedStaysLoaded(start, rows, o.current, now, !o.baselined);
    ServeNowRetires(Restored(o, rows, now), now, c);
    RetireExact(Merge(o.(attached := true), rows, o.current, now), o, o.current, c, now);
  }

  /** The same for a refresh that reads the shared rows; what it fetched is not kept. */
  lemma UpdateExact(o: Overlap, fetched: seq<Cert>, rows: seq<Row>, now: Time, c: Cert)
    requires DistinctRows(rows)
    ensures var st := StandingOf(Merge(o, rows, Certs(fetched), now), c);
      Lookup(Update(o, fetched, Some(rows), now).retired, c)
        == if c in fetched then None else KeepAfter(st, o, Certs(fetched), c, now)
  {
    hide MergeRows, ServeNow, Retire, KeepAfter;
    var next := Certs(fetched);
    MergeExact(Merging(o.(baselined := true), o.current, []), rows, next, now, !o.baselined, c);
    ServeNowRetires(Installed(o, fetched, Some(rows), now), now, c);
    RetireExact(Merge(o, rows, next, now), o, next, c, now);
  }

  /** The row says another process keeps c, and its time is not up by this grace. */
  predicate SaysKept(r: Row, grace: Time, c: Cert, now: Time) {
    && r.cert == Some(c) && c.isCA && r.until.Some?
    && now < r.until.value && now < r.keptAt + grace && now < c.notAfter
  }

  /** The row says the issuer published c at a save less than a grace ago. */
  predicate SaysPublished(r: Row, grace: Time, c: Cert, now: Time) {
    r.cert == Some(c) && c.isCA && r.until.None? && r.savedAt.Some? && now < r.savedAt.value + grace
  }

  /** Why c is kept: its stored row says so and it is neither published nor distrusted;
      or this process keeps it already; or it was published, to this process or at the
      save the first merge reads, has left, and is worth keeping. A keep of the last kind
      ends with the grace, the expiry, or a grace after the save. */
  ghost predicate KeptBecause(o: Overlap, row: Option<Row>, next: set<Cert>, c: Cert, now: Time, kept: Option<Kept>) {
    var theirs := row.Some? && SaysKept(row.value, o.grace, c, now) && c !in next && c !in o.distrusted;
    var mine := c in o.retired && now < o.retired[c].until;
    var saved := !o.baselined && row.Some? && SaysPublished(row.value, o.grace, c, now);
    var cap := if saved then Some(row.value.savedAt.value + o.grace) else Lookup(o.restoreCap, c);
    var left := (c in o.current || saved) && c !in next && o.grace > 0 && now < c.notAfter && c !in o.distrusted;
    && (kept.Some? <==> theirs || mine || (c !in o.retired && left && (cap.Some? ==> now < cap.value)))
    && (theirs ==>
          kept == Some(Kept(row.value.keptAt, KeepEnd(o.grace, c, row.value.keptAt, row.value.until.value))))
    && (!theirs && mine ==> kept == Some(o.retired[c]))
    && (!theirs && !mine && kept.Some? ==>
          && kept.value.keptAt == now && kept.value.until <= Min(now + o.grace, c.notAfter)
          && (cap.Some? ==> kept.value.until <= cap.value)
          && (kept.value.until == Min(now + o.grace, c.notAfter) || cap == Some(kept.value.until)))
  }

  function Alone(o: Overlap, c: Cert): Standing {
    Standing(Lookup(o.retired, c), c in o.current, Lookup(o.restoreCap, c))
  }

  lemma KeptWithout(o: Overlap, next: set<Cert>, c: Cert, now: Time)
    ensures KeptBecause(o, None, next, c, now, KeepAfter(Alone(o, c), o, next, c, now))
  {
  }

  lemma KeptWith(o: Overlap, r: Row, next: set<Cert>, c: Cert, now: Time)
    requires r.cert == Some(c)
    ensures var st := Restore(Alone(o, c), o.grace, c in next || c in o.distrusted, r, now, !o.baselined);
      KeptBecause(o, Some(r), next, c, now, KeepAfter(st, o, next, c, now))
  {
  }

  /** The keep of c is what its own row, if it has one, and the state give reason for. */
  ghost predicate KeptFrom(o: Overlap, rows: seq<Row>, next: set<Cert>, c: Cert, now: Time, kept: Option<Kept>) {
    && (forall r :: r in rows && r.cert == Some(c) ==> KeptBecause(o, Some(r), next, c, now, kept))
    && ((forall r :: r in rows ==> r.cert != Some(c)) ==> KeptBecause(o, None, next, c, now, kept))
  }

  lemma MergedKeepIff(o: Overlap, start: Overlap, rows: seq<Row>, next: set<Cert>, now: Time, c: Cert)
    requires DistinctRows(rows) && start == o.(attached := start.attached)
    ensures KeptFrom(o, rows, next, c, now, KeepAfter(StandingOf(Merge(start, rows, next, now), c), o, next, c, now))
  {
    hide MergeRows, Restore, KeepAfter, KeptBecause;
    MergeExact(Merging(start.(baselined := true), o.current, []), rows, next, now, !o.baselined, c);
    KeptWithout(o, next, c, now);
    forall r | r in rows && r.cert == Some(c)
      ensures KeptBecause(o, Some(r), next, c, now,
                          KeepAfter(StandingOf(Merge(start, rows, next, now), c), o, next, c, now))
    {
      KeptWith(o, r, next, c, now);
    }
  }

  /** Exactly what is kept after the store is attached, and with which keep. */
  lemma AttachKeepsExactly(o: Overlap, rows: seq<Row>, now: Time, c: Cert)
    requires DistinctRows(rows) && o.loaded
    ensures KeptFrom(o, rows, o.current, c, now, Lookup(Attach(o, rows, now).retired, c))
  {
    hide KeptFrom, KeepAfter, Merge, Attach;
    AttachExact(o, rows, now, c);
    MergedKeepIff(o, o.(attached := true), rows, o.current, now, c);
  }

  /** The first merge caps, for its next departure, each CA the save says was published:
      it will not be kept past a grace after the save. */
  lemma AttachCaps(o: Overlap, rows: seq<Row>, now: Time, c: Cert, r: Row)
    requires DistinctRows(rows) && o.loaded && r in rows && r.cert == Some(c)
    ensures Lookup(Attach(o, rows, now).restoreCap, c) ==
      if !o.baselined && SaysPublished(r, o.grace, c, now) then Some(r.savedAt.value + o.grace)
      else Lookup(o.restoreCap, c)
  {
    hide MergeRows, ServeNow, Retire;
    var start := Merging(o.(attached := true, baselined := true), o.current, []);
    MergeExact(start, rows, o.current, now, !o.baselined, c);
    MergedStaysLoaded(start, rows, o.current, now, !o.baselined);
    ServeNowRetires(Restored(o, rows, now), now, c);
    RetireExact(Merge(o.(attached := true), rows, o.current, now), o, o.current, c, now);
  }

  /** Exactly what is kept after a refresh that reads the shared rows: nothing the issuer
      publishes, and the rest by rows and state. */
  lemma SharedUpdateKeepsExactly(o: Overlap, fetched: seq<Cert>, rows: seq<Row>, now: Time, c: Cert)
    requires DistinctRows(rows)
    ensures var kept := Lookup(Update(o, fetched, Some(rows), now).retired, c);
      && (c in fetched ==> kept == None)
      && (c !in fetched ==> KeptFrom(o, rows, Certs(fetched), c, now, kept))
  {
    hide KeptFrom, KeepAfter, Merge, Update;
    UpdateExact(o, fetched, rows, now, c);
    MergedKeepIff(o, o, rows, Certs(fetched), now, c);
  }

  lemma {:induction false} MergedStaysLoaded(m: Merging, rows: seq<Row>, next: set<Cert>, now: Time, first: bool)
    ensures MergeRows(m, rows, next, now, first).o.loaded == m.o.loaded
  {
    if rows != [] { MergedStaysLoaded(m, rows[..|rows| - 1], next, now, first); }
  }

  /** The keep a restarted process gives a certificate of the stored state: a keep goes
      on until its own end, cut to the new grace; one published at the save and gone
      since is kept as if it had been seen to go, but not past the save plus the grace. */
  function Resumed(o: Overlap, at: Time, grace: Time, c: Cert, now: Time): Option<Kept> {
    if !c.isCA then None
    else if c in o.retired then
      var end := KeepEnd(grace, c, o.retired[c].keptAt, o.retired[c].until);
      if now < end then Some(Kept(o.retired[c].keptAt, end)) else None
    else if c in o.current && grace > 0 && now < at + grace && now < c.notAfter then
      Some(Kept(now, Min(Min(now + grace, at + grace), c.notAfter)))
    else None
  }

  /** A restart: the issuer's bundle fetched, the distrust list applied. */
  ghost function Restarted(grace: Time, fetched: seq<Cert>, out: set<Cert>, t0: Time, t1: Time): Overlap {
    Distrust(Update(Fresh(grace), fetched, None, t0), out, t1)
  }

  lemma RestartedKeepsNone(grace: Time, fetched: seq<Cert>, out: set<Cert>, t0: Time, t1: Time)
    ensures var o := Restarted(grace, fetched, out, t0, t1);
      && OverlapInv(o) && o.loaded && o.retired == map[] && o.current == Certs(fetched) && o.distrusted == out
      && o.restoreCap == map[] && !o.baselined && o.grace == grace
  {
    hide Update, Ordered, Serve, OverlapInv;
    var booted := Update(Fresh(grace), fetched, None, t0);
    BootedKeepsNone(grace, fetched, t0);
    FreshInv(grace);
    UpdateServes(Fresh(grace), fetched, None, t0);
    DistrustServes(booted, out, t1);
  }

  /** The round trip: a state saved at `at`, a restart that fetches the issuer's bundle,
      applies the distrust list and attaches the store. Exactly the certificates that
      the issuer lacks and the list does not name are kept, each as `Resumed` says. */
  lemma RestartResumesKeeps(o: Overlap, at: Time, rows: seq<Row>, grace: Time, fetched: seq<Cert>, out: set<Cert>,
                            t0: Time, t1: Time, now: Time, c: Cert)
    requires OverlapInv(o) && SnapshotOf(o, Some(at), rows) && DistinctRows(rows)
    ensures Lookup(Attach(Restarted(grace, fetched, out, t0, t1), rows, now).retired, c)
      == if c in fetched || c in out then None else Resumed(o, at, grace, c, now)
  {
    hide Restarted, Attach, MergeRows, Ordered;
    var booted := Restarted(grace, fetched, out, t0, t1);
    RestartedKeepsNone(grace, fetched, out, t0, t1);
    AttachExact(booted, rows, now, c);
    var start := booted.(attached := true, baselined := true);
    MergeExact(Merging(start, booted.current, []), rows, booted.current, now, true, c);
    if c in o.retired {
      assert Row(Some(c), o.retired[c].keptAt, Some(o.retired[c].until), Some(at)) in rows;
    } else if c in o.current {
      assert Row(Some(c), ZERO_TIME, None, Some(at)) in rows;
    } else {
      assert forall r :: r in rows ==> r.cert != Some(c);
    }
  }

  /** With the grace unchanged a keep comes through a restart as it was, to the end. */
  lemma SameGraceSameKeep(o: Overlap, at: Time, c: Cert, now: Time)
    requires OverlapInv(o) && c in o.retired && c.isCA
    ensures Resumed(o, at, o.grace, c, now) == if now < o.retired[c].until then Some(o.retired[c]) else None
  {
  }
}
