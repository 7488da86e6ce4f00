/** What every operation of the overlap keeps, and what it serves. */
module CaOverlapRuns {
  import opened Decisions
  import opened CaOverlap

  /** Kept CAs are not distrusted and end by keep time plus grace and by expiry. */
  ghost predicate Bounded(o: Overlap) {
    forall c :: c in o.retired ==>
      c !in o.distrusted && o.retired[c].until <= o.retired[c].keptAt + o.grace && o.retired[c].until <= c.notAfter
  }

  ghost predicate OverlapInv(o: Overlap) {
    && Bounded(o)
    && (forall c :: c in o.retired ==> c !in o.current)
    && o.current == Certs(o.fetched)
    && (if o.loaded then o.served == Some(Bundle(o)) else o.served == None && o.fetched == [])
  }

  /** Everything but the kept set and its bookkeeping is as before. */
  predicate SameIssuer(o: Overlap, o': Overlap) {
    o'.(retired := o.retired, version := o.version, restoreCap := o.restoreCap, baselined := o.baselined) == o
  }

  lemma MergeRowKeeps(m: Merging, r: Row, next: set<Cert>, now: Time, first: bool)
    requires Bounded(m.o)
    ensures var m' := MergeRow(m, r, next, now, first);
      && Bounded(m'.o) && SameIssuer(m.o, m'.o) && m'.o.baselined == m.o.baselined
      && m.o.retired.Keys <= m'.o.retired.Keys
      && (forall c :: c in m'.o.retired && c !in m.o.retired ==> c !in next && c.isCA)
  {
  }

  lemma {:induction false} MergeKeeps(m: Merging, rows: seq<Row>, next: set<Cert>, now: Time, first: bool)
    requires Bounded(m.o)
    ensures var m' := MergeRows(m, rows, next, now, first);
      && Bounded(m'.o) && SameIssuer(m.o, m'.o) && m'.o.baselined == m.o.baselined
      && (forall c :: c in m'.o.retired && c !in m.o.retired ==> c !in next && c.isCA)
  {
    hide MergeRow;
    if rows != [] {
      MergeKeeps(m, rows[..|rows| - 1], next, now, first);
      MergeRowKeeps(MergeRows(m, rows[..|rows| - 1], next, now, first), rows[|rows| - 1], next, now, first);
    }
  }

  lemma RetireKeeps(o: Overlap, prev: set<Cert>, next: set<Cert>, now: Time)
    requires Bounded(o)
    ensures Bounded(Retire(o, prev, next, now)) && SameIssuer(o, Retire(o, prev, next, now))
    ensures forall c :: c in Retire(o, prev, next, now).retired && c !in o.retired ==> c in prev && c !in next
  {
  }

  lemma WithoutKeeps(o: Overlap, out: set<Cert>)
    requires Bounded(o)
    ensures var o' := Without(o, out);
      && Bounded(o') && SameIssuer(o, o') && o'.retired.Keys == o.retired.Keys - out
      && o'.restoreCap == o.restoreCap && o'.baselined == o.baselined
  {
  }

  /** The sequence moves by one when a served bundle is replaced by another. */
  predicate SequenceFollows(o: Overlap, o': Overlap) {
    o'.seqNo == o.seqNo + (if o.served.Some? && o'.served != o.served then 1 else 0)
  }

  /** What an operation at `now` that serves leaves: the issuer's certificates in
      their order, then the kept CAs in fingerprint order, each still live. */
  ghost predicate ServedAt(o: Overlap, fetched: seq<Cert>, now: Time) {
    && o.loaded && o.fetched == fetched
    && o.served == Some(fetched + Ordered(o.retired.Keys))
    && (forall c :: c in o.retired ==> now < o.retired[c].until)
  }

  /** The state is ready to be served from: only the bundle may be out of date. */
  ghost predicate Unserved(o: Overlap) {
    && Bounded(o)
    && (forall c :: c in o.retired ==> c !in o.current)
    && o.current == Certs(o.fetched)
  }

  lemma ServeNowServes(o: Overlap, now: Time)
    requires Unserved(o) && o.loaded
    ensures var o' := ServeNow(o, now);
      && OverlapInv(o') && ServedAt(o', o.fetched, now) && SequenceFollows(o, o')
      && o'.distrusted == o.distrusted && o'.attached == o.attached
  {
  }

  lemma InstalledUnserved(o: Overlap, fetched: seq<Cert>, stored: Option<seq<Row>>, now: Time)
    requires OverlapInv(o)
    ensures var o' := Installed(o, fetched, stored, now);
      && Unserved(o') && o'.loaded && o'.fetched == fetched && o'.served == o.served && o'.seqNo == o.seqNo
      && o'.distrusted == o.distrusted
  {
    hide Ordered, Retire, Without, MergeRows;
    var next := Certs(fetched);
    if stored.Some? {
      MergeKeeps(Merging(o.(baselined := true), o.current, []), stored.value, next, now, !o.baselined);
    }
    var m := MergeIf(o, stored, next, now);
    RetireKeeps(m.o, m.prev, next, now);
    WithoutKeeps(Retire(m.o, m.prev, next, now).(restoreCap := map[]), next);
  }

  lemma UpdateServes(o: Overlap, fetched: seq<Cert>, stored: Option<seq<Row>>, now: Time)
    requires OverlapInv(o)
    ensures var o' := Update(o, fetched, stored, now);
      OverlapInv(o') && ServedAt(o', fetched, now) && SequenceFollows(o, o') && o'.distrusted == o.distrusted
  {
    hide Installed, ServeNow, OverlapInv, ServedAt, Unserved;
    InstalledUnserved(o, fetched, stored, now);
    ServeNowServes(Installed(o, fetched, stored, now), now);
  }

  lemma ServeServes(o: Overlap, now: Time)
    requires OverlapInv(o)
    ensures OverlapInv(Serve(o, now)) && SequenceFollows(o, Serve(o, now)) && Serve(o, now).distrusted == o.distrusted
    ensures Serve(o, now).attached == o.attached && Serve(o, now).fetched == o.fetched
    ensures o.loaded ==> ServedAt(Serve(o, now), o.fetched, now)
    ensures Serve(o, now).retired == map c | c in o.retired && !(o.loaded && now >= o.retired[c].until) :: o.retired[c]
  {
  }

  function Purged(o: Overlap, out: set<Cert>): Overlap { Without(o.(distrusted := out), out) }

  lemma PurgedUnserved(o: Overlap, out: set<Cert>)
    requires Unserved(o)
    ensures Unserved(Purged(o, out))
    ensures o.retired.Keys !! out ==> Purged(o, out).retired == o.retired
  {
  }

  lemma DistrustKeeps(o: Overlap, out: set<Cert>, now: Time)
    requires OverlapInv(o)
    ensures var o' := Distrust(o, out, now);
      && OverlapInv(o') && SequenceFollows(o, o')
      && o'.distrusted == out && o'.fetched == o.fetched && o'.loaded == o.loaded
  {
    hide Ordered, ServeNow, Bounded;
    PurgedUnserved(o, out);
    assert Distrust(o, out, now) == if o.retired.Keys !! out then Purged(o, out) else Serve(Purged(o, out), now);
    if o.loaded { ServeNowServes(Purged(o, out), now); }
  }

  /** A distrusted CA is gone from the kept set and from the served bundle, unless
      the issuer itself publishes it. */
  lemma DistrustServes(o: Overlap, out: set<Cert>, now: Time)
    requires OverlapInv(o)
    ensures var o' := Distrust(o, out, now);
      && OverlapInv(o') && SequenceFollows(o, o') && o'.distrusted == out
      && o'.fetched == o.fetched && o'.loaded == o.loaded
      && OmitsDistrusted(o')
  {
    DistrustKeeps(o, out, now);
    ServedOmitsDistrusted(Distrust(o, out, now));
  }

  /** A distrust list takes out what it names and nothing else: another keep goes only
      when its time is up, in the serving that a drop brings with it. */
  lemma DistrustKeepsExactly(o: Overlap, out: set<Cert>, now: Time, c: Cert)
    ensures var o' := Distrust(o, out, now);
      && (c in o'.retired <==>
            && c in o.retired && c !in out
            && (o.retired.Keys !! out || !o.loaded || now < o.retired[c].until))
      && (c in o'.retired ==> o'.retired[c] == o.retired[c])
      && o'.restoreCap == o.restoreCap && o'.attached == o.attached && o'.baselined == o.baselined
  {
    hide ServeNow;
    var kept := Purged(o, out);
    assert Distrust(o, out, now) == if o.retired.Keys !! out then kept else Serve(kept, now);
    ServeNowRetires(kept, now, c);
  }

  /** No distrusted CA is served unless the issuer publishes it. */
  ghost predicate OmitsDistrusted(o: Overlap) {
    o.served.Some? ==> forall c :: c in o.served.value && c in o.distrusted ==> c in o.fetched
  }

  lemma ServedOmitsDistrusted(o: Overlap)
    requires OverlapInv(o)
    ensures OmitsDistrusted(o)
  {
    OrderedSpec(o.retired.Keys);
    if o.served.Some? {
      forall c | c in o.served.value && c in o.distrusted ensures c in o.fetched {
        assert c in o.fetched || c in Certs(Ordered(o.retired.Keys));
      }
    }
  }

  lemma RestoredUnserved(o: Overlap, rows: seq<Row>, now: Time)
    requires OverlapInv(o)
    ensures var o' := Restored(o, rows, now);
      && Unserved(o') && o'.loaded == o.loaded && o'.fetched == o.fetched
      && o'.served == o.served && o'.seqNo == o.seqNo
      && o'.distrusted == o.distrusted && o'.attached
  {
    hide Ordered, Retire, MergeRows;
    var start := o.(attached := true);
    MergeKeeps(Merging(start.(baselined := true), o.current, []), rows, o.current, now, !o.baselined);
    var m := Merge(start, rows, o.current, now);
    RetireKeeps(m.o, m.prev, o.current, now);
  }

  lemma AttachServes(o: Overlap, rows: seq<Row>, now: Time)
    requires OverlapInv(o)
    ensures var o' := Attach(o, rows, now);
      && OverlapInv(o') && SequenceFollows(o, o') && o'.distrusted == o.distrusted && o'.attached
      && (o.loaded ==> ServedAt(o', o.fetched, now))
  {
    hide Ordered, Restored, ServeNow;
    RestoredUnserved(o, rows, now);
    if o.loaded { ServeNowServes(Restored(o, rows, now), now); }
  }

  /** Without stored rows, exactly these CAs are kept after an update: the ones kept
      before and the ones that just left, each not republished and still live. A CA that
      left is kept for the grace, but not past its expiry or the cap a stored row set. */
  lemma UpdateKeepsExactly(o: Overlap, fetched: seq<Cert>, now: Time, c: Cert)
    requires OverlapInv(o)
    ensures var o' := Update(o, fetched, None, now);
      && (c in o'.retired <==>
            && c !in fetched
            && (c in o.retired ==> now < o.retired[c].until)
            && (c !in o.retired ==>
                  && c in o.current && o.grace > 0 && now < c.notAfter && c !in o.distrusted
                  && (c in o.restoreCap ==> now < o.restoreCap[c])))
      && (c in o'.retired && c in o.retired ==> o'.retired[c] == o.retired[c])
      && (c in o'.retired && c !in o.retired ==>
            o'.retired[c] == Kept(now, KeepFor(o.grace, o.restoreCap, c, now)))
      && o'.restoreCap == map[]
  {
    hide Installed, ServeNow, OverlapInv;
    InstalledKeeps(o, fetched, now, c);
    ServeNowRetires(Installed(o, fetched, None, now), now, c);
  }

  lemma InstalledKeeps(o: Overlap, fetched: seq<Cert>, now: Time, c: Cert)
    ensures var o' := Installed(o, fetched, None, now);
      && (c in o'.retired <==>
            c !in fetched && (c in o.retired || (c in o.current && Leaves(o, c, Certs(fetched), now))))
      && (c in o'.retired ==> o'.retired[c] == if c in o.retired then o.retired[c] else Kept(now, LeaveEnd(o, c, now)))
      && o'.restoreCap == map[]
  {
    hide KeepFor;
  }

  lemma ServeNowRetires(o: Overlap, now: Time, c: Cert)
    ensures var o' := ServeNow(o, now);
      && (c in o'.retired <==> c in o.retired && now < o.retired[c].until)
      && (c in o'.retired ==> o'.retired[c] == o.retired[c])
      && o'.restoreCap == o.restoreCap && o'.attached == o.attached && o'.baselined == o.baselined
  {
  }

  // ---- Runs -----------------------------------------------------------------

  datatype Op =
    | UpdateOp(fetched: seq<Cert>, stored: Option<seq<Row>>, now: Time)
    | ServeOp(now: Time)
    | DistrustOp(out: set<Cert>, now: Time)
    | AttachOp(rows: seq<Row>, now: Time)

  ghost function Apply(o: Overlap, op: Op): Overlap {
    match op
    case UpdateOp(fetched, stored, now) => Update(o, fetched, stored, now)
    case ServeOp(now) => Serve(o, now)
    case DistrustOp(out, now) => Distrust(o, out, now)
    case AttachOp(rows, now) => Attach(o, rows, now)
  }

  ghost function After(o: Overlap, ops: seq<Op>): Overlap
    decreases |ops|
  {
    if ops == [] then o else Apply(After(o, ops[..|ops| - 1]), ops[|ops| - 1])
  }

  lemma ApplyKeeps(o: Overlap, op: Op)
    requires OverlapInv(o)
    ensures OverlapInv(Apply(o, op)) && SequenceFollows(o, Apply(o, op))
  {
    hide Update, Serve, Distrust, Attach, OverlapInv, SequenceFollows, ServedAt;
    match op
    case UpdateOp(fetched, stored, now) => UpdateServes(o, fetched, stored, now);
    case ServeOp(now) => ServeServes(o, now);
    case DistrustOp(out, now) => DistrustServes(o, out, now);
    case AttachOp(rows, now) => AttachServes(o, rows, now);
  }

  /** In every state a process can reach, published, distrusted and kept CAs are
      apart, every keep is bounded, and the bundle served is the current one. */
  lemma {:induction false} ReachableInv(grace: Time, ops: seq<Op>)
    ensures OverlapInv(After(Fresh(grace), ops))
    decreases |ops|
  {
    hide Apply, OverlapInv;
    if ops == [] {
      assert OverlapInv(Fresh(grace)) by { FreshInv(grace); }
    } else {
      ReachableInv(grace, ops[..|ops| - 1]);
      ApplyKeeps(After(Fresh(grace), ops[..|ops| - 1]), ops[|ops| - 1]);
    }
  }

  lemma FreshInv(grace: Time)
    ensures OverlapInv(Fresh(grace))
  {
  }

  /** A process that has fetched once keeps nothing yet and serves what it fetched. */
  lemma BootedKeepsNone(grace: Time, fetched: seq<Cert>, now: Time)
    ensures var o := Update(Fresh(grace), fetched, None, now);
      && o.retired == map[] && o.served == Some(fetched) && o.loaded
      && o.fetched == fetched && o.current == Certs(fetched)
      && o.distrusted == {} && o.restoreCap == map[] && !o.baselined && !o.attached && o.grace == grace
  {
    var o := Update(Fresh(grace), fetched, None, now);
    FreshInv(grace);
    forall c ensures c !in o.retired { UpdateKeepsExactly(Fresh(grace), fetched, now, c); }
    UpdateServes(Fresh(grace), fetched, None, now);
    assert o.retired.Keys == {} && fetched + [] == fetched;
  }
}
