/** The overlap as the object that holds it: maps changed in place, and the events
    queued while they change. */
module CaKeeper {
  import opened Decisions
  import opened CaOverlap
  import opened CaOverlapRuns
  import opened KeptEvents

  class Keeper {
    const grace: Time
    var loaded: bool
    var fetched: seq<Cert>
    var current: set<Cert>
    var retired: map<Cert, Kept>
    var distrusted: set<Cert>
    var restoreCap: map<Cert, Time>
    var served: Option<seq<Cert>>
    var seqNo: int
    var attached: bool
    var baselined: bool
    var version: nat
    var pending: seq<KeptEvent>

    ghost function View(): Overlap
      reads this
    {
      Overlap(grace, loaded, fetched, current, retired, distrusted, restoreCap, served, seqNo,
              attached, baselined, version)
    }

    constructor (grace: Time)
      ensures View() == Fresh(grace) && pending == []
    {
      this.grace := grace;
      loaded, fetched, current, retired, distrusted, restoreCap := false, [], {}, map[], {}, map[];
      served, seqNo, attached, baselined, version, pending := None, 1, false, false, 0, [];
    }

    /** `mergeStoredLocked`: fold the stored rows in, row by row. */
    method MergeStored(stored: seq<Row>, next: set<Cert>, now: Time) returns (prev: set<Cert>)
      modifies this`retired, this`restoreCap, this`version, this`baselined, this`pending
      ensures var m := Merge(old(View()), stored, next, now);
        View() == m.o && prev == m.prev && pending == old(pending) + m.events
    {
      prev := current;
      var first := !baselined;
      baselined := true;
      ghost var start := Merging(View(), prev, []);
      ghost var evs: seq<KeptEvent> := [];
      assert pending == old(pending) + evs;
      for i := 0 to |stored|
        invariant MergeRows(start, stored[..i], next, now, first) == Merging(View(), prev, evs)
        invariant pending == old(pending) + evs
      {
        assert stored[..i + 1][..i] == stored[..i];
        EventsAppend(Merging(View(), prev, []), stored[i], next, now, first, evs);
        evs := MergeRow(Merging(View(), prev, evs), stored[i], next, now, first).events;
        prev := MergeOne(stored[i], prev, next, now, first);
      }
      assert stored[..|stored|] == stored;
    }

    /** One stored row. */
    method MergeOne(r: Row, prev: set<Cert>, next: set<Cert>, now: Time, first: bool) returns (prev': set<Cert>)
      modifies this`retired, this`restoreCap, this`version, this`pending
      ensures var m := MergeRow(Merging(old(View()), prev, []), r, next, now, first);
        m.o == View() && m.prev == prev' && pending == old(pending) + m.events
    {
      prev' := prev;
      if r.cert.None? || !r.cert.value.isCA { return; }
      var c := r.cert.value;
      if r.until.None? {
        if first && r.savedAt.Some? && now < r.savedAt.value + grace {
          prev' := prev + {c};
          restoreCap := restoreCap[c := r.savedAt.value + grace];
        }
        return;
      }
      var until := r.until.value;
      if r.keptAt + grace < until { until := r.keptAt + grace; }
      if c.notAfter < until { until := c.notAfter; }
      if c in next || c in distrusted { return; }
      if now >= until {
        if first {
          pending := pending + [DroppedEvent(c, GraceEnded, until)];
          version := version + 1;
        }
        return;
      }
      var had := c in retired;
      if had && retired[c] == Kept(r.keptAt, until) { return; }
      retired := retired[c := Kept(r.keptAt, until)];
      version := version + 1;
      if !had { pending := pending + [KeptEvent(c, true, until)]; }
    }

    /** Keep one CA that just left. */
    method KeepOne(c: Cert, now: Time)
      requires c !in retired
      modifies this`retired, this`version, this`pending
      ensures retired == old(retired)[c := Kept(now, KeepFor(grace, restoreCap, c, now))] && version == old(version) + 1
      ensures Tracks(old(retired).Keys, old(pending), pending, retired.Keys)
      ensures pending == old(pending) + [KeptEvent(c, false, retired[c].until)]
    {
      var until := now + grace;
      if c in restoreCap && restoreCap[c] < until { until := restoreCap[c]; }
      if c.notAfter < until { until := c.notAfter; }
      TracksOne(retired.Keys, pending, KeptEvent(c, false, until));
      retired := retired[c := Kept(now, until)];
      version := version + 1;
      pending := pending + [KeptEvent(c, false, until)];
    }

    /** Keep each of `gone`, in whatever order the map gives. */
    method KeepAll(gone: set<Cert>, now: Time)
      requires gone !! retired.Keys
      modifies this`retired, this`version, this`pending
      ensures retired == old(retired) + KeepEach(grace, restoreCap, gone, now) && version == old(version) + |gone|
      ensures Tracks(old(retired).Keys, old(pending), pending, retired.Keys)
      ensures SaysLeft(old(pending), pending, gone)
    {
      hide Tracks, KeepFor;
      TracksNothing(retired.Keys, pending);
      ghost var before, more := retired, KeepEach(grace, restoreCap, gone, now);
      var todo := gone;
      while todo != {}
        invariant todo !! retired.Keys && todo <= gone
        invariant retired == before + (more - todo) && version + |todo| == old(version) + |gone|
        invariant Tracks(before.Keys, old(pending), pending, retired.Keys)
        invariant SaysLeft(old(pending), pending, gone)
        decreases todo
      {
        var c :| c in todo;
        ghost var keys, earlier := retired.Keys, pending;
        KeepOne(c, now);
        TracksThen(before.Keys, old(pending), keys, earlier, retired.Keys, pending);
        todo := todo - {c};
      }
      assert more - {} == more;
    }

    /** `retireLocked`: keep, for the grace period, each CA of prev that next lacks. */
    method RetireGone(prev: set<Cert>, next: set<Cert>, now: Time)
      modifies this`retired, this`version, this`pending
      ensures View() == Retire(old(View()), prev, next, now)
      ensures Tracks(old(retired).Keys, old(pending), pending, retired.Keys)
      ensures Tells(old(pending), pending, next, {}, now)
    {
      hide Tracks, Tells, KeepFor, SaysLeft;
      var gone := set c | c in prev && grace > 0 && c !in next && c.notAfter > now && c !in distrusted && c !in retired;
      assert gone == Leaving(View(), prev, next, now);
      KeepAll(gone, now);
      LeftTells(old(pending), pending, gone, next, {}, now);
    }

    /** `drop`: forget one kept CA and say why. */
    method Drop(c: Cert, reason: DropReason)
      requires c in retired
      modifies this`retired, this`version, this`pending
      ensures retired == old(retired) - {c} && version == old(version) + 1
      ensures Drops(old(retired).Keys, old(pending), pending, retired.Keys)
      ensures pending == old(pending) + [DroppedEvent(c, reason, old(retired)[c].until)]
    {
      TracksOne(retired.Keys, pending, DroppedEvent(c, reason, retired[c].until));
      pending := pending + [DroppedEvent(c, reason, retired[c].until)];
      retired := retired - {c};
      version := version + 1;
    }

    /** Drop each kept CA in `out`. */
    method DropAll(out: set<Cert>, reason: DropReason) returns (n: nat)
      modifies this`retired, this`version, this`pending
      ensures View() == Without(old(View()), out) && n == |old(retired).Keys * out|
      ensures Drops(old(retired).Keys, old(pending), pending, retired.Keys)
      ensures SaysDropped(old(retired), reason, old(pending), pending, out)
    {
      hide Drops, SaysDropped;
      n := DropEach(out, reason);
    }

    method DropEach(out: set<Cert>, reason: DropReason) returns (n: nat)
      modifies this`retired, this`version, this`pending
      ensures retired == old(retired) - out && version == old(version) + n && n == |old(retired).Keys * out|
      ensures Drops(old(retired).Keys, old(pending), pending, retired.Keys)
      ensures SaysDropped(old(retired), reason, old(pending), pending, out)
    {
      hide Tracks;
      ghost var before := retired;
      TracksNothing(retired.Keys, pending);
      assert SaysDropped(before, reason, pending, pending, out);
      hide SaysDropped;
      ghost var all := before.Keys * out;
      var todo := retired.Keys * out;
      n := 0;
      while todo != {}
        invariant todo <= all && retired == before - (all - todo)
        invariant version == old(version) + n && n + |todo| == |all|
        invariant Drops(before.Keys, old(pending), pending, retired.Keys)
        invariant SaysDropped(before, reason, old(pending), pending, out)
        decreases todo
      {
        var c :| c in todo;
        ghost var keys, earlier := retired.Keys, pending;
        assert retired[c] == before[c];
        Drop(c, reason);
        TracksThen(before.Keys, old(pending), keys, earlier, retired.Keys, pending);
        SaysOneMore(before, reason, old(pending), earlier, out, c);
        todo := todo - {c};
        n := n + 1;
      }
      assert before - all == before - out;
    }

    /** The kept CAs in fingerprint order. */
    method SortKept() returns (xs: seq<Cert>)
      ensures xs == Ordered(retired.Keys)
    {
      xs := [];
      var todo := retired.Keys;
      while todo != {}
        invariant todo <= retired.Keys && Ascending(xs) && Certs(xs) == retired.Keys - todo
        decreases todo
      {
        var c :| c in todo;
        todo := todo - {c};
        xs := Insert(xs, c);
      }
      OrderedSpec(retired.Keys);
      OrderedUnique(xs, Ordered(retired.Keys));
    }

    static method Insert(xs: seq<Cert>, c: Cert) returns (ys: seq<Cert>)
      requires Ascending(xs) && c !in xs
      ensures Ascending(ys) && Certs(ys) == Certs(xs) + {c}
    {
      var i := 0;
      while i < |xs| && Less(xs[i], c)
        invariant i <= |xs| && forall j :: 0 <= j < i ==> Less(xs[j], c)
      {
        i := i + 1;
      }
      ys := xs[..i] + [c] + xs[i..];
      assert xs == xs[..i] + xs[i..];
      assert forall j :: i <= j < |xs| ==> Less(c, xs[j]);
    }

    /** `serveLocked`: drop what has ended, render, and count a change. */
    method ServeLocked(now: Time) returns (out: seq<Cert>)
      modifies this`retired, this`version, this`pending, this`served, this`seqNo
      ensures View() == ServeNow(old(View()), now) && served == Some(out)
      ensures Drops(old(retired).Keys, old(pending), pending, retired.Keys)
      ensures forall next, out :: Tells(old(pending), pending, next, out, now)
    {
      hide Drops, Ordered, Without, Tells, SaysDropped;
      var over := set c | c in retired && now >= retired[c].until;
      assert over == Ended(View(), now);
      var _ := DropAll(over, GraceEnded);
      forall next, out ensures Tells(old(pending), pending, next, out, now) {
        DropsTell(old(retired), GraceEnded, old(pending), pending, over, next, out, now);
      }
      var kept := SortKept();
      out := fetched + kept;
      if served.Some? && out != served.value { seqNo := seqNo + 1; }
      served := Some(out);
    }

    /** `parsePEMCerts`: the certificates that parse, in order. */
    static method ParseBundle(blocks: seq<Block>) returns (certs: seq<Cert>)
      ensures certs == Parsed(blocks)
    {
      certs := [];
      for i := 0 to |blocks|
        invariant certs == Parsed(blocks[..i])
      {
        assert blocks[..i + 1][..i] == blocks[..i];
        if blocks[i].Certificate? { certs := certs + [blocks[i].cert]; }
      }
      assert blocks[..|blocks|] == blocks;
    }

    /** What was published before, the stored rows folded in when there are any. */
    method MergeIfStored(stored: Option<seq<Row>>, next: set<Cert>, now: Time) returns (prev: set<Cert>)
      requires stored.Some? ==> DistinctRows(stored.value)
      modifies this`retired, this`restoreCap, this`version, this`baselined, this`pending
      ensures var m := MergeIf(old(View()), stored, next, now); View() == m.o && prev == m.prev
      ensures var d := Misreports(old(View()), stored, next, now);
        d <= retired.Keys && TracksBut(old(retired).Keys, old(pending), pending, retired.Keys, d)
      ensures Tells(old(pending), pending, next, {}, now)
    {
      hide TracksBut, MergeRows, Misreports, Fold, Tells;
      ghost var o := View();
      NoneMisreported(o, next, now);
      TellsNothing(pending, next, {}, now);
      if stored.None? {
        MergedTracks(o.retired.Keys, pending, [], retired.Keys, {});
        return current;
      }
      MergeAccounts(o, stored.value, next, now);
      MergeTells(Merging(o.(baselined := true), o.current, []), stored.value, next, {}, now, !o.baselined);
      TellsAfter(pending, Merge(o, stored.value, next, now).events, next, {}, now);
      prev := MergeStored(stored.value, next, now);
      MergedTracks(o.retired.Keys, old(pending), Merge(o, stored.value, next, now).events, retired.Keys,
                   Misreports(o, stored, next, now));
    }

    /** The kept set brought up to date with a bundle, before it is served. */
    method Install(certs: seq<Cert>, stored: Option<seq<Row>>, now: Time)
      requires stored.Some? ==> DistinctRows(stored.value)
      modifies this
      ensures View() == Installed(old(View()), certs, stored, now)
      ensures TracksBut(old(retired).Keys, old(pending), pending, retired.Keys,
                        Misreports(old(View()), stored, Certs(certs), now))
      ensures Tells(old(pending), pending, Certs(certs), {}, now)
    {
      hide Tracks, TracksBut, Retire, Without, MergeIf, Misreports, Published, Tells;
      ghost var o, p0, d := View(), pending, Misreports(View(), stored, Certs(certs), now);
      var next := Certs(certs);
      var prev := MergeIfStored(stored, next, now);
      ghost var k1, p1 := retired.Keys, pending;
      SettleKept(prev, next, now);
      TracksButThen(o.retired.Keys, p0, k1, p1, retired.Keys, pending, d);
      TellsThen(p0, p1, pending, next, {}, now);
      Publish(certs);
    }

    /** Keep what next lacks, and drop what it has again. */
    method SettleKept(prev: set<Cert>, next: set<Cert>, now: Time)
      modifies this`retired, this`version, this`pending, this`restoreCap
      ensures View() == Without(Retire(old(View()), prev, next, now).(restoreCap := map[]), next)
      ensures Tracks(old(retired).Keys, old(pending), pending, retired.Keys)
      ensures Tells(old(pending), pending, next, {}, now)
    {
      hide Tracks, Retire, Without, Tells, SaysDropped;
      ghost var k0, p0 := retired.Keys, pending;
      RetireGone(prev, next, now);
      ghost var k1, p1 := retired.Keys, pending;
      restoreCap := map[];
      ghost var kept := retired;
      var _ := DropAll(next, Republished);
      TracksThen(k0, p0, k1, p1, retired.Keys, pending);
      DropsTell(kept, Republished, p1, pending, next, next, {}, now);
      TellsThen(p0, p1, pending, next, {}, now);
    }

    method Publish(certs: seq<Cert>)
      modifies this`version, this`loaded, this`fetched, this`current
      ensures View() == Published(old(View()), old(current), certs)
    {
      if current != Certs(certs) { version := version + 1; }
      loaded, fetched, current := true, certs, Certs(certs);
    }

    /** `update`: an unparsable bundle changes nothing; any other is installed and served. */
    method Update(blocks: seq<Block>, load: Option<seq<Row>>, now: Time) returns (out: Option<seq<Cert>>)
      requires load.Some? ==> DistinctRows(load.value)
      modifies this
      ensures Parsed(blocks) == [] ==> out == None && View() == old(View()) && pending == old(pending)
      ensures Parsed(blocks) != [] ==>
        var stored := if old(attached) then load else None;
        && View() == CaOverlap.Update(old(View()), Parsed(blocks), stored, now) && out == served && out.Some?
        && TracksBut(old(retired).Keys, old(pending), pending, retired.Keys,
                     Misreports(old(View()), stored, Certs(Parsed(blocks)), now))
        && Tells(old(pending), pending, Certs(Parsed(blocks)), {}, now)
    {
      hide Tracks, TracksBut, Installed, ServeNow, Misreports, Tells;
      var certs := ParseBundle(blocks);
      if certs == [] { return None; }
      ghost var k0, p0 := retired.Keys, pending;
      ghost var d := Misreports(View(), if attached then load else None, Certs(certs), now);
      Install(certs, if attached then load else None, now);
      ghost var k1, p1 := retired.Keys, pending;
      var bundle := ServeLocked(now);
      TracksButThen(k0, p0, k1, p1, retired.Keys, pending, d);
      TellsThen(p0, p1, pending, Certs(certs), {}, now);
      out := Some(bundle);
    }

    /** `serve`: the bundle now, or nothing before the first load. */
    method Serve(now: Time) returns (out: Option<seq<Cert>>)
      modifies this
      ensures View() == CaOverlap.Serve(old(View()), now) && (out.Some? <==> loaded) && (out.Some? ==> out == served)
      ensures Tracks(old(retired).Keys, old(pending), pending, retired.Keys)
      ensures Tells(old(pending), pending, current, {}, now)
    {
      hide ServeNow;
      if !loaded { return None; }
      var bundle := ServeLocked(now);
      out := Some(bundle);
    }

    /** `distrust`: replace the list, drop what it names, count the drops. */
    method Distrust(out: set<Cert>, now: Time) returns (n: nat)
      modifies this
      ensures View() == CaOverlap.Distrust(old(View()), out, now) && n == |old(retired).Keys * out|
      ensures Tracks(old(retired).Keys, old(pending), pending, retired.Keys)
      ensures Tells(old(pending), pending, current, out, now)
    {
      hide Tracks, ServeNow, Tells, SaysDropped;
      ghost var o, k0, p0 := View(), retired.Keys, pending;
      distrusted := out;
      n := DropAll(out, Distrusted);
      DropsTell(o.retired, Distrusted, p0, pending, out, current, out, now);
      assert View() == Purged(o, out);
      ghost var both := k0 * out;
      assert n == |both| && (both == {} <==> k0 !! out) by { assert forall c :: c in k0 && c in out <==> c in both; }
      if n > 0 && loaded {
        ghost var k1, p1 := retired.Keys, pending;
        var _ := ServeLocked(now);
        TracksThen(k0, p0, k1, p1, retired.Keys, pending);
        TellsThen(p0, p1, pending, current, out, now);
      }
    }

    /** `attachStore`: a store that cannot be read changes nothing. */
    method AttachStore(load: Option<seq<Row>>, now: Time) returns (ok: bool)
      requires load.Some? ==> DistinctRows(load.value)
      modifies this
      ensures ok == load.Some?
      ensures !ok ==> View() == old(View()) && pending == old(pending)
      ensures ok ==> View() == CaOverlap.Attach(old(View()), load.value, now)
      ensures ok ==> TracksBut(old(retired).Keys, old(pending), pending, retired.Keys,
                               Misreports(old(View()), load, old(current), now))
      ensures ok ==> Tells(old(pending), pending, old(current), {}, now)
    {
      hide Tracks, TracksBut, ServeNow, Misreports, Fold, MergeRows, Leavers, Leaving, Tells;
      if load.None? { return false; }
      ghost var o, k0, p0 := View(), retired.Keys, pending;
      attached := true;
      ghost var start := View();
      ghost var d := Misreports(o, load, current, now);
      MisreportsFrame(o, start, load, current, now);
      MergeAccounts(start, load.value, current, now);
      MergeTells(Merging(start.(baselined := true), current, []), load.value, current, {}, now, !baselined);
      TellsAfter(pending, Merge(start, load.value, current, now).events, current, {}, now);
      var prev := MergeStored(load.value, current, now);
      MergedTracks(k0, p0, Merge(start, load.value, current, now).events, retired.Keys, d);
      ghost var k1, p1 := retired.Keys, pending;
      RetireGone(prev, current, now);
      ghost var k2, p2 := retired.Keys, pending;
      version := version + 1;
      assert View() == Restored(o, load.value, now);
      TracksButThen(k0, p0, k1, p1, k2, p2, d);
      TellsThen(p0, p1, p2, current, {}, now);
      if loaded {
        var _ := ServeLocked(now);
        TracksButThen(k0, p0, k2, p2, retired.Keys, pending, d);
        TellsThen(p0, p2, pending, current, {}, now);
      }
      return true;
    }

    /** `snapshotLocked`: the rows to store. */
    method Snapshot() returns (rows: seq<Row>)
      ensures SnapshotOf(View(), None, rows)
    {
      rows := [];
      var todo := current;
      while todo != {}
        invariant todo <= current
        invariant forall r :: r in rows ==>
          r.cert.Some? && r.savedAt == None && r.until.None? && r.cert.value in current
        invariant forall c :: c in current && c !in todo ==> Row(Some(c), ZERO_TIME, None, None) in rows
        decreases todo
      {
        var c :| c in todo;
        todo := todo - {c};
        rows := rows + [Row(Some(c), ZERO_TIME, None, None)];
      }
      todo := retired.Keys;
      while todo != {}
        invariant todo <= retired.Keys
        invariant forall r :: r in rows ==> r.cert.Some? && r.savedAt == None
        invariant forall r :: r in rows && r.until.None? ==> r.cert.value in current
        invariant forall r :: r in rows && r.until.Some? ==>
          r.cert.value in retired && Kept(r.keptAt, r.until.value) == retired[r.cert.value]
        invariant forall c :: c in current ==> Row(Some(c), ZERO_TIME, None, None) in rows
        invariant forall c :: c in retired && c !in todo ==>
          Row(Some(c), retired[c].keptAt, Some(retired[c].until), None) in rows
        decreases todo
      {
        var c :| c in todo;
        todo := todo - {c};
        rows := rows + [Row(Some(c), retired[c].keptAt, Some(retired[c].until), None)];
      }
    }
  }

  /** A row adds its events to those before it, whatever they are. */
  lemma EventsAppend(m: Merging, r: Row, next: set<Cert>, now: Time, first: bool, evs: seq<KeptEvent>)
    requires m.events == []
    ensures var one := MergeRow(m, r, next, now, first);
      MergeRow(m.(events := evs), r, next, now, first) == one.(events := evs + one.events)
  {
  }

  lemma MergedTracks(before: set<Cert>, p: seq<KeptEvent>, events: seq<KeptEvent>, after: set<Cert>, d: set<Cert>)
    requires Fold(before, events) == after - d
    ensures TracksBut(before, p, p + events, after, d) && p + [] == p
  {
    assert (p + events)[|p|..] == events;
  }

  lemma NoneMisreported(o: Overlap, next: set<Cert>, now: Time)
    ensures Misreports(o, None, next, now) == {} && Fold(o.retired.Keys, []) == o.retired.Keys
  {
  }

  lemma MisreportsFrame(o: Overlap, o': Overlap, stored: Option<seq<Row>>, next: set<Cert>, now: Time)
    requires o'.retired == o.retired && o'.grace == o.grace
    requires o'.distrusted == o.distrusted && o'.baselined == o.baselined
    ensures Misreports(o', stored, next, now) == Misreports(o, stored, next, now)
  {
    assert forall r :: ExpiredRow(o', r, next, now) <==> ExpiredRow(o, r, next, now);
  }
}
