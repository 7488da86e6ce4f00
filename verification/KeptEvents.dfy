/** Do the kept and dropped events tell the whole story? They do but for one thing:
    the first merge reports a stored keep that has ended even when this process keeps
    that CA itself. */
module KeptEvents {
  import opened Decisions
  import opened CaOverlap
  import opened CaOverlapRuns

  /** The store holds one row per certificate. */
  ghost predicate DistinctRows(rows: seq<Row>) {
    forall i, j | 0 <= i < j < |rows| :: rows[i].cert.Some? ==> rows[i].cert != rows[j].cert
  }

  /** CAs this process keeps that a stored row says have ended. */
  function Misreported(o: Overlap, rows: seq<Row>, next: set<Cert>, now: Time): set<Cert> {
    set c | c in o.retired && EndedRow(o, rows, next, now, c)
  }

  predicate EndedRow(o: Overlap, rows: seq<Row>, next: set<Cert>, now: Time, c: Cert) {
    exists i :: 0 <= i < |rows| && rows[i].cert == Some(c) && ExpiredRow(o, rows[i], next, now)
  }

  /** Certificates without a row in the list are kept or not as before the merge. */
  ghost predicate OnlyOwnRows(before: set<Cert>, m: Merging, rows: seq<Row>) {
    && before <= m.o.retired.Keys
    && forall c :: c in m.o.retired && c !in before ==> exists i :: 0 <= i < |rows| && rows[i].cert == Some(c)
  }

  lemma {:induction false} MergeFolds(o: Overlap, m: Merging, rows: seq<Row>, next: set<Cert>, now: Time, first: bool)
    requires DistinctRows(rows) && m.events == [] && m.o.retired == o.retired
    requires m.o.grace == o.grace && m.o.distrusted == o.distrusted
    ensures var m' := MergeRows(m, rows, next, now, first);
      && m'.o.grace == o.grace && m'.o.distrusted == o.distrusted
      && OnlyOwnRows(o.retired.Keys, m', rows)
      && Fold(o.retired.Keys, m'.events) == m'.o.retired.Keys - (if first then Misreported(o, rows, next, now) else {})
  {
    hide MergeRow, Fold, Misreported, OnlyOwnRows;
    if rows == [] {
      MergeStartFolds(o, m, next, now);
    } else {
      var front, r := rows[..|rows| - 1], rows[|rows| - 1];
      MergeFolds(o, m, front, next, now, first);
      assert rows == front + [r];
      var mid := MergeRows(m, front, next, now, first);
      FoldOneRow(o, mid, front, r, next, now, first);
      MergeRowFrame(mid, r, next, now, first);
    }
  }

  lemma FoldOneRow(o: Overlap, mid: Merging, front: seq<Row>, r: Row, next: set<Cert>, now: Time, first: bool)
    requires DistinctRows(front + [r]) && mid.o.grace == o.grace && mid.o.distrusted == o.distrusted
    requires OnlyOwnRows(o.retired.Keys, mid, front)
    requires Fold(o.retired.Keys, mid.events)
      == mid.o.retired.Keys - (if first then Misreported(o, front, next, now) else {})
    ensures var m' := MergeRow(mid, r, next, now, first);
      && OnlyOwnRows(o.retired.Keys, m', front + [r])
      && Fold(o.retired.Keys, m'.events)
           == m'.o.retired.Keys - (if first then Misreported(o, front + [r], next, now) else {})
  {
    hide Fold, Misreported, OnlyOwnRows, DistinctRows, KeepEnd;
    var m' := MergeRow(mid, r, next, now, first);
    MisreportedOneMore(o, front, r, next, now);
    OwnRowsGrow(o, mid, m', front, r, next, now, first);
    if UsableRow(r) && r.until.Some? {
      var c := r.cert.value;
      RowIsNew(o, mid, front, r, next, now);
      FoldOne(Fold(o.retired.Keys, mid.events), DroppedEvent(c, GraceEnded, 0));
      if m'.events != mid.events {
        var e := m'.events[|mid.events|];
        FoldAppend(o.retired.Keys, mid.events, [e]);
        FoldOne(Fold(o.retired.Keys, mid.events), e);
      }
    }
  }

  /** A certificate met for the first time is kept or not as before the merge. */
  lemma RowIsNew(o: Overlap, mid: Merging, front: seq<Row>, r: Row, next: set<Cert>, now: Time)
    requires DistinctRows(front + [r]) && OnlyOwnRows(o.retired.Keys, mid, front) && r.cert.Some?
    ensures r.cert.value in mid.o.retired <==> r.cert.value in o.retired
    ensures r.cert.value !in Misreported(o, front, next, now)
  {
    var rows := front + [r];
    forall i | 0 <= i < |front| ensures front[i].cert != r.cert {
      assert rows[i] == front[i] && rows[|front|] == r;
    }
  }

  lemma MergeStartFolds(o: Overlap, m: Merging, next: set<Cert>, now: Time)
    requires m.events == [] && m.o.retired == o.retired
    ensures OnlyOwnRows(o.retired.Keys, m, []) && Misreported(o, [], next, now) == {}
    ensures Fold(o.retired.Keys, m.events) == o.retired.Keys
  {
  }

  lemma MergeRowFrame(m: Merging, r: Row, next: set<Cert>, now: Time, first: bool)
    ensures var m' := MergeRow(m, r, next, now, first); m'.o.grace == m.o.grace && m'.o.distrusted == m.o.distrusted
  {
  }

  lemma FoldOne(s: set<Cert>, e: KeptEvent)
    ensures Fold(s, [e]) == if e.KeptEvent? then s + {e.cert} else s - {e.cert}
  {
    assert [e][..0] == [];
  }

  lemma OwnRowsGrow(o: Overlap, mid: Merging, m': Merging, front: seq<Row>, r: Row, next: set<Cert>, now: Time,
                    first: bool)
    requires OnlyOwnRows(o.retired.Keys, mid, front) && m' == MergeRow(mid, r, next, now, first)
    ensures OnlyOwnRows(o.retired.Keys, m', front + [r])
  {
    var rows := front + [r];
    forall c | c in m'.o.retired && c !in o.retired.Keys
      ensures exists i :: 0 <= i < |rows| && rows[i].cert == Some(c)
    {
      if c in mid.o.retired {
        var i :| 0 <= i < |front| && front[i].cert == Some(c);
        assert rows[i].cert == Some(c);
      } else {
        assert rows[|front|].cert == Some(c);
      }
    }
  }

  lemma MisreportedOneMore(o: Overlap, front: seq<Row>, r: Row, next: set<Cert>, now: Time)
    ensures Misreported(o, front + [r], next, now) == Misreported(o, front, next, now)
      + (if ExpiredRow(o, r, next, now) && r.cert.value in o.retired then {r.cert.value} else {})
  {
    var rows := front + [r];
    forall c | c in o.retired
      ensures EndedRow(o, rows, next, now, c) <==>
        EndedRow(o, front, next, now, c) || (r.cert == Some(c) && ExpiredRow(o, r, next, now))
    {
      if EndedRow(o, front, next, now, c) {
        var i :| 0 <= i < |front| && front[i].cert == Some(c) && ExpiredRow(o, front[i], next, now);
        assert rows[i] == front[i];
      }
      assert rows[|front|] == r;
    }
  }

  /** A merge's events account for the kept set exactly when it is not the first,
      or no CA kept by this process has an ended row. */
  lemma MergeAccountsIff(o: Overlap, rows: seq<Row>, next: set<Cert>, now: Time)
    requires DistinctRows(rows)
    ensures var m := Merge(o, rows, next, now);
      Fold(o.retired.Keys, m.events) == m.o.retired.Keys <==> o.baselined || Misreported(o, rows, next, now) == {}
  {
    var start := Merging(o.(baselined := true), o.current, []);
    MergeFolds(o, start, rows, next, now, !o.baselined);
    var m := Merge(o, rows, next, now);
    assert Misreported(o, rows, next, now) <= m.o.retired.Keys;
  }

  /** A process that saw c replaced by d at 10 and keeps c until 110. */
  ghost function Rotated(c: Cert, d: Cert): Overlap {
    After(Fresh(100), [UpdateOp([c], None, 0), UpdateOp([d], None, 10)])
  }

  lemma RotatedKeeps(c: Cert, d: Cert)
    requires c != d && c.notAfter >= 110
    ensures var o := Rotated(c, d); o.retired == map[c := Kept(10, 110)] && o.current == {d}
    ensures Rotated(c, d).distrusted == {} && Rotated(c, d).grace == 100 && !Rotated(c, d).baselined
  {
    hide Update, OverlapInv;
    var ops := [UpdateOp([c], None, 0), UpdateOp([d], None, 10)];
    assert ops[..1] == [ops[0]] && ops[..1][..0] == [];
    var o1 := Update(Fresh(100), [c], None, 0);
    assert After(Fresh(100), ops[..1]) == o1;
    BootedKeepsNone(100, [c], 0);
    ReachableInv(100, ops[..1]);
    assert Certs([c]) == {c};
    RotatesOut(o1, c, d);
  }

  lemma RotatesOut(o: Overlap, c: Cert, d: Cert)
    requires OverlapInv(o) && o.retired == map[] && o.current == {c} && o.grace == 100 && c != d && c.notAfter >= 110
    requires o.restoreCap == map[] && o.distrusted == {} && !o.baselined
    ensures var o' := Update(o, [d], None, 10);
      && o'.retired == map[c := Kept(10, 110)] && o'.current == {d}
      && o'.distrusted == {} && o'.grace == 100 && !o'.baselined
  {
    hide Update, OverlapInv;
    var o' := Update(o, [d], None, 10);
    forall x ensures x in o'.retired <==> x == c { UpdateKeepsExactly(o, [d], 10, x); }
    UpdateKeepsExactly(o, [d], 10, c);
    assert o'.retired.Keys == {c};
    UpdateFrame(o, [d], 10);
    assert Certs([d]) == {d};
  }

  lemma UpdateFrame(o: Overlap, fetched: seq<Cert>, now: Time)
    ensures var o' := Update(o, fetched, None, now);
      && o'.current == Certs(fetched) && o'.distrusted == o.distrusted
      && o'.grace == o.grace && o'.baselined == o.baselined
  {
    hide Ordered;
  }

  /** A store attached late does misreport: the process has kept c since 10, the store
      says another process's keep of c ended at 50, and at 60 the events say dropped. */
  lemma LateAttachMisreports(c: Cert, d: Cert)
    requires c != d && c.isCA && c.notAfter >= 110
    ensures var o := Rotated(c, d);
      var m := Merge(o, [Row(Some(c), 0, Some(50), Some(40))], o.current, 60);
      && c in m.o.retired && c !in Fold(o.retired.Keys, m.events)
      && c in Attach(o, [Row(Some(c), 0, Some(50), Some(40))], 60).retired
  {
    var o, r := Rotated(c, d), Row(Some(c), 0, Some(50), Some(40));
    RotatedKeeps(c, d);
    hide Rotated;
    assert ExpiredRow(o, r, o.current, 60);
    var start := Merging(o.(baselined := true), o.current, []);
    assert [r][..0] == [];
    assert MergeRows(start, [r], o.current, 60, true) == MergeRow(start, r, o.current, 60, true);
    FoldOne(o.retired.Keys, DroppedEvent(c, GraceEnded, 50));
    StillKept(o, r, c);
  }

  /** An ended row of a CA this process keeps does not end its own keep. */
  lemma StillKept(o: Overlap, r: Row, c: Cert)
    requires r == Row(Some(c), 0, Some(50), Some(40)) && c.isCA && c !in o.current && c !in o.distrusted
    requires c in o.retired && o.retired[c].until > 60 && o.grace == 100
    ensures c in Attach(o, [r], 60).retired
  {
    hide ServeNow, Ordered;
    var start := Merging(o.(attached := true, baselined := true), o.current, []);
    assert [r][..0] == [];
    assert MergeRows(start, [r], o.current, 60, !o.baselined) == MergeRow(start, r, o.current, 60, !o.baselined);
    ServeNowRetires(Restored(o, [r], 60), 60, c);
  }

  /** The kept CAs an operation's merge, if it does one, reports as dropped. */
  function Misreports(o: Overlap, stored: Option<seq<Row>>, next: set<Cert>, now: Time): set<Cert> {
    if stored.Some? && !o.baselined then Misreported(o, stored.value, next, now) else {}
  }

  /** The events of a merge, to the last certificate. */
  lemma MergeAccounts(o: Overlap, rows: seq<Row>, next: set<Cert>, now: Time)
    requires DistinctRows(rows)
    ensures var m, d := Merge(o, rows, next, now), Misreports(o, Some(rows), next, now);
      Fold(o.retired.Keys, m.events) == m.o.retired.Keys - d && d <= m.o.retired.Keys
  {
    MergeFolds(o, Merging(o.(baselined := true), o.current, []), rows, next, now, !o.baselined);
  }
}
