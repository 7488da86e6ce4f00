/** The CAs Omega serves for an external issuer: what the issuer publishes now,
    and the ones it stopped publishing, kept for a grace period. A certificate
    stands for its SHA-256 fingerprint. */
module CaOverlap {
  import opened Decisions

  datatype Cert = Cert(serial: nat, notAfter: Time, isCA: bool)

  /** A CA kept after the issuer stopped publishing it. */
  datatype Kept = Kept(keptAt: Time, until: Time)

  /** A stored row: the certificate if it parses, and for a kept CA its end;
      a row without one was saved while the issuer published the CA. */
  datatype Row = Row(cert: Option<Cert>, keptAt: Time, until: Option<Time>, savedAt: Option<Time>)

  datatype DropReason = GraceEnded | Republished | Distrusted

  datatype KeptEvent =
    | KeptEvent(cert: Cert, restored: bool, until: Time)
    | DroppedEvent(cert: Cert, reason: DropReason, until: Time)

  datatype Overlap = Overlap(
    grace: Time,
    loaded: bool,
    fetched: seq<Cert>,
    current: set<Cert>,
    retired: map<Cert, Kept>,
    distrusted: set<Cert>,
    restoreCap: map<Cert, Time>,
    served: Option<seq<Cert>>,
    seqNo: int,
    attached: bool,
    baselined: bool,
    version: nat)

  function Fresh(grace: Time): Overlap {
    Overlap(grace, false, [], {}, map[], {}, map[], None, 1, false, false, 0)
  }

  function Min(a: Time, b: Time): (m: Time)
    ensures m <= a && m <= b && (m == a || m == b)
  {
    if b < a then b else a
  }

  function Certs(xs: seq<Cert>): set<Cert> { set c | c in xs }

  // ---- Fingerprint order --------------------------------------------------

  predicate Less(a: Cert, b: Cert) {
    || a.serial < b.serial
    || (a.serial == b.serial && (a.notAfter < b.notAfter || (a.notAfter == b.notAfter && !a.isCA && b.isCA)))
  }

  ghost predicate Ascending(xs: seq<Cert>) { forall i, j :: 0 <= i < j < |xs| ==> Less(xs[i], xs[j]) }

  ghost predicate Least(m: Cert, s: set<Cert>) { m in s && forall c :: c in s ==> c == m || Less(m, c) }

  lemma {:induction false} LeastExists(s: set<Cert>) returns (m: Cert)
    requires s != {}
    ensures Least(m, s)
    decreases |s|
  {
    var x :| x in s;
    var rest := s - {x};
    assert s == rest + {x};
    if rest == {} {
      m := x;
    } else {
      var k := LeastExists(rest);
      m := if Less(k, x) then k else x;
    }
  }

  ghost function LeastOf(s: set<Cert>): (m: Cert)
    requires s != {}
    ensures Least(m, s)
  {
    assert exists m :: Least(m, s) by { var m := LeastExists(s); assert Least(m, s); }
    var m :| Least(m, s);
    m
  }

  /** The certificates of a set in fingerprint order. */
  ghost function Ordered(s: set<Cert>): seq<Cert>
    decreases |s|
  {
    if s == {} then [] else [LeastOf(s)] + Ordered(s - {LeastOf(s)})
  }

  lemma {:induction false} OrderedSpec(s: set<Cert>)
    ensures Ascending(Ordered(s)) && Certs(Ordered(s)) == s
    decreases |s|
  {
    if s != {} {
      var m, rest := LeastOf(s), Ordered(s - {LeastOf(s)});
      OrderedSpec(s - {m});
      assert forall i :: 0 <= i < |rest| ==> rest[i] in Certs(rest);
      assert Certs([m] + rest) == {m} + Certs(rest);
    }
  }

  lemma HeadIsLeast(xs: seq<Cert>)
    requires xs != [] && Ascending(xs)
    ensures Least(xs[0], Certs(xs)) && Certs(xs[1..]) == Certs(xs) - {xs[0]}
  {
  }

  /** There is one such order. */
  lemma {:induction false} OrderedUnique(xs: seq<Cert>, ys: seq<Cert>)
    requires Ascending(xs) && Ascending(ys) && Certs(xs) == Certs(ys)
    ensures xs == ys
  {
    assert (xs == [] <==> Certs(xs) == {}) && (ys == [] <==> Certs(ys) == {}) by { EmptyCerts(xs); EmptyCerts(ys); }
    if xs != [] {
      HeadIsLeast(xs);
      HeadIsLeast(ys);
      OrderedUnique(xs[1..], ys[1..]);
    }
  }

  lemma EmptyCerts(xs: seq<Cert>)
    ensures xs == [] <==> Certs(xs) == {}
  {
    if xs != [] { assert xs[0] in Certs(xs); }
  }

  // ---- Merging the stored rows --------------------------------------------

  /** The end of a stored keep, cut to this process's grace and to the CA's expiry. */
  function KeepEnd(grace: Time, c: Cert, keptAt: Time, until: Time): (end: Time)
    ensures end <= until && end <= keptAt + grace && end <= c.notAfter
    ensures end == until || end == keptAt + grace || end == c.notAfter
  {
    Min(Min(until, keptAt + grace), c.notAfter)
  }

  /** A merge under way: the state, the CAs published before, the events so far. */
  datatype Merging = Merging(o: Overlap, prev: set<Cert>, events: seq<KeptEvent>)

  predicate UsableRow(r: Row) { r.cert.Some? && r.cert.value.isCA }

  /** A row of a kept CA whose time is up, which the first merge reports as dropped. */
  predicate ExpiredRow(o: Overlap, r: Row, next: set<Cert>, now: Time) {
    && UsableRow(r) && r.until.Some? && r.cert.value !in next && r.cert.value !in o.distrusted
    && now >= KeepEnd(o.grace, r.cert.value, r.keptAt, r.until.value)
  }

  function MergeRow(m: Merging, r: Row, next: set<Cert>, now: Time, first: bool): Merging {
    if !UsableRow(r) then m
    else
      var c, o := r.cert.value, m.o;
      if r.until.None? then
        if first && r.savedAt.Some? && now < r.savedAt.value + o.grace
        then m.(prev := m.prev + {c}, o := o.(restoreCap := o.restoreCap[c := r.savedAt.value + o.grace]))
        else m
      else
        var until := KeepEnd(o.grace, c, r.keptAt, r.until.value);
        if c in next || c in o.distrusted then m
        else if now >= until then
          if first
          then m.(o := o.(version := o.version + 1), events := m.events + [DroppedEvent(c, GraceEnded, until)]) else m
        else if c in o.retired && o.retired[c] == Kept(r.keptAt, until) then m
        else m.(o := o.(retired := o.retired[c := Kept(r.keptAt, until)], version := o.version + 1),
                events := if c in o.retired then m.events else m.events + [KeptEvent(c, true, until)])
  }

  function MergeRows(m: Merging, rows: seq<Row>, next: set<Cert>, now: Time, first: bool): Merging {
    if rows == [] then m
    else MergeRow(MergeRows(m, rows[..|rows| - 1], next, now, first), rows[|rows| - 1], next, now, first)
  }

  function Merge(o: Overlap, rows: seq<Row>, next: set<Cert>, now: Time): Merging {
    MergeRows(Merging(o.(baselined := true), o.current, []), rows, next, now, !o.baselined)
  }

  // ---- Retiring, serving, distrusting --------------------------------------

  /** c was published, is not any more, and is worth keeping. */
  predicate Leaves(o: Overlap, c: Cert, next: set<Cert>, now: Time) {
    o.grace > 0 && c !in next && c.notAfter > now && c !in o.distrusted && c !in o.retired
  }

  /** How long a CA that left is kept: the grace, cut to the cap a stored row set
      and to the CA's expiry. */
  function KeepFor(grace: Time, caps: map<Cert, Time>, c: Cert, now: Time): (end: Time)
    ensures end <= now + grace && end <= c.notAfter && (c in caps ==> end <= caps[c])
    ensures end == now + grace || end == c.notAfter || (c in caps && end == caps[c])
  {
    Min(if c in caps then Min(now + grace, caps[c]) else now + grace, c.notAfter)
  }

  function LeaveEnd(o: Overlap, c: Cert, now: Time): Time { KeepFor(o.grace, o.restoreCap, c, now) }

  function Leaving(o: Overlap, prev: set<Cert>, next: set<Cert>, now: Time): set<Cert> {
    set c | c in prev && Leaves(o, c, next, now)
  }

  function KeepEach(grace: Time, caps: map<Cert, Time>, gone: set<Cert>, now: Time): map<Cert, Kept> {
    map c | c in gone :: Kept(now, KeepFor(grace, caps, c, now))
  }

  function Leavers(o: Overlap, gone: set<Cert>, now: Time): map<Cert, Kept> {
    KeepEach(o.grace, o.restoreCap, gone, now)
  }

  function Retire(o: Overlap, prev: set<Cert>, next: set<Cert>, now: Time): Overlap {
    var gone := Leaving(o, prev, next, now);
    o.(retired := o.retired + Leavers(o, gone, now), version := o.version + |gone|)
  }

  function Without(o: Overlap, out: set<Cert>): Overlap {
    o.(retired := o.retired - out, version := o.version + |o.retired.Keys * out|)
  }

  function Ended(o: Overlap, now: Time): set<Cert> { set c | c in o.retired && now >= o.retired[c].until }

  ghost function Bundle(o: Overlap): seq<Cert> { o.fetched + Ordered(o.retired.Keys) }

  ghost function ServeNow(o: Overlap, now: Time): Overlap {
    var live := Without(o, Ended(o, now));
    live.(served := Some(Bundle(live)),
          seqNo := if o.served.Some? && o.served.value != Bundle(live) then o.seqNo + 1 else o.seqNo)
  }

  ghost function Serve(o: Overlap, now: Time): Overlap { if o.loaded then ServeNow(o, now) else o }

  function MergeIf(o: Overlap, stored: Option<seq<Row>>, next: set<Cert>, now: Time): Merging {
    if stored.Some? then Merge(o, stored.value, next, now) else Merging(o, o.current, [])
  }

  /** The issuer's bundle takes over from the set published before. */
  function Published(kept: Overlap, before: set<Cert>, fetched: seq<Cert>): Overlap {
    kept.(version := kept.version + (if before == Certs(fetched) then 0 else 1),
          loaded := true, fetched := fetched, current := Certs(fetched))
  }

  /** An issuer's bundle installed, the kept set brought up to date with it. */
  function Installed(o: Overlap, fetched: seq<Cert>, stored: Option<seq<Row>>, now: Time): Overlap {
    var next := Certs(fetched);
    var m := MergeIf(o, stored, next, now);
    Published(Without(Retire(m.o, m.prev, next, now).(restoreCap := map[]), next), o.current, fetched)
  }

  ghost function Update(o: Overlap, fetched: seq<Cert>, stored: Option<seq<Row>>, now: Time): Overlap {
    ServeNow(Installed(o, fetched, stored, now), now)
  }

  ghost function Distrust(o: Overlap, out: set<Cert>, now: Time): Overlap {
    var o' := Without(o.(distrusted := out), out);
    if o.retired.Keys !! out then o' else Serve(o', now)
  }

  /** The stored state folded in, before it is served. */
  function Restored(o: Overlap, rows: seq<Row>, now: Time): Overlap {
    var m := Merge(o.(attached := true), rows, o.current, now);
    var kept := Retire(m.o, m.prev, o.current, now);
    kept.(version := kept.version + 1)
  }

  ghost function Attach(o: Overlap, rows: seq<Row>, now: Time): Overlap { Serve(Restored(o, rows, now), now) }

  // ---- Kept events ----------------------------------------------------------

  /** The kept set an observer of the events has built up. */
  function Fold(s: set<Cert>, events: seq<KeptEvent>): set<Cert> {
    if events == [] then s
    else
      var before := Fold(s, events[..|events| - 1]);
      match events[|events| - 1]
      case KeptEvent(c, _, _) => before + {c}
      case DroppedEvent(c, _, _) => before - {c}
  }

  lemma {:induction false} FoldAppend(s: set<Cert>, a: seq<KeptEvent>, b: seq<KeptEvent>)
    ensures Fold(s, a + b) == Fold(Fold(s, a), b)
  {
    if b == [] { assert a + b == a; } else {
      FoldAppend(s, a, b[..|b| - 1]);
      assert (a + b)[..|a + b| - 1] == a + b[..|b| - 1];
    }
  }

  /** No event keeps a member of the set. */
  predicate KeepsNoneOf(s: set<Cert>, events: seq<KeptEvent>) {
    forall i :: 0 <= i < |events| && events[i].KeptEvent? ==> events[i].cert !in s
  }

  /** The later list only adds events to the earlier; they account for the change of the
      kept set, and keep only what was not kept. */
  ghost predicate Tracks(before: set<Cert>, earlier: seq<KeptEvent>, later: seq<KeptEvent>, after: set<Cert>) {
    && earlier <= later && Fold(before, later[|earlier|..]) == after
    && KeepsNoneOf(before, later[|earlier|..])
  }

  predicate OnlyDrops(events: seq<KeptEvent>) { forall i :: 0 <= i < |events| ==> events[i].DroppedEvent? }

  /** The same for a change that only drops. */
  ghost predicate Drops(before: set<Cert>, earlier: seq<KeptEvent>, later: seq<KeptEvent>, after: set<Cert>) {
    Tracks(before, earlier, later, after) && OnlyDrops(later[|earlier|..])
  }

  lemma TracksThen(a: set<Cert>, p: seq<KeptEvent>, b: set<Cert>, q: seq<KeptEvent>, c: set<Cert>, r: seq<KeptEvent>)
    requires Tracks(a, p, q, b) && Tracks(b, q, r, c) && (a <= b || Drops(b, q, r, c))
    ensures Tracks(a, p, r, c)
    ensures Drops(a, p, q, b) && Drops(b, q, r, c) ==> Drops(a, p, r, c)
  {
    FoldAppend(a, q[|p|..], r[|q|..]);
    assert r[|p|..] == q[|p|..] + r[|q|..];
  }

  lemma TracksNothing(a: set<Cert>, p: seq<KeptEvent>)
    ensures Drops(a, p, p, a)
  {
  }

  lemma TracksOne(a: set<Cert>, p: seq<KeptEvent>, e: KeptEvent)
    requires e.KeptEvent? ==> e.cert !in a
    ensures Tracks(a, p, p + [e], if e.KeptEvent? then a + {e.cert} else a - {e.cert})
    ensures e.DroppedEvent? ==> Drops(a, p, p + [e], a - {e.cert})
  {
    assert (p + [e])[|p|..] == [e];
    assert [e][..0] == [];
  }

  /** The added events account for the change but for the certificates in d. */
  ghost predicate TracksBut(before: set<Cert>, earlier: seq<KeptEvent>, later: seq<KeptEvent>, after: set<Cert>,
                            d: set<Cert>) {
    earlier <= later && Fold(before, later[|earlier|..]) == after - d
  }

  /** They account for it exactly when no such certificate is still kept. */
  lemma AccountsIff(before: set<Cert>, earlier: seq<KeptEvent>, later: seq<KeptEvent>, after: set<Cert>, d: set<Cert>)
    requires TracksBut(before, earlier, later, after, d)
    ensures Fold(before, later[|earlier|..]) == after <==> d !! after
  {
    assert after - d == after <==> d !! after;
  }

  lemma {:induction false} FoldWithout(a: set<Cert>, events: seq<KeptEvent>, d: set<Cert>)
    requires KeepsNoneOf(d, events)
    ensures Fold(a - d, events) == Fold(a, events) - d
  {
    if events != [] { FoldWithout(a, events[..|events| - 1], d); }
  }

  lemma TracksButThen(a: set<Cert>, p: seq<KeptEvent>, b: set<Cert>, q: seq<KeptEvent>, c: set<Cert>,
                      r: seq<KeptEvent>, d: set<Cert>)
    requires TracksBut(a, p, q, b, d) && Tracks(b, q, r, c) && (d <= b || Drops(b, q, r, c))
    ensures TracksBut(a, p, r, c, d)
  {
    FoldAppend(a, q[|p|..], r[|q|..]);
    assert r[|p|..] == q[|p|..] + r[|q|..];
    FoldWithout(b, r[|q|..], d);
  }

  // ---- What an event says --------------------------------------------------------

  /** True of an event of an operation at `now` that installs next and distrusts out: a
      CA is kept only when it is neither published nor expired and never past its expiry,
      and each drop has the reason it gives. */
  predicate Truthful(e: KeptEvent, next: set<Cert>, out: set<Cert>, now: Time) {
    match e
    case KeptEvent(c, _, until) => c !in next && now < c.notAfter && until <= c.notAfter
    case DroppedEvent(_, GraceEnded, until) => until <= now
    case DroppedEvent(c, Republished, _) => c in next
    case DroppedEvent(c, Distrusted, _) => c in out
  }

  ghost predicate Tells(earlier: seq<KeptEvent>, later: seq<KeptEvent>, next: set<Cert>, out: set<Cert>, now: Time) {
    earlier <= later && forall i :: |earlier| <= i < |later| ==> Truthful(later[i], next, out, now)
  }

  lemma TellsThen(p: seq<KeptEvent>, q: seq<KeptEvent>, r: seq<KeptEvent>, next: set<Cert>, out: set<Cert>, now: Time)
    requires Tells(p, q, next, out, now) && Tells(q, r, next, out, now)
    ensures Tells(p, r, next, out, now)
  {
  }

  lemma TellsNothing(p: seq<KeptEvent>, next: set<Cert>, out: set<Cert>, now: Time)
    ensures Tells(p, p, next, out, now)
  {
  }

  /** The later list adds a drop of each of these, for this reason and with its own end. */
  ghost predicate SaysDropped(kept: map<Cert, Kept>, reason: DropReason, earlier: seq<KeptEvent>,
                              later: seq<KeptEvent>, gone: set<Cert>) {
    && earlier <= later
    && forall i :: |earlier| <= i < |later| ==>
         && later[i].DroppedEvent? && later[i].reason == reason && later[i].cert in gone && later[i].cert in kept
         && later[i].until == kept[later[i].cert].until
  }

  lemma SaysOneMore(kept: map<Cert, Kept>, reason: DropReason, p: seq<KeptEvent>, q: seq<KeptEvent>, gone: set<Cert>,
                    c: Cert)
    requires SaysDropped(kept, reason, p, q, gone) && c in gone && c in kept
    ensures SaysDropped(kept, reason, p, q + [DroppedEvent(c, reason, kept[c].until)], gone)
  {
  }

  /** The later list adds a keep of each of these, ending by its expiry. */
  ghost predicate SaysLeft(earlier: seq<KeptEvent>, later: seq<KeptEvent>, gone: set<Cert>) {
    && earlier <= later
    && forall i :: |earlier| <= i < |later| ==>
         later[i].KeptEvent? && later[i].cert in gone && later[i].until <= later[i].cert.notAfter
  }

  lemma LeftTells(p: seq<KeptEvent>, q: seq<KeptEvent>, gone: set<Cert>, next: set<Cert>, out: set<Cert>, now: Time)
    requires SaysLeft(p, q, gone) && gone !! next && forall c :: c in gone ==> now < c.notAfter
    ensures Tells(p, q, next, out, now)
  {
  }

  lemma DropsTell(kept: map<Cert, Kept>, reason: DropReason, p: seq<KeptEvent>, q: seq<KeptEvent>, gone: set<Cert>,
                  next: set<Cert>, out: set<Cert>, now: Time)
    requires SaysDropped(kept, reason, p, q, gone)
    requires match reason
      case GraceEnded => forall c :: c in gone && c in kept ==> kept[c].until <= now
      case Republished => gone <= next
      case Distrusted => gone <= out
    ensures Tells(p, q, next, out, now)
  {
  }

  lemma {:induction false} MergeTells(m: Merging, rows: seq<Row>, next: set<Cert>, out: set<Cert>, now: Time,
                                      first: bool)
    ensures Tells(m.events, MergeRows(m, rows, next, now, first).events, next, out, now)
  {
    if rows != [] {
      var mid := MergeRows(m, rows[..|rows| - 1], next, now, first);
      MergeTells(m, rows[..|rows| - 1], next, out, now, first);
      MergeRowTells(mid, rows[|rows| - 1], next, out, now, first);
      hide MergeRow;
      TellsThen(m.events, mid.events, MergeRow(mid, rows[|rows| - 1], next, now, first).events, next, out, now);
    }
  }

  lemma MergeRowTells(m: Merging, r: Row, next: set<Cert>, out: set<Cert>, now: Time, first: bool)
    ensures Tells(m.events, MergeRow(m, r, next, now, first).events, next, out, now)
  {
  }

  lemma TellsAfter(p: seq<KeptEvent>, events: seq<KeptEvent>, next: set<Cert>, out: set<Cert>, now: Time)
    requires Tells([], events, next, out, now)
    ensures Tells(p, p + events, next, out, now)
  {
  }

  // ---- Stored form ------------------------------------------------------------

  /** The rows that stand for a state: the issuer's CAs and the kept ones. */
  ghost predicate SnapshotOf(o: Overlap, savedAt: Option<Time>, rows: seq<Row>) {
    && (forall r :: r in rows ==> r.cert.Some? && r.savedAt == savedAt)
    && (forall r :: r in rows && r.until.None? ==> r.cert.value in o.current)
    && (forall r :: r in rows && r.until.Some? ==>
          r.cert.value in o.retired && Kept(r.keptAt, r.until.value) == o.retired[r.cert.value])
    && (forall c :: c in o.current ==> Row(Some(c), ZERO_TIME, None, savedAt) in rows)
    && (forall c :: c in o.retired ==> Row(Some(c), o.retired[c].keptAt, Some(o.retired[c].until), savedAt) in rows)
  }

  // ---- The issuer's bundle -----------------------------------------------------

  /** A PEM block of the issuer's bundle. */
  datatype Block = Certificate(cert: Cert) | Unparsable | OtherBlock

  function Parsed(blocks: seq<Block>): seq<Cert> {
    if blocks == [] then []
    else
      var last := blocks[|blocks| - 1];
      Parsed(blocks[..|blocks| - 1]) + (if last.Certificate? then [last.cert] else [])
  }

  /** Each block that parses gives its certificate, in place; the others give nothing. */
  lemma {:induction false} ParsedExact(a: seq<Block>, b: seq<Block>, block: Block)
    ensures Parsed([block]) == if block.Certificate? then [block.cert] else []
    ensures Parsed(a + b) == Parsed(a) + Parsed(b)
    decreases |b|
  {
    assert [block][..0] == [];
    if b == [] { assert a + b == a; } else {
      ParsedExact(a, b[..|b| - 1], block);
      assert (a + b)[..|a + b| - 1] == a + b[..|b| - 1];
    }
  }
}
