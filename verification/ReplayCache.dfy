/** The two-generation cache that makes a credential single use, and the acceptance
    windows of the credentials it guards (sections 4.3 and 11.1 of RFC 9449). An entry
    stands for the hash of its owner and key. */
module ReplayCache {
  import opened Decisions

  const MAX_ENTRIES := 100_000

  datatype Entry = Entry(owner: string, key: string)

  datatype Answer = First | Seen | OverQuota | Full

  datatype Cache = Cache(
    retention: Time,
    perOwner: nat,
    cur: set<Entry>,
    prev: set<Entry>,
    rotated: Option<Time>,
    curOwner: map<string, nat>,
    prevOwner: map<string, nat>)

  function Empty(retention: Time, perOwner: nat): Cache { Cache(retention, perOwner, {}, {}, None, map[], map[]) }

  function Count(m: map<string, nat>, owner: string): nat { if owner in m then m[owner] else 0 }

  predicate Due(c: Cache, now: Time) { c.rotated.None? || now - c.rotated.value >= c.retention }

  function Rotate(c: Cache, now: Time): Cache {
    if Due(c, now)
    then c.(prev := c.cur, cur := {}, rotated := Some(now), prevOwner := c.curOwner, curOwner := map[]) else c
  }

  function Lookup(c: Cache, e: Entry): Answer {
    if e in c.cur || e in c.prev then Seen
    else if c.perOwner > 0 && Count(c.curOwner, e.owner) + Count(c.prevOwner, e.owner) >= c.perOwner then OverQuota
    else if |c.cur| + |c.prev| >= MAX_ENTRIES then Full
    else First
  }

  function Record(c: Cache, e: Entry): Cache {
    c.(cur := c.cur + {e},
       curOwner := if c.perOwner > 0 then c.curOwner[e.owner := Count(c.curOwner, e.owner) + 1] else c.curOwner)
  }

  function AnswerTo(c: Cache, e: Entry, now: Time): Answer { Lookup(Rotate(c, now), e) }

  function Use(c: Cache, e: Entry, now: Time): Cache {
    if AnswerTo(c, e, now).First? then Record(Rotate(c, now), e) else Rotate(c, now)
  }

  // ---- Quotas -------------------------------------------------------------------

  function Owned(s: set<Entry>, owner: string): set<Entry> { set e | e in s && e.owner == owner }

  /** The counters are the entries held, and neither they nor the cache overflow. */
  ghost predicate Valid(c: Cache) {
    && c.cur !! c.prev && |c.cur| + |c.prev| <= MAX_ENTRIES
    && (c.perOwner > 0 ==> forall o: string ::
          && Count(c.curOwner, o) == |Owned(c.cur, o)| && Count(c.prevOwner, o) == |Owned(c.prev, o)|
          && |Owned(c.cur, o)| + |Owned(c.prev, o)| <= c.perOwner)
  }

  lemma OwnedGrows(s: set<Entry>, e: Entry, o: string)
    requires e !in s
    ensures |Owned(s + {e}, o)| == |Owned(s, o)| + (if e.owner == o then 1 else 0)
  {
    if e.owner == o { assert Owned(s + {e}, o) == Owned(s, o) + {e}; } else { assert Owned(s + {e}, o) == Owned(s, o); }
  }

  lemma RotateKeepsValid(c: Cache, now: Time)
    requires Valid(c)
    ensures Valid(Rotate(c, now))
  {
  }

  /** No owner ever holds more than its quota, and the cache never overflows. */
  lemma UseKeepsValid(c: Cache, e: Entry, now: Time)
    requires Valid(c)
    ensures Valid(Use(c, e, now))
  {
    RotateKeepsValid(c, now);
    var r := Rotate(c, now);
    if AnswerTo(c, e, now).First? {
      hide Rotate;
      forall o: string ensures |Owned(r.cur + {e}, o)| == |Owned(r.cur, o)| + (if e.owner == o then 1 else 0) {
        OwnedGrows(r.cur, e, o);
      }
    }
  }

  /** What a lookup at `now` searches: two generations, or one if the older is due to go. */
  function Held(c: Cache, now: Time): set<Entry> {
    if c.rotated.Some? && now - c.rotated.value < c.retention then c.cur + c.prev else c.cur
  }

  /** An entry is taken exactly when it is not held, its owner holds less than the quota
      and the cache less than its limit; it is then held, and nothing else changes. */
  lemma TakenIff(c: Cache, e: Entry, now: Time)
    requires Valid(c)
    ensures AnswerTo(c, e, now).Seen? <==> e in Held(c, now)
    ensures AnswerTo(c, e, now).First? <==>
      && e !in Held(c, now) && |Held(c, now)| < 100_000
      && (c.perOwner > 0 ==> |Owned(Held(c, now), e.owner)| < c.perOwner)
    ensures var c' := Use(c, e, now);
      c'.cur + c'.prev == Held(c, now) + (if AnswerTo(c, e, now).First? then {e} else {})
  {
    hide Valid, Lookup, Record, Owned;
    RotateHolds(c, now);
    RotateKeepsValid(c, now);
    LookupIff(Rotate(c, now), e);
  }

  lemma RotateHolds(c: Cache, now: Time)
    ensures Rotate(c, now).cur + Rotate(c, now).prev == Held(c, now) && Rotate(c, now).perOwner == c.perOwner
  {
    if Due(c, now) { assert {} + c.cur == c.cur; }
  }

  lemma LookupIff(c: Cache, e: Entry)
    requires Valid(c)
    ensures Lookup(c, e).Seen? <==> e in c.cur + c.prev
    ensures Lookup(c, e).First? <==>
      && e !in c.cur + c.prev && |c.cur + c.prev| < 100_000
      && (c.perOwner > 0 ==> |Owned(c.cur + c.prev, e.owner)| < c.perOwner)
    ensures Record(c, e).cur + Record(c, e).prev == c.cur + c.prev + {e}
  {
    OwnedSplits(c.cur, c.prev, e.owner);
    assert |c.cur + c.prev| == |c.cur| + |c.prev|;
  }

  lemma OwnedSplits(a: set<Entry>, b: set<Entry>, owner: string)
    requires a !! b
    ensures |Owned(a + b, owner)| == |Owned(a, owner)| + |Owned(b, owner)|
  {
    assert Owned(a + b, owner) == Owned(a, owner) + Owned(b, owner) && Owned(a, owner) !! Owned(b, owner);
  }

  // ---- Remembering ----------------------------------------------------------------

  /** The reading each entry was last taken at; an entry no longer held was taken more
      than the retention before the reading of the last rotation. Nothing is asked of
      the order of the readings. */
  ghost predicate Remembers(c: Cache, taken: map<Entry, Time>) {
    && c.retention > 0 && c.cur !! c.prev && c.cur + c.prev <= taken.Keys
    && (c.rotated.None? ==> taken == map[])
    && forall e :: e in taken ==>
         if e in c.cur then taken[e] < c.rotated.value + c.retention
         else if e in c.prev then taken[e] < c.rotated.value
         else taken[e] + c.retention < c.rotated.value
  }

  function Taken(c: Cache, taken: map<Entry, Time>, e: Entry, now: Time): map<Entry, Time> {
    if AnswerTo(c, e, now).First? then taken[e := now] else taken
  }

  lemma UseRemembers(c: Cache, taken: map<Entry, Time>, e: Entry, now: Time)
    requires Remembers(c, taken)
    ensures Remembers(Use(c, e, now), Taken(c, taken, e, now)) && Use(c, e, now).rotated.Some?
    ensures e in taken && AnswerTo(c, e, now).First? ==> Use(c, e, now).rotated.value > taken[e] + c.retention
  {
  }

  // ---- Runs --------------------------------------------------------------------------

  /** A credential good from `from` to `to`, both included, presented by a request that
      reads the clock at `checked` for those bounds and at `used` for the cache, and
      gets the cache's lock at `locked`; `sound` says it passes every other check. */
  datatype Attempt = Attempt(e: Entry, from: Time, to: Time, sound: bool, checked: Time, used: Time, locked: Time)

  /** A request that fails any check is refused before it reaches the cache. */
  predicate Reaches(a: Attempt) { a.sound && a.from <= a.checked <= a.to }

  function Present(c: Cache, a: Attempt): Cache { if Reaches(a) then Use(c, a.e, a.used) else c }

  predicate Accepts(c: Cache, a: Attempt) { Reaches(a) && AnswerTo(c, a.e, a.used).First? }

  function After(c: Cache, tries: seq<Attempt>): Cache
    decreases |tries|
  {
    if tries == [] then c else Present(After(c, tries[..|tries| - 1]), tries[|tries| - 1])
  }

  /** Attempt i of a run from an empty cache is let in. */
  predicate Accepted(retention: Time, perOwner: nat, tries: seq<Attempt>, i: nat)
    requires i < |tries|
  {
    Accepts(After(Empty(retention, perOwner), tries[..i]), tries[i])
  }

  /** The readings reach the cache in the order they were taken. */
  predicate InOrder(tries: seq<Attempt>) { forall i, j :: 0 <= i < j < |tries| ==> tries[i].used <= tries[j].used }

  /** A clock that does not go back: readings before the lock, and the lock in order. */
  predicate Timely(tries: seq<Attempt>) {
    && (forall i :: 0 <= i < |tries| ==> tries[i].checked <= tries[i].used <= tries[i].locked)
    && (forall i, j :: 0 <= i < j < |tries| ==> tries[i].locked <= tries[j].locked)
  }

  function TakenBy(c: Cache, tries: seq<Attempt>): map<Entry, Time>
    decreases |tries|
  {
    if tries == [] then map[]
    else
      var front, a := tries[..|tries| - 1], tries[|tries| - 1];
      if Reaches(a) then Taken(After(c, front), TakenBy(c, front), a.e, a.used) else TakenBy(c, front)
  }

  lemma {:induction false} RunRemembers(retention: Time, perOwner: nat, tries: seq<Attempt>)
    requires retention > 0
    ensures var c := Empty(retention, perOwner);
      Remembers(After(c, tries), TakenBy(c, tries)) && After(c, tries).retention == retention
    decreases |tries|
  {
    var c := Empty(retention, perOwner);
    if tries != [] {
      hide Remembers, Use, Taken;
      var front, a := tries[..|tries| - 1], tries[|tries| - 1];
      RunRemembers(retention, perOwner, front);
      if Reaches(a) {
        UseRemembers(After(c, front), TakenBy(c, front), a.e, a.used);
        UseFrame(After(c, front), a.e, a.used);
      }
    }
  }

  lemma UseFrame(c: Cache, e: Entry, now: Time)
    ensures Use(c, e, now).retention == c.retention
    ensures Use(c, e, now).rotated == c.rotated || Use(c, e, now).rotated == Some(now)
  {
  }

  /** A rotation is stamped with the reading of some request. */
  lemma {:induction false} RotatedByARequest(retention: Time, perOwner: nat, tries: seq<Attempt>) returns (k: nat)
    requires After(Empty(retention, perOwner), tries).rotated.Some?
    ensures k < |tries| && After(Empty(retention, perOwner), tries).rotated == Some(tries[k].used)
    decreases |tries|
  {
    hide Use;
    var c, front, a := Empty(retention, perOwner), tries[..|tries| - 1], tries[|tries| - 1];
    if Reaches(a) { UseFrame(After(c, front), a.e, a.used); }
    if Reaches(a) && After(c, tries).rotated == Some(a.used) {
      k := |tries| - 1;
    } else {
      k := RotatedByARequest(retention, perOwner, front);
    }
  }

  /** What was taken stays taken at its reading until it is accepted again. */
  lemma {:induction false} TakenLasts(retention: Time, perOwner: nat, tries: seq<Attempt>, i: nat, e: Entry)
    requires i <= |tries| && e in TakenBy(Empty(retention, perOwner), tries[..i])
    requires forall k :: i <= k < |tries| && tries[k].e == e ==> !Accepted(retention, perOwner, tries, k)
    ensures var c := Empty(retention, perOwner);
      e in TakenBy(c, tries) && TakenBy(c, tries)[e] == TakenBy(c, tries[..i])[e]
    decreases |tries|
  {
    hide Use, AnswerTo;
    if i == |tries| { assert tries[..i] == tries; } else {
      var front := tries[..|tries| - 1];
      assert front[..i] == tries[..i];
      forall k | i <= k < |front| && front[k].e == e ensures !Accepted(retention, perOwner, front, k) {
        assert front[..k] == tries[..k] && !Accepted(retention, perOwner, tries, k);
      }
      TakenLasts(retention, perOwner, front, i, e);
      assert tries[|tries| - 1].e == e ==> !Accepted(retention, perOwner, tries, |tries| - 1);
    }
  }

  /** In every run, in whatever order the readings reach the cache, through every
      rotation and with any other requests in between: by the time an entry is accepted
      a second time, some request has read the clock more than the retention after the
      reading of the first. */
  lemma {:induction false} SecondUseIsLate(retention: Time, perOwner: nat, tries: seq<Attempt>, i: nat, j: nat)
    returns (k: nat)
    requires retention > 0 && i < j < |tries| && tries[i].e == tries[j].e
    requires Accepted(retention, perOwner, tries, i) && Accepted(retention, perOwner, tries, j)
    ensures k <= j && tries[k].used > tries[i].used + retention
    ensures InOrder(tries) ==> tries[j].used - tries[i].used > retention
    decreases j
  {
    hide Remembers, Use, AnswerTo;
    var e := tries[i].e;
    if m :| i < m < j && tries[m].e == e && Accepted(retention, perOwner, tries, m) {
      k := SecondUseIsLate(retention, perOwner, tries, i, m);
    } else {
      k := NextUseIsLate(retention, perOwner, tries, i, j);
    }
    assert InOrder(tries) ==> tries[k].used <= tries[j].used;
  }

  lemma NextUseIsLate(retention: Time, perOwner: nat, tries: seq<Attempt>, i: nat, j: nat) returns (k: nat)
    requires retention > 0 && i < j < |tries| && tries[i].e == tries[j].e
    requires Accepted(retention, perOwner, tries, i) && Accepted(retention, perOwner, tries, j)
    requires forall m :: i < m < j && tries[m].e == tries[i].e ==> !Accepted(retention, perOwner, tries, m)
    ensures k <= j && tries[k].used > tries[i].used + retention
  {
    hide Remembers, Use, AnswerTo;
    var c, e, past := Empty(retention, perOwner), tries[i].e, tries[..j];
    assert tries[..i + 1][..i] == tries[..i] && past[..i + 1] == tries[..i + 1];
    assert TakenBy(c, tries[..i + 1])[e] == tries[i].used;
    forall m | i + 1 <= m < |past| && past[m].e == e ensures !Accepted(retention, perOwner, past, m) {
      assert past[..m] == tries[..m] && !Accepted(retention, perOwner, tries, m);
    }
    TakenLasts(retention, perOwner, past, i + 1, e);
    RunRemembers(retention, perOwner, past);
    UseRemembers(After(c, past), TakenBy(c, past), e, tries[j].used);
    var more := tries[..j + 1];
    assert more[..j] == past && After(c, more) == Use(After(c, past), e, tries[j].used);
    k := RotatedByARequest(retention, perOwner, more);
  }

  /** A credential whose window is no longer than the retention: accepted a second time,
      it was held up between the check of its window and the lock by more than the
      first use's distance from the start of the window. If the readings reach the
      cache in order, then between the check and its own second reading; so with one
      reading and readings in order it is accepted at most once. */
  lemma AcceptedOnce(retention: Time, perOwner: nat, tries: seq<Attempt>, i: nat, j: nat)
    requires retention > 0 && Timely(tries) && i < j < |tries| && tries[i].e == tries[j].e
    requires tries[i].from == tries[j].from && tries[i].to == tries[j].to && tries[i].to - tries[i].from <= retention
    requires Accepted(retention, perOwner, tries, i) && Accepted(retention, perOwner, tries, j)
    ensures tries[j].locked - tries[j].checked > tries[i].used - tries[i].from >= 0
    ensures InOrder(tries) ==> tries[j].used - tries[j].checked > tries[i].used - tries[i].from
  {
    hide After, AnswerTo;
    var k := SecondUseIsLate(retention, perOwner, tries, i, j);
    assert tries[k].locked <= tries[j].locked && (InOrder(tries) ==> tries[k].used <= tries[j].used);
  }

  /** The entries presented so far. */
  function Shown(tries: seq<Attempt>): set<Entry> { set i | 0 <= i < |tries| :: tries[i].e }

  lemma {:induction false} HeldWereShown(retention: Time, perOwner: nat, tries: seq<Attempt>)
    ensures var c := After(Empty(retention, perOwner), tries);
      Valid(c) && c.cur + c.prev <= Shown(tries) && c.perOwner == perOwner
    decreases |tries|
  {
    if tries == [] {
      assert forall o :: Owned({}, o) == {};
    } else {
      hide Valid, Use, Shown, Held, AnswerTo, Owned;
      var front, a := tries[..|tries| - 1], tries[|tries| - 1];
      var c := After(Empty(retention, perOwner), front);
      HeldWereShown(retention, perOwner, front);
      ShownGrows(tries);
      UseKeepsValid(c, a.e, a.used);
      TakenIff(c, a.e, a.used);
      KeepsQuota(c, a.e, a.used);
    }
  }

  lemma ShownGrows(tries: seq<Attempt>)
    requires tries != []
    ensures Shown(tries) == Shown(tries[..|tries| - 1]) + {tries[|tries| - 1].e}
  {
    var front, a := tries[..|tries| - 1], tries[|tries| - 1];
    assert a.e in Shown(tries);
    forall e | e in Shown(front) ensures e in Shown(tries) {
      var i :| 0 <= i < |front| && front[i].e == e;
      assert tries[i].e == e;
    }
    forall e | e in Shown(tries) ensures e in Shown(front) + {a.e} {
      var i :| 0 <= i < |tries| && tries[i].e == e;
      if i < |front| { assert front[i].e == e; }
    }
  }

  lemma KeepsQuota(c: Cache, e: Entry, now: Time)
    ensures Use(c, e, now).perOwner == c.perOwner && Held(c, now) <= c.cur + c.prev
  {
  }

  lemma {:induction false} SmallerSubset<T>(a: set<T>, b: set<T>)
    requires a <= b
    ensures |a| <= |b|
    decreases |b|
  {
    if x :| x in b {
      if x in a { SmallerSubset(a - {x}, b - {x}); } else { SmallerSubset(a, b - {x}); }
    }
  }

  /** In every run, a credential in order and in time that nobody has shown before is let
      in, as long as fewer than the limit were shown in all and fewer than the quota by
      its owner. */
  lemma NewCredentialAccepted(retention: Time, perOwner: nat, tries: seq<Attempt>, j: nat)
    requires j < |tries| && tries[j].sound && tries[j].from <= tries[j].checked <= tries[j].to
    requires tries[j].e !in Shown(tries[..j]) && |Shown(tries[..j])| < 100_000
    requires perOwner > 0 ==> |Owned(Shown(tries[..j]), tries[j].e.owner)| < perOwner
    ensures Accepted(retention, perOwner, tries, j)
  {
    hide Valid, AnswerTo, Owned;
    var c, a, shown := After(Empty(retention, perOwner), tries[..j]), tries[j], Shown(tries[..j]);
    HeldWereShown(retention, perOwner, tries[..j]);
    TakenIff(c, a.e, a.used);
    KeepsQuota(c, a.e, a.used);
    SmallerSubset(Held(c, a.used), shown);
    assert Owned(Held(c, a.used), a.e.owner) <= Owned(shown, a.e.owner) by {
      OwnedMonotone(Held(c, a.used), shown, a.e.owner);
    }
    SmallerSubset(Owned(Held(c, a.used), a.e.owner), Owned(shown, a.e.owner));
  }

  lemma OwnedMonotone(a: set<Entry>, b: set<Entry>, owner: string)
    requires a <= b
    ensures Owned(a, owner) <= Owned(b, owner)
  {
  }

  /** A request that reads the clock and gets the lock at one moment. */
  function At(e: Entry, from: Time, to: Time, now: Time): Attempt { Attempt(e, from, to, true, now, now, now) }

  /** Four attempts: two other entries either side of a first use of x at `at`, then x
      again, its window checked at `seen`, once both generations have gone by. */
  function Forgetting(retention: Time, span: Time, at: Time, seen: Time, x: Entry, y: Entry, z: Entry): seq<Attempt> {
    var t0, t1, t2 := at + 1 - retention, at + 1, at + 1 + retention;
    [At(y, t0, t0, t0), At(x, 0, span, at), At(z, t1, t1, t1), Attempt(x, 0, span, true, seen, t2, t2)]
  }

  /** Such a run accepts x both times, whatever the owner's quota from four up. */
  lemma ForgettingAcceptsTwice(retention: Time, span: Time, perOwner: nat, at: Time, seen: Time,
                               x: Entry, y: Entry, z: Entry)
    requires 0 < retention && x != y && x != z && y != z && (perOwner == 0 || perOwner > 3)
    requires 0 <= at <= span && 0 <= seen <= span && seen <= at + 1 + retention
    ensures var tries := Forgetting(retention, span, at, seen, x, y, z);
      && InOrder(tries) && Timely(tries)
      && Accepted(retention, perOwner, tries, 1) && Accepted(retention, perOwner, tries, 3)
  {
    hide Use, AnswerTo, After;
    var c, tries := Empty(retention, perOwner), Forgetting(retention, span, at, seen, x, y, z);
    ForgottenInTime(retention, perOwner, at, x, y, z);
    AfterNext(c, tries, 0);
    AfterNext(c, tries, 1);
    AfterNext(c, tries, 2);
  }

  /** The retention cannot be any shorter: with less, a run that reads the clock once a
      request accepts a credential twice inside its window. */
  lemma ShorterRetentionFails(retention: Time, span: Time, perOwner: nat, x: Entry, y: Entry, z: Entry)
    requires 0 < retention < span && x != y && x != z && y != z && (perOwner == 0 || perOwner > 3)
    ensures var tries := Forgetting(retention, span, 0, 1 + retention, x, y, z);
      && InOrder(tries) && Timely(tries)
      && Accepted(retention, perOwner, tries, 1) && Accepted(retention, perOwner, tries, 3)
      && forall k :: 0 <= k < |tries| ==> tries[k].checked == tries[k].used == tries[k].locked
  {
    ForgettingAcceptsTwice(retention, span, perOwner, 0, 1 + retention, x, y, z);
  }

  /** Nor can the delay between two readings be left out: one nanosecond more than the
      first use's distance from the start of the window is enough. */
  lemma DelayedRequestAcceptedTwice(retention: Time, perOwner: nat, at: Time, x: Entry, y: Entry, z: Entry)
    requires 0 <= at <= retention && 0 < retention && x != y && x != z && y != z && (perOwner == 0 || perOwner > 3)
    ensures var tries := Forgetting(retention, retention, at, retention, x, y, z);
      && InOrder(tries) && Timely(tries)
      && Accepted(retention, perOwner, tries, 1) && Accepted(retention, perOwner, tries, 3)
      && tries[3].used - tries[3].checked == (tries[1].used - tries[1].from) + 1
  {
    ForgettingAcceptsTwice(retention, retention, perOwner, at, retention, x, y, z);
  }

  /** The same run, the last rotation made by another request, and x held up on its way
      to the lock after one reading at the end of its window. */
  function HeldUp(retention: Time, at: Time, x: Entry, y: Entry, z: Entry, w: Entry): seq<Attempt> {
    var t0, t1, t2 := at + 1 - retention, at + 1, at + 1 + retention;
    [At(y, t0, t0, t0), At(x, 0, retention, at), At(z, t1, t1, t1), At(w, t2, t2, t2),
     Attempt(x, 0, retention, true, retention, retention, t2)]
  }

  /** A request that reads the clock once is accepted a second time when it is held up
      before the lock by one nanosecond more than that same distance. */
  lemma HeldUpRequestAcceptedTwice(retention: Time, perOwner: nat, at: Time, x: Entry, y: Entry, z: Entry, w: Entry)
    requires 0 <= at <= retention && 0 < retention && (perOwner == 0 || perOwner > 3)
    requires x != y && x != z && y != z && w != x && w != z
    ensures var tries := HeldUp(retention, at, x, y, z, w);
      && Timely(tries) && Accepted(retention, perOwner, tries, 1) && Accepted(retention, perOwner, tries, 4)
      && tries[4].checked == tries[4].used
      && tries[4].locked - tries[4].checked == (tries[1].used - tries[1].from) + 1
  {
    hide Use, AnswerTo, After;
    var c, tries := Empty(retention, perOwner), HeldUp(retention, at, x, y, z, w);
    ForgottenForGood(retention, perOwner, at, x, y, z, w);
    AfterNext(c, tries, 0);
    AfterNext(c, tries, 1);
    AfterNext(c, tries, 2);
    AfterNext(c, tries, 3);
  }

  lemma AfterNext(c: Cache, tries: seq<Attempt>, i: nat)
    requires i < |tries|
    ensures After(c, tries[..i + 1]) == Present(After(c, tries[..i]), tries[i]) && After(c, tries[..0]) == c
  {
    assert tries[..i + 1][..i] == tries[..i];
  }

  /** x taken at `at`, just before one rotation; z is taken at that rotation. */
  function TwoGenerations(retention: Time, perOwner: nat, at: Time, x: Entry, y: Entry, z: Entry): Cache {
    Use(Use(Use(Empty(retention, perOwner), y, at + 1 - retention), x, at), z, at + 1)
  }

  lemma TwoGenerationsHold(retention: Time, perOwner: nat, at: Time, x: Entry, y: Entry, z: Entry)
    requires 0 < retention && x != y && x != z && y != z && (perOwner == 0 || perOwner > 3)
    ensures AnswerTo(Use(Empty(retention, perOwner), y, at + 1 - retention), x, at).First?
    ensures var c := TwoGenerations(retention, perOwner, at, x, y, z);
      && c.cur == {z} && c.rotated == Some(at + 1) && c.perOwner == perOwner && c.retention == retention
      && forall o :: Count(c.curOwner, o) <= 1
  {
    hide Use, AnswerTo;
    var c0 := Empty(retention, perOwner);
    var c1 := Use(c0, y, at + 1 - retention);
    OneAfterRotation(c0, y, at + 1 - retention);
    var c2 := Use(c1, x, at);
    OneWithoutRotation(c1, x, at);
    assert c2.cur == {y, x};
    OneAfterRotation(c2, z, at + 1);
  }

  /** Taken just before one rotation, an entry is gone after the next. */
  lemma ForgottenInTime(retention: Time, perOwner: nat, at: Time, x: Entry, y: Entry, z: Entry)
    requires 0 < retention && x != y && x != z && y != z && (perOwner == 0 || perOwner > 3)
    ensures AnswerTo(Use(Empty(retention, perOwner), y, at + 1 - retention), x, at).First?
    ensures AnswerTo(TwoGenerations(retention, perOwner, at, x, y, z), x, at + 1 + retention).First?
  {
    hide TwoGenerations;
    TwoGenerationsHold(retention, perOwner, at, x, y, z);
    var c := TwoGenerations(retention, perOwner, at, x, y, z);
    assert Rotate(c, at + 1 + retention).prev == {z} && |{z}| == 1;
  }

  /** And it stays gone for a request with an older reading. */
  lemma ForgottenForGood(retention: Time, perOwner: nat, at: Time, x: Entry, y: Entry, z: Entry, w: Entry)
    requires 0 < retention && 0 <= at && (perOwner == 0 || perOwner > 3)
    requires x != y && x != z && y != z && w != x && w != z
    ensures AnswerTo(Use(Empty(retention, perOwner), y, at + 1 - retention), x, at).First?
    ensures var c := Use(TwoGenerations(retention, perOwner, at, x, y, z), w, at + 1 + retention);
      AnswerTo(c, x, retention).First?
  {
    hide TwoGenerations, Use;
    TwoGenerationsHold(retention, perOwner, at, x, y, z);
    var c3 := TwoGenerations(retention, perOwner, at, x, y, z);
    OneAfterRotation(c3, w, at + 1 + retention);
    var c4 := Use(c3, w, at + 1 + retention);
    assert !Due(c4, retention) && c4.cur == {w} && c4.prev == {z};
    assert |c4.cur| + |c4.prev| == 2;
  }

  lemma OneWithoutRotation(c: Cache, x: Entry, now: Time)
    requires !Due(c, now) && |c.cur| <= 1 && x !in c.cur && c.prev == {} && c.prevOwner == map[]
    requires (c.perOwner == 0 || c.perOwner > 3) && forall o :: Count(c.curOwner, o) <= 1
    ensures AnswerTo(c, x, now).First?
    ensures var c' := Use(c, x, now); c'.cur == c.cur + {x} && c'.rotated == c.rotated && c'.perOwner == c.perOwner
    ensures Use(c, x, now).retention == c.retention && forall o :: Count(Use(c, x, now).curOwner, o) <= 2
  {
    assert Rotate(c, now) == c;
    assert Count(c.curOwner, x.owner) <= 1 && Count(c.prevOwner, x.owner) == 0;
    var c' := Use(c, x, now);
    assert c' == Record(c, x);
    forall o ensures Count(c'.curOwner, o) <= Count(c.curOwner, o) + 1 {}
  }

  lemma OneAfterRotation(c: Cache, z: Entry, now: Time)
    requires Due(c, now) && |c.cur| <= 2 && z !in c.cur
    requires (c.perOwner == 0 || c.perOwner > 3) && Count(c.curOwner, z.owner) <= 2
    ensures var c' := Use(c, z, now);
      && c'.cur == {z} && c'.prev == c.cur && c'.rotated == Some(now) && c'.prevOwner == c.curOwner
      && c'.perOwner == c.perOwner && c'.retention == c.retention
    ensures forall o :: Count(Use(c, z, now).curOwner, o) <= 1
  {
    var r := Rotate(c, now);
    assert r.cur == {} && r.curOwner == map[] && Count(r.curOwner, z.owner) == 0;
    var c' := Use(c, z, now);
    assert c' == Record(r, z);
    forall o ensures Count(c'.curOwner, o) <= 1 {}
  }

  // ---- The credentials ----------------------------------------------------------------

  const PROOF_WINDOW: Time := MINUTE
  const MAX_JTI := 256
  const LEEWAY: Time := 30 * SECOND
  const CLIENT_QUOTA := 1000
  const DEFAULT_MAX_TTL: Time := 5 * MINUTE

  /** A DPoP proof whose signature, type, method and target are in order if `sound`. */
  datatype Proof = Proof(jkt: string, jti: string, iat: int, sound: bool)

  /** A request with a proof: it reads the clock once, before it gets the lock. */
  datatype Proved = Proved(p: Proof, now: Time, locked: Time)

  /** A proof key's thumbprint is base64url, so it has no separator in it. */
  function ProofAttempt(r: Proved): Attempt {
    var p := r.p;
    Attempt(Entry("", p.jkt + "|" + p.jti), p.iat * SECOND - PROOF_WINDOW, p.iat * SECOND + PROOF_WINDOW,
            p.sound && 0 < |p.jti| <= MAX_JTI, r.now, r.now, r.locked)
  }

  function ProofAttempts(rs: seq<Proved>): seq<Attempt> {
    seq(|rs|, k requires 0 <= k < |rs| => ProofAttempt(rs[k]))
  }

  /** With a clock that does not go back, a DPoP proof is accepted a second time, over
      the whole time it can be presented, only by a request held up on its way to the
      lock by more than the first one's distance from the start of the window: never if
      the readings reach the cache in order. */
  lemma ProofAcceptedOnce(rs: seq<Proved>, i: nat, j: nat)
    requires Timely(ProofAttempts(rs)) && i < j < |rs| && rs[i].p == rs[j].p
    requires Accepted(2 * PROOF_WINDOW, 0, ProofAttempts(rs), i) && Accepted(2 * PROOF_WINDOW, 0, ProofAttempts(rs), j)
    ensures rs[j].locked - rs[j].now > rs[i].now - (rs[i].p.iat * SECOND - PROOF_WINDOW) >= 0
    ensures !InOrder(ProofAttempts(rs))
  {
    hide Accepted, InOrder, Timely;
    AcceptedOnce(2 * PROOF_WINDOW, 0, ProofAttempts(rs), i, j);
  }

  /** Two proofs are one entry of the cache exactly when key and id are both the same. */
  lemma SameEntryIff(r: Proved, q: Proved)
    requires '|' !in r.p.jkt && '|' !in q.p.jkt
    ensures ProofAttempt(r).e == ProofAttempt(q).e <==> r.p.jkt == q.p.jkt && r.p.jti == q.p.jti
  {
    var a, b := r.p.jkt + "|" + r.p.jti, q.p.jkt + "|" + q.p.jti;
    assert a[|r.p.jkt|] == '|' && b[|q.p.jkt|] == '|';
    assert a[..|r.p.jkt|] == r.p.jkt && b[..|q.p.jkt|] == q.p.jkt;
    assert a[|r.p.jkt| + 1..] == r.p.jti && b[|q.p.jkt| + 1..] == q.p.jti;
  }

  /** A proof in order, issued within a minute of the server's clock, with an id of 1 to
      256 bytes not shown under its key before, is accepted while there is room; and no
      proof outside those bounds ever is. */
  lemma NewProofAccepted(rs: seq<Proved>, j: nat)
    requires j < |rs| && forall i :: 0 <= i < |rs| ==> '|' !in rs[i].p.jkt
    ensures var p, late := rs[j].p, rs[j].now - rs[j].p.iat * SECOND;
      var good := p.sound && 1 <= |p.jti| <= 256 && -60 * SECOND <= late <= 60 * SECOND;
      && (Accepted(2 * PROOF_WINDOW, 0, ProofAttempts(rs), j) ==> good)
      && (good && j < 100_000 && (forall i :: 0 <= i < j ==> rs[i].p.jkt != p.jkt || rs[i].p.jti != p.jti) ==>
            Accepted(2 * PROOF_WINDOW, 0, ProofAttempts(rs), j))
  {
    hide After, AnswerTo;
    var tries := ProofAttempts(rs);
    if (forall i :: 0 <= i < j ==> rs[i].p.jkt != rs[j].p.jkt || rs[i].p.jti != rs[j].p.jti) && j < 100_000 {
      forall i | 0 <= i < j ensures tries[i].e != tries[j].e { SameEntryIff(rs[i], rs[j]); }
      FewShown(tries[..j]);
      if Reaches(tries[j]) { NewCredentialAccepted(2 * PROOF_WINDOW, 0, tries, j); }
    }
  }

  lemma {:induction false} FewShown(tries: seq<Attempt>)
    ensures |Shown(tries)| <= |tries|
  {
    if tries == [] { assert Shown(tries) == {}; } else {
      var front := tries[..|tries| - 1];
      FewShown(front);
      ShownGrows(tries);
    }
  }

  /** A client assertion, its times in whole seconds; `sound` covers its signature,
      audience and the claims it must not carry. */
  datatype Assertion = Assertion(client: string, jti: string, iat: int, exp: int, sound: bool)

  function MaxTTL(configured: Time): Time { if configured <= 0 then DEFAULT_MAX_TTL else configured }

  function AssertionRetention(configured: Time): Time { MaxTTL(configured) + MINUTE }

  /** A request with an assertion: it is validated at one reading of the clock and
      recorded at a later one. */
  datatype Presented = Presented(a: Assertion, checked: Time, used: Time, locked: Time)

  function AssertionAttempt(configured: Time, p: Presented): Attempt {
    var a := p.a;
    Attempt(Entry(a.client, a.jti), a.iat * SECOND - LEEWAY, a.exp * SECOND + LEEWAY,
            a.sound && 0 < |a.jti| <= MAX_JTI && (a.exp - a.iat) * SECOND <= MaxTTL(configured),
            p.checked, p.used, p.locked)
  }

  function Attempts(configured: Time, ps: seq<Presented>): seq<Attempt> {
    seq(|ps|, k requires 0 <= k < |ps| => AssertionAttempt(configured, ps[k]))
  }

  /** A client assertion, whatever lifetime the operator allows, is accepted a second
      time only by a request held up between the check of its window and the lock by
      more than the first one's distance from the start of the window; if the readings
      reach the cache in order, between its two readings. */
  lemma AssertionAcceptedOnce(configured: Time, ps: seq<Presented>, i: nat, j: nat)
    requires Timely(Attempts(configured, ps)) && i < j < |ps| && ps[i].a == ps[j].a
    requires var tries, r := Attempts(configured, ps), AssertionRetention(configured);
      Accepted(r, CLIENT_QUOTA, tries, i) && Accepted(r, CLIENT_QUOTA, tries, j)
    ensures ps[j].locked - ps[j].checked > ps[i].used - (ps[i].a.iat * SECOND - LEEWAY) >= 0
    ensures InOrder(Attempts(configured, ps)) ==>
      ps[j].used - ps[j].checked > ps[i].used - (ps[i].a.iat * SECOND - LEEWAY)
  {
    var tries, r := Attempts(configured, ps), AssertionRetention(configured);
    assert tries[i].sound;
    hide Accepted, InOrder, Timely;
    AcceptedOnce(r, CLIENT_QUOTA, tries, i, j);
  }

  /** An assertion in order, no longer lived than the operator allows, presented within
      its life give or take half a minute, with an id of 1 to 256 bytes its client has not
      shown before, is accepted while client and cache have room; none outside those
      bounds ever is. */
  lemma NewAssertionAccepted(configured: Time, ps: seq<Presented>, j: nat)
    requires j < |ps|
    ensures var a, at := ps[j].a, ps[j].checked;
      var tries, r := Attempts(configured, ps), AssertionRetention(configured);
      var good := && a.sound && 1 <= |a.jti| <= 256
                  && (a.exp - a.iat) * SECOND <= (if configured > 0 then configured else 300 * SECOND)
                  && a.iat * SECOND - 30 * SECOND <= at <= a.exp * SECOND + 30 * SECOND;
      && (Accepted(r, CLIENT_QUOTA, tries, j) ==> good)
      && (good && j < 100_000 && (forall i :: 0 <= i < j ==> ps[i].a.client != a.client || ps[i].a.jti != a.jti)
          && |Owned(Shown(tries[..j]), a.client)| < 1000 ==>
            Accepted(r, CLIENT_QUOTA, tries, j))
  {
    hide After, AnswerTo, Owned;
    var tries, r := Attempts(configured, ps), AssertionRetention(configured);
    var a := ps[j].a;
    if (forall i :: 0 <= i < j ==> ps[i].a.client != a.client || ps[i].a.jti != a.jti) && j < 100_000
       && |Owned(Shown(tries[..j]), a.client)| < 1000 {
      forall i | 0 <= i < j ensures tries[i].e != tries[j].e {}
      FewShown(tries[..j]);
      if Reaches(tries[j]) { NewCredentialAccepted(r, CLIENT_QUOTA, tries, j); }
    }
  }

  // ---- The cache as an object ------------------------------------------------------------

  class Store {
    const retention: Time
    const perOwner: nat
    var cur: set<Entry>
    var prev: set<Entry>
    var rotated: Option<Time>
    var curOwner: map<string, nat>
    var prevOwner: map<string, nat>

    ghost function View(): Cache
      reads this
    {
      Cache(retention, perOwner, cur, prev, rotated, curOwner, prevOwner)
    }

    constructor (retention: Time, perOwner: nat)
      ensures View() == Empty(retention, perOwner) && Valid(View())
    {
      this.retention, this.perOwner := retention, perOwner;
      cur, prev, rotated, curOwner, prevOwner := {}, {}, None, map[], map[];
      new;
      assert forall o :: Owned({}, o) == {};
    }

    method RotateIfDue(now: Time)
      modifies this
      ensures View() == Rotate(old(View()), now)
    {
      if rotated.None? || now - rotated.value >= retention {
        prev, cur, rotated := cur, {}, Some(now);
        prevOwner, curOwner := curOwner, map[];
      }
    }

    /** `firstUseBy`. */
    method FirstUseBy(owner: string, key: string, now: Time) returns (answer: Answer)
      requires Valid(View())
      modifies this
      ensures View() == Use(old(View()), Entry(owner, key), now)
      ensures answer == AnswerTo(old(View()), Entry(owner, key), now)
      ensures answer.Seen? <==> Entry(owner, key) in Held(old(View()), now)
      ensures answer.First? <==>
        && Entry(owner, key) !in Held(old(View()), now) && |Held(old(View()), now)| < 100_000
        && (perOwner > 0 ==> |Owned(Held(old(View()), now), owner)| < perOwner)
      ensures cur + prev == Held(old(View()), now) + (if answer.First? then {Entry(owner, key)} else {})
      ensures Valid(View())
    {
      hide Valid, Rotate, Count, Held, Owned;
      var e := Entry(owner, key);
      TakenIff(View(), e, now);
      UseKeepsValid(View(), e, now);
      RotateIfDue(now);
      if e in cur { return Seen; }
      if e in prev { return Seen; }
      if perOwner > 0 && Count(curOwner, owner) + Count(prevOwner, owner) >= perOwner { return OverQuota; }
      if |cur| + |prev| >= MAX_ENTRIES { return Full; }
      cur := cur + {e};
      if perOwner > 0 { curOwner := curOwner[owner := Count(curOwner, owner) + 1]; }
      return First;
    }
  }
}
