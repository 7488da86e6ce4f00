/** The audit chain's append-once table: a key commits together with its row,
    a resend under the same key is ignored, another row under a used key
    leaves a conflict row, and keys are forgotten after thirty days. */
module AuditChain {
  import opened Decisions

  datatype Key = DecisionKey(id: string) | LossKey(lossID: string)

  datatype Row =
    | DecisionRow(decision: Decision, revision: string)
    | LossRow(ids: seq<string>, digests: seq<Digest>, lossID: string, revision: string)
    | ConflictRow(key: Key, recorded: Row, resent: Row)

  datatype Stamped = Stamped(row: Row, at: Time)

  /** The rows, the key table, when the running process last tried to prune it, when a
      pruning last went through, and whether the store deletes rows at present. */
  datatype Chain = Chain(
    rows: seq<Stamped>,
    once: map<Key, Stamped>,
    triedAt: Option<Time>,
    prunedAt: Option<Time>,
    deletes: bool)

  const ONCE_RETENTION: Time := 30 * DAY

  const EMPTY_CHAIN := Chain([], map[], None, None, true)

  predicate Keyed(r: Row) { !r.ConflictRow? }

  function KeyOf(r: Row): Key
    requires Keyed(r)
  {
    if r.DecisionRow? then DecisionKey(r.decision.id) else LossKey(r.lossID)
  }

  function Pruned(once: map<Key, Stamped>, now: Time): map<Key, Stamped> {
    map k | k in once && once[k].at >= now - ONCE_RETENTION :: once[k]
  }

  /** The housekeeping after an append, at most hourly: a deletion that fails is only
      logged. */
  function Housekept(c: Chain, now: Time): (c': Chain)
    ensures c'.rows == c.rows && c'.once.Keys <= c.once.Keys
  {
    if c.triedAt.Some? && now - c.triedAt.value <= HOUR then c
    else if !c.deletes then c.(triedAt := Some(now))
    else c.(once := Pruned(c.once, now), triedAt := Some(now), prunedAt := Some(now))
  }

  /** Housekeeping more than an hour after the last try, with deletions working, leaves
      exactly the keys of the last thirty days; within the hour it leaves the table alone. */
  lemma HousekeepingForgets(c: Chain, now: Time, k: Key)
    ensures c.deletes && (c.triedAt.Some? ==> now - c.triedAt.value > 3600 * SECOND) ==>
      (k in Housekept(c, now).once <==> k in c.once && now - c.once[k].at <= 30 * 24 * 3600 * SECOND)
    ensures !c.deletes || (c.triedAt.Some? && now - c.triedAt.value <= 3600 * SECOND) ==>
      Housekept(c, now).once == c.once
    ensures k in Housekept(c, now).once ==> Housekept(c, now).once[k] == c.once[k]
  {
  }

  function Appended(c: Chain, r: Row, now: Time): Chain
    requires Keyed(r)
  {
    Housekept(c.(rows := c.rows + [Stamped(r, now)], once := c.once[KeyOf(r) := Stamped(r, now)]), now)
  }

  function AppendOnce(c: Chain, r: Row, now: Time): Chain
    requires Keyed(r)
  {
    var k := KeyOf(r);
    if k !in c.once then Appended(c, r, now)
    else if c.once[k].row == r then c
    else c.(rows := c.rows + [Stamped(ConflictRow(k, c.once[k].row, r), now)])
  }

  /** The rows of a chain, order and time forgotten. */
  function Contents(rows: seq<Stamped>): set<Row> {
    if rows == [] then {} else Contents(rows[..|rows| - 1]) + {rows[|rows| - 1].row}
  }

  predicate Recorded(c: Chain, r: Row) { r in Contents(c.rows) }

  lemma {:induction false} ContentsAt(rows: seq<Stamped>, i: nat)
    requires i < |rows|
    ensures rows[i].row in Contents(rows)
  {
    if i < |rows| - 1 { ContentsAt(rows[..|rows| - 1], i); }
  }

  lemma ContentsAppend(rows: seq<Stamped>, x: Stamped)
    ensures Contents(rows + [x]) == Contents(rows) + {x.row}
  {
  }

  lemma {:induction false} ContentsPrefix(rows: seq<Stamped>, more: seq<Stamped>)
    requires rows <= more
    ensures Contents(rows) <= Contents(more)
  {
    if rows == more { return; }
    ContentsPrefix(rows, more[..|more| - 1]);
  }

  /** Every key the table holds points at a row that is in the chain, under its own key. */
  ghost predicate OnceValid(c: Chain) {
    forall k :: k in c.once ==> Keyed(c.once[k].row) && KeyOf(c.once[k].row) == k && Recorded(c, c.once[k].row)
  }

  /** A row leaves the table only once the clock has passed it by the retention. */
  ghost predicate Remembers(c: Chain, clock: Time) {
    && (forall i :: 0 <= i < |c.rows| ==> c.rows[i].at <= clock)
    && (forall i :: 0 <= i < |c.rows| && Keyed(c.rows[i].row) ==>
          || (KeyOf(c.rows[i].row) in c.once && c.once[KeyOf(c.rows[i].row)].at >= c.rows[i].at)
          || c.rows[i].at < clock - ONCE_RETENTION)
  }

  /** Two rows under one key are more than the retention apart. */
  ghost predicate OncePerRetention(c: Chain) {
    forall i, j | 0 <= i < j < |c.rows| && Keyed(c.rows[i].row) && Keyed(c.rows[j].row) ::
      KeyOf(c.rows[i].row) == KeyOf(c.rows[j].row) ==> c.rows[j].at - c.rows[i].at > ONCE_RETENTION
  }

  /** An append adds at most one row to the chain. */
  lemma AppendContents(c: Chain, r: Row, now: Time)
    requires Keyed(r)
    ensures var c' := AppendOnce(c, r, now);
      && c.rows <= c'.rows && Contents(c.rows) <= Contents(c'.rows)
      && (KeyOf(r) !in c.once ==>
            c'.rows == c.rows + [Stamped(r, now)] && Contents(c'.rows) == Contents(c.rows) + {r})
  {
    hide Housekept;
    ContentsAppend(c.rows, Stamped(r, now));
    if KeyOf(r) in c.once { ContentsAppend(c.rows, Stamped(ConflictRow(KeyOf(r), c.once[KeyOf(r)].row, r), now)); }
  }

  /** After an append the row is in the chain, unless its key already named another row. */
  lemma AppendRecords(c: Chain, r: Row, now: Time)
    requires Keyed(r) && OnceValid(c)
    ensures OnceValid(AppendOnce(c, r, now))
    ensures Recorded(AppendOnce(c, r, now), r) || (KeyOf(r) in c.once && c.once[KeyOf(r)].row != r)
  {
  }

  lemma HousekeepingRemembers(c: Chain, now: Time, clock: Time)
    requires Remembers(c, clock) && clock <= now
    ensures Remembers(Housekept(c, now), now)
  {
  }

  /** Nothing leaves the table before its time, and nothing under a key it holds is
      appended again. */
  lemma AppendRemembers(c: Chain, r: Row, now: Time, clock: Time)
    requires Keyed(r) && Remembers(c, clock) && clock <= now && OncePerRetention(c)
    ensures Remembers(AppendOnce(c, r, now), now)
    ensures OncePerRetention(AppendOnce(c, r, now))
  {
    hide Housekept;
    if KeyOf(r) !in c.once {
      hide KeyOf;
      var next := c.(rows := c.rows + [Stamped(r, now)], once := c.once[KeyOf(r) := Stamped(r, now)]);
      HousekeepingRemembers(next, now, now);
    }
  }

  // ---- What the table forgets ------------------------------------------------

  /** No later row has the key of row i. */
  ghost predicate LastOfKey(rows: seq<Stamped>, i: int) {
    && 0 <= i < |rows| && Keyed(rows[i].row)
    && forall j :: i < j < |rows| && Keyed(rows[j].row) ==> KeyOf(rows[j].row) != KeyOf(rows[i].row)
  }

  /** The last pruning that went through went past this time. */
  predicate Forgotten(c: Chain, at: Time) { c.prunedAt.Some? && at < c.prunedAt.value - ONCE_RETENTION }

  /** The table holds the last row of each key, until a pruning goes past it. */
  ghost predicate TableExact(c: Chain, clock: Time) {
    && (c.prunedAt.Some? ==> c.prunedAt.value <= clock)
    && forall i :: LastOfKey(c.rows, i) ==>
         var k := KeyOf(c.rows[i].row);
         (k in c.once <==> !Forgotten(c, c.rows[i].at)) && (k in c.once ==> c.once[k] == c.rows[i])
  }

  /** The control plane restarts, and forgets when it last pruned; or the store starts
      or stops deleting rows. Neither touches rows, table or what was pruned. */
  predicate SameTable(c: Chain, c': Chain) { c'.rows == c.rows && c'.once == c.once && c'.prunedAt == c.prunedAt }

  lemma SameTableKeeps(c: Chain, c': Chain, clock: Time)
    requires SameTable(c, c') && OnceValid(c) && Remembers(c, clock) && OncePerRetention(c) && TableExact(c, clock)
    ensures OnceValid(c') && Remembers(c', clock) && OncePerRetention(c') && TableExact(c', clock)
  {
  }

  /** An append by another agent: no row of this one, but its housekeeping. */
  lemma HousekeepingKeeps(c: Chain, now: Time, clock: Time)
    requires OnceValid(c) && Remembers(c, clock) && OncePerRetention(c) && TableExact(c, clock) && clock <= now
    ensures var c' := Housekept(c, now);
      OnceValid(c') && Remembers(c', now) && OncePerRetention(c') && TableExact(c', now) && c'.rows == c.rows
  {
  }

  lemma AppendKeepsTable(c: Chain, r: Row, now: Time, clock: Time)
    requires Keyed(r) && TableExact(c, clock) && clock <= now
    ensures TableExact(AppendOnce(c, r, now), now)
  {
    hide Housekept, Forgotten;
    var k := KeyOf(r);
    if k !in c.once {
      var next := c.(rows := c.rows + [Stamped(r, now)], once := c.once[k := Stamped(r, now)]);
      CommitKeepsTable(c, r, now, clock);
      HousekeepingKeepsTable(next, now, now);
    } else if c.once[k].row != r {
      UnkeyedKeepsLast(c.rows, Stamped(ConflictRow(k, c.once[k].row, r), now));
      SamePruning(c, AppendOnce(c, r, now));
    }
  }

  lemma SamePruning(c: Chain, c': Chain)
    requires c'.prunedAt == c.prunedAt
    ensures forall at :: Forgotten(c', at) <==> Forgotten(c, at)
  {
  }

  lemma UnkeyedKeepsLast(rows: seq<Stamped>, x: Stamped)
    requires !Keyed(x.row)
    ensures forall i :: LastOfKey(rows + [x], i) <==> LastOfKey(rows, i)
  {
    var more := rows + [x];
    forall i ensures LastOfKey(more, i) <==> LastOfKey(rows, i) {
      assert forall j :: 0 <= j < |rows| ==> more[j] == rows[j];
    }
  }

  lemma CommitKeepsTable(c: Chain, r: Row, now: Time, clock: Time)
    requires Keyed(r) && TableExact(c, clock) && clock <= now && KeyOf(r) !in c.once
    ensures TableExact(c.(rows := c.rows + [Stamped(r, now)], once := c.once[KeyOf(r) := Stamped(r, now)]), now)
  {
    var rows := c.rows + [Stamped(r, now)];
    forall i | LastOfKey(rows, i) && i < |c.rows|
      ensures LastOfKey(c.rows, i) && KeyOf(rows[i].row) != KeyOf(r)
    {
      assert rows[|c.rows|].row == r && forall j :: 0 <= j < |c.rows| ==> rows[j] == c.rows[j];
    }
  }

  lemma HousekeepingKeepsTable(c: Chain, now: Time, clock: Time)
    requires TableExact(c, clock) && clock <= now
    ensures TableExact(Housekept(c, now), now)
  {
  }

  /** A row sent again, at any time, to any such chain: it is recorded a second time
      exactly when the last pruning that went through went more than the retention past
      it, and is ignored otherwise. */
  lemma ResendRecordsTwiceIff(c: Chain, clock: Time, i: nat, now: Time)
    requires TableExact(c, clock) && LastOfKey(c.rows, i)
    ensures var c', x := AppendOnce(c, c.rows[i].row, now), c.rows[i];
      && (c'.rows == c.rows + [Stamped(x.row, now)] <==> Forgotten(c, x.at))
      && (c' == c <==> !Forgotten(c, x.at))
  {
    assert |c.rows + [Stamped(c.rows[i].row, now)]| != |c.rows|;
  }
}
