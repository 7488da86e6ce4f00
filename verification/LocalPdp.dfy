/** The node agent's decision queue: taking a buffer slot, spooling, building a
    batch, and what each reply of the control plane does to the queue. `Agent`
    is the state the agent's mutex guards; `Pdp` is the object that holds it. */
module LocalPdp {
  import opened Decisions

  const MAX_DROP_STREAK := 3
  const MAX_DROPS_PER_HOUR := 10

  datatype Config = Config(maxAge: Time, bufferSize: nat)

  datatype Agent = Agent(
    pending: seq<Queued>,
    reserved: nat,
    droppedIDs: seq<string>,
    droppedDigests: seq<Digest>,
    lossID: string,
    dropStreak: nat,
    dropTimes: seq<Time>,
    batchCap: nat,
    removed: nat,
    synced: Option<Time>)

  const FRESH := Agent([], 0, [], [], "", 0, [], 0, 0, None)

  // ---- Evaluation -------------------------------------------------------

  datatype Admission = Admitted | NotSynced | BufferFull

  /** An evaluation is admitted exactly while the policy is fresh and a slot is free. */
  function Admit(cfg: Config, a: Agent, now: Time): (r: Admission)
    ensures r == NotSynced <==> a.synced.None? || now > a.synced.value + cfg.maxAge
    ensures r == Admitted ==> |a.pending| + a.reserved + 1 <= cfg.bufferSize
  {
    if a.synced.None? || now - a.synced.value > cfg.maxAge then NotSynced
    else if |a.pending| + a.reserved >= cfg.bufferSize then BufferFull
    else Admitted
  }

  function Reserve(a: Agent): Agent { a.(reserved := a.reserved + 1) }

  function Release(a: Agent): Agent
    requires a.reserved > 0
  {
    a.(reserved := a.reserved - 1)
  }

  function Enqueue(a: Agent, q: Queued): Agent
    requires a.reserved > 0
  {
    a.(pending := a.pending + [q], reserved := a.reserved - 1)
  }

  // ---- Batches ----------------------------------------------------------

  function Limit(a: Agent): nat { if a.batchCap > 0 then a.batchCap else MAX_BATCH_DECISIONS }

  /** How many entries go out together: the longest prefix of one revision that
      respects the count limit and, past its first entry, the byte limit. */
  ghost predicate IsBatchLength(p: seq<Queued>, limit: nat, n: nat) {
    && n <= |p| && n <= limit
    && (forall i :: 0 <= i < n ==> p[i].revision == p[0].revision)
    && (n > 1 ==> Bytes(p[..n]) <= MAX_BATCH_BYTES)
    && (n < |p| && n < limit && p[n].revision == p[0].revision ==> n > 0 && Bytes(p[..n + 1]) > MAX_BATCH_BYTES)
  }

  function Extend(p: seq<Queued>, limit: nat, n: nat): nat
    requires n <= |p|
    decreases |p| - n
  {
    if n < |p| && n < limit && p[n].revision == p[0].revision
       && (n == 0 || Bytes(p[..n]) + p[n].raw.rawLen + 1 <= MAX_BATCH_BYTES)
    then Extend(p, limit, n + 1) else n
  }

  lemma {:induction false} ExtendIsBatchLength(p: seq<Queued>, limit: nat, n: nat)
    requires n <= |p| && n <= limit
    requires forall i :: 0 <= i < n ==> p[i].revision == p[0].revision
    requires n > 1 ==> Bytes(p[..n]) <= MAX_BATCH_BYTES
    ensures n <= Extend(p, limit, n) && IsBatchLength(p, limit, Extend(p, limit, n))
    decreases |p| - n
  {
    if n < |p| && n < limit && p[n].revision == p[0].revision {
      assert p[..n + 1][..n] == p[..n];
      if n == 0 || Bytes(p[..n]) + p[n].raw.rawLen + 1 <= MAX_BATCH_BYTES { ExtendIsBatchLength(p, limit, n + 1); }
    }
  }

  /** Decisions in the next batch: none while a loss report waits. */
  function BatchLen(a: Agent): nat {
    if a.droppedIDs != [] then 0 else Extend(a.pending, Limit(a), 0)
  }

  function NextBatch(a: Agent): (b: Batch)
  {
    assert BatchLen(a) <= |a.pending| by { ExtendIsBatchLength(a.pending, Limit(a), 0); }
    Batch(if a.pending == [] then "" else a.pending[0].revision,
          Raws(a.pending[..BatchLen(a)]),
          |a.droppedIDs|, a.droppedIDs, a.droppedDigests,
          if a.droppedIDs == [] then "" else a.lossID)
  }

  /** A batch to send is one revision's non-empty prefix of the queue within
      the limits, or a loss report on its own. */
  lemma BatchShape(a: Agent)
    requires a.pending != [] || a.droppedIDs != []
    ensures var n, b := BatchLen(a), NextBatch(a);
      && n <= |a.pending| && b.decisions == Raws(a.pending[..n])
      && (a.droppedIDs == [] ==>
            && 0 < n <= Limit(a) && b.dropped == 0 && IsBatchLength(a.pending, Limit(a), n)
            && (forall i :: 0 <= i < n ==> a.pending[i].revision == b.revision)
            && (n > 1 ==> DecisionBytes(b.decisions) <= MAX_BATCH_BYTES))
      && (a.droppedIDs != [] ==>
            && n == 0 && b.decisions == [] && b.dropped == |a.droppedIDs| > 0
            && b.droppedIDs == a.droppedIDs && b.droppedDigests == a.droppedDigests && b.lossID == a.lossID)
  {
    ExtendIsBatchLength(a.pending, Limit(a), 0);
    RawsBytes(a.pending[..BatchLen(a)]);
  }

  // ---- Replies ----------------------------------------------------------

  /** What a round trip comes to: no reply at all, or a reply. */
  datatype Outcome = Lost | Answered(reply: Reply)

  datatype Verdict = Continue | Stop

  function RecentDrops(times: seq<Time>, now: Time): seq<Time> {
    if times == [] then []
    else RecentDrops(times[..|times| - 1], now) + (if times[|times| - 1] > now - HOUR then [times[|times| - 1]] else [])
  }

  /** Each drop is judged on its own, by whether it is less than an hour old, and the
      order stays. */
  lemma {:induction false} RecentDropsExact(a: seq<Time>, b: seq<Time>, t: Time, now: Time)
    ensures RecentDrops([t], now) == if now - t < HOUR then [t] else []
    ensures RecentDrops(a + b, now) == RecentDrops(a, now) + RecentDrops(b, now)
    decreases |b|
  {
    assert [t][..0] == [];
    if b == [] { assert a + b == a; } else {
      RecentDropsExact(a, b[..|b| - 1], t, now);
      assert (a + b)[..|a + b| - 1] == a + b[..|b| - 1];
    }
  }

  predicate Partial(r: Reply, n: nat) { 0 < r.recorded < n }

  function DropPrefix(a: Agent, n: nat): Agent
    requires n <= |a.pending|
  {
    a.(pending := a.pending[n..], removed := a.removed + n)
  }

  /** The queue after a refused batch of n decisions: first the part the control
      plane says it recorded leaves. */
  function AfterPartial(a: Agent, r: Reply, n: nat): Agent
    requires n <= |a.pending|
  {
    if r.parsed && Partial(r, n) then DropPrefix(a, r.recorded) else a
  }

  predicate Rejection(r: Reply, n: nat) { (r.status == BAD_REQUEST || r.status == TOO_LARGE) && n > 0 }

  function Left(r: Reply, n: nat): nat { if Partial(r, n) then n - r.recorded else n }

  function PruneDrops(a: Agent, now: Time): Agent { a.(dropTimes := RecentDrops(a.dropTimes, now)) }

  /** The rejected decision is alone: discard it and remember to report it. */
  function DropHead(a: Agent, now: Time, lossID: string): Agent
    requires a.pending != []
  {
    a.(lossID := if a.lossID == "" then lossID else a.lossID,
       droppedIDs := a.droppedIDs + [a.pending[0].id],
       droppedDigests := a.droppedDigests + [Sha256(a.pending[0].raw)],
       dropTimes := a.dropTimes + [now],
       pending := a.pending[1..],
       removed := a.removed + 1,
       dropStreak := a.dropStreak + 1,
       batchCap := 0)
  }

  /** Discard the rejected decision unless too many went before it. */
  function DropOrStop(a: Agent, t1: Time, t2: Time, lossID: string): (Agent, Verdict)
    requires a.pending != []
  {
    if a.dropStreak >= MAX_DROP_STREAK then (a, Stop)
    else if |RecentDrops(a.dropTimes, t1)| >= MAX_DROPS_PER_HOUR then (PruneDrops(a, t1), Stop)
    else (DropHead(PruneDrops(a, t1), t2, lossID), Continue)
  }

  /** A batch of n decisions was refused as sent. Two clock readings: the one
      that counts recent drops and the one that stamps a new drop. */
  function AfterRejection(a: Agent, r: Reply, n: nat, t1: Time, t2: Time, lossID: string): (Agent, Verdict)
    requires 0 < n <= |a.pending|
  {
    var b := AfterPartial(a, r, n);
    if Left(r, n) > 1 then (b.(batchCap := (Left(r, n) + 1) / 2), Continue)
    else DropOrStop(b, t1, t2, lossID)
  }

  /** A batch of n decisions and the first m pending loss entries were taken. */
  function AfterAccepted(a: Agent, n: nat, m: nat): Agent
    requires n <= |a.pending| && m <= |a.droppedIDs| && m <= |a.droppedDigests|
  {
    var b := DropPrefix(a, n);
    var c := if m == 0 then b
             else b.(droppedIDs := b.droppedIDs[m..], droppedDigests := b.droppedDigests[m..],
                     lossID := if |b.droppedIDs| == m then "" else b.lossID);
    c.(dropStreak := if n > 0 then 0 else c.dropStreak, batchCap := 0)
  }

  /** One turn of the flush loop, after a batch of n decisions and m loss entries
      went out. The queue may have grown behind them meanwhile. */
  function AfterOutcome(a: Agent, n: nat, m: nat, o: Outcome, t1: Time, t2: Time, lossID: string): (Agent, Verdict)
    requires n <= |a.pending| && m <= |a.droppedIDs| && m <= |a.droppedDigests|
  {
    match o
    case Lost => (a, Stop)
    case Answered(r) =>
      if r.status == OK then (AfterAccepted(a, n, m), Continue)
      else if Rejection(r, n) then AfterRejection(a, r, n, t1, t2, lossID)
      else (AfterPartial(a, r, n), Stop)
  }

  /** What a refusal as sent leads to: what was recorded leaves; of two or more left at
      most half, rounded up, go out next; one alone is dropped if the limits allow and
      the flush ends otherwise. Nothing else leaves the queue. */
  lemma RefusedAsSent(a: Agent, n: nat, m: nat, r: Reply, t1: Time, t2: Time, lossID: string)
    requires 0 < n <= |a.pending| && m <= |a.droppedIDs|
    requires m <= |a.droppedDigests| && (r.status == 400 || r.status == 413)
    requires r.parsed || r.recorded == 0
    ensures var (b, v) := AfterOutcome(a, n, m, Answered(r), t1, t2, lossID);
      var k := if 0 < r.recorded < n then r.recorded else 0;
      && b.removed - a.removed == |a.pending| - |b.pending|
      && (n - k > 1 ==>
            v == Continue && b.pending == a.pending[k..] && 2 * Limit(b) - (n - k) in {0, 1} && Limit(b) < n - k)
      && (n - k == 1 ==>
            if a.dropStreak < 3 && |RecentDrops(a.dropTimes, t1)| < 10
            then v == Continue && b.pending == a.pending[k + 1..] && b.droppedIDs == a.droppedIDs + [a.pending[k].id]
              && b.droppedDigests == a.droppedDigests + [Sha256(a.pending[k].raw)] && b.dropStreak == a.dropStreak + 1
              && b.lossID == (if a.lossID == "" then lossID else a.lossID)
              && b.dropTimes == RecentDrops(a.dropTimes, t1) + [t2]
            else v == Stop && b.pending == a.pending[k..] && b.droppedIDs == a.droppedIDs)
  {
  }

  /** Any other failure keeps the queue but for what was recorded, and ends the flush. */
  lemma RefusedOtherwise(a: Agent, n: nat, m: nat, o: Outcome, t1: Time, t2: Time, lossID: string)
    requires n <= |a.pending| && m <= |a.droppedIDs| && m <= |a.droppedDigests|
    requires o.Answered? ==> o.reply.status != 200 && (n == 0 || (o.reply.status != 400 && o.reply.status != 413))
    ensures var (b, v) := AfterOutcome(a, n, m, o, t1, t2, lossID);
      var k := if o.Answered? && o.reply.parsed && 0 < o.reply.recorded < n then o.reply.recorded else 0;
      v == Stop && b == a.(pending := a.pending[k..], removed := a.removed + k)
  {
  }

  /** An accepted batch leaves, its loss entries leave the report, and the limits reset. */
  lemma AcceptedLeaves(a: Agent, n: nat, m: nat, r: Reply, t1: Time, t2: Time, lossID: string)
    requires n <= |a.pending| && m <= |a.droppedIDs| && m <= |a.droppedDigests| && r.status == 200
    ensures var (b, v) := AfterOutcome(a, n, m, Answered(r), t1, t2, lossID);
      && v == Continue && b.pending == a.pending[n..] && b.removed == a.removed + n && Limit(b) == 1000
      && b.droppedIDs == a.droppedIDs[m..] && b.droppedDigests == a.droppedDigests[m..] && b.dropTimes == a.dropTimes
      && (n > 0 ==> b.dropStreak == 0) && (n == 0 ==> b.dropStreak == a.dropStreak)
      && b.lossID == if m > 0 && m == |a.droppedIDs| then "" else a.lossID
  {
  }

  /** What is left is the end of the queue, and `removed` has counted the rest. */
  predicate Follows(a: Agent, b: Agent) {
    && |b.pending| <= |a.pending| && b.pending == a.pending[|a.pending| - |b.pending|..]
    && b.removed - a.removed == |a.pending| - |b.pending|
  }

  lemma FollowsTrans(a: Agent, b: Agent, c: Agent)
    requires Follows(a, b) && Follows(b, c)
    ensures Follows(a, c)
  {
  }

  lemma DropFollows(a: Agent, t1: Time, t2: Time, lossID: string)
    requires a.pending != []
    ensures Follows(a, DropOrStop(a, t1, t2, lossID).0)
  {
    hide RecentDrops;
  }

  lemma PartialFollows(a: Agent, r: Reply, n: nat)
    requires n <= |a.pending|
    ensures Follows(a, AfterPartial(a, r, n))
  {
  }

  /** Whatever the outcome, the count of removed decisions follows the queue. */
  lemma RemovedFollowsQueue(a: Agent, n: nat, m: nat, o: Outcome, t1: Time, t2: Time, lossID: string)
    requires n <= |a.pending| && m <= |a.droppedIDs| && m <= |a.droppedDigests|
    ensures Follows(a, AfterOutcome(a, n, m, o, t1, t2, lossID).0)
  {
    hide DropOrStop;
    if o.Answered? && o.reply.status != OK {
      hide Follows;
      PartialFollows(a, o.reply, n);
      if Rejection(o.reply, n) {
        var b := AfterPartial(a, o.reply, n);
        if Left(o.reply, n) > 1 {
          SameFollows(a, b, (Left(o.reply, n) + 1) / 2);
        } else {
          DropFollows(b, t1, t2, lossID);
          FollowsTrans(a, b, DropOrStop(b, t1, t2, lossID).0);
        }
      }
    }
  }

  lemma SameFollows(a: Agent, b: Agent, cap: nat)
    requires Follows(a, b)
    ensures Follows(a, b.(batchCap := cap))
  {
  }

  // ---- The spool --------------------------------------------------------

  /** A line of the spool file: blank, unreadable, or one decision. */
  datatype Line = Blank | Torn | Entry(q: Queued)

  /** One past the last line that is not blank. */
  function End(lines: seq<Line>): nat {
    if lines == [] then 0 else if lines[|lines| - 1].Blank? then End(lines[..|lines| - 1]) else |lines|
  }

  /** The decisions in a spool, or None when a line other than the last is unreadable. */
  function Parse(lines: seq<Line>, end: nat): Option<seq<Queued>> {
    if lines == [] then Some([])
    else
      var rest := Parse(lines[..|lines| - 1], end);
      if rest.None? then None
      else match lines[|lines| - 1]
        case Blank => rest
        case Torn => if |lines| == end then rest else None
        case Entry(q) => Some(rest.value + [q])
  }

  function Lines(q: seq<Queued>): (lines: seq<Line>)
    ensures |lines| == |q| && forall i :: 0 <= i < |q| ==> lines[i] == Entry(q[i])
  {
    seq(|q|, i requires 0 <= i < |q| => Entry(q[i]))
  }

  lemma {:induction false} ParseLinesUpTo(q: seq<Queued>, end: nat)
    ensures Parse(Lines(q), end) == Some(q)
  {
    if q != [] {
      ParseLinesUpTo(q[..|q| - 1], end);
      assert Lines(q)[..|q| - 1] == Lines(q[..|q| - 1]);
      assert q == q[..|q| - 1] + [q[|q| - 1]];
    }
  }

  /** Reading back a spool gives the decisions written to it, also with the
      unreadable last line a crash inside a write leaves. */
  lemma SpoolRoundTrip(q: seq<Queued>)
    ensures Parse(Lines(q), End(Lines(q))) == Some(q)
    ensures Parse(Lines(q) + [Torn], End(Lines(q) + [Torn])) == Some(q)
  {
    ParseLinesUpTo(q, End(Lines(q)));
    ParseLinesUpTo(q, |q| + 1);
    assert (Lines(q) + [Torn])[..|q|] == Lines(q);
  }

  /** An unreadable line that other decisions follow is never skipped. */
  lemma {:induction false} TornInsideRefused(lines: seq<Line>, i: nat, end: nat)
    requires i < |lines| && lines[i].Torn? && end != i + 1
    ensures Parse(lines, end).None?
  {
    if i < |lines| - 1 { TornInsideRefused(lines[..|lines| - 1], i, end); }
  }

  function Read(line: Line): seq<Queued> { if line.Entry? then [line.q] else [] }

  /** The decisions of the readable lines, in order. */
  function Entries(lines: seq<Line>): seq<Queued> {
    if lines == [] then [] else Read(lines[0]) + Entries(lines[1..])
  }

  lemma {:induction false} EntriesAppend(a: seq<Line>, b: seq<Line>)
    ensures Entries(a + b) == Entries(a) + Entries(b)
  {
    hide Read;
    if a == [] { assert a + b == b; } else {
      assert (a + b)[1..] == a[1..] + b && (a + b)[0] == a[0];
      EntriesAppend(a[1..], b);
    }
  }

  lemma {:induction false} EntriesOfLines(q: seq<Queued>)
    ensures Entries(Lines(q)) == q
  {
    if q != [] {
      assert Lines(q)[1..] == Lines(q[1..]);
      EntriesOfLines(q[1..]);
    }
  }

  /** An unreadable line with something after it. */
  ghost predicate TornInside(lines: seq<Line>) {
    exists i, j :: 0 <= i < j < |lines| && lines[i].Torn? && !lines[j].Blank?
  }

  lemma {:induction false} EndExact(lines: seq<Line>)
    ensures End(lines) <= |lines| && (forall j :: End(lines) <= j < |lines| ==> lines[j].Blank?)
    ensures End(lines) > 0 ==> !lines[End(lines) - 1].Blank?
  {
    if lines != [] && lines[|lines| - 1].Blank? { EndExact(lines[..|lines| - 1]); }
  }

  lemma {:induction false} ParseUpTo(lines: seq<Line>, end: nat)
    ensures Parse(lines, end).Some? <==> forall i :: 0 <= i < |lines| && lines[i].Torn? ==> i + 1 == end
    ensures Parse(lines, end).Some? ==> Parse(lines, end).value == Entries(lines)
  {
    if lines != [] {
      var front, last := lines[..|lines| - 1], lines[|lines| - 1];
      ParseUpTo(front, end);
      assert lines == front + [last];
      EntriesAppend(front, [last]);
      assert [last][1..] == [];
    }
  }

  /** For every spool: it is read exactly when no unreadable line has anything but
      blank lines after it, and then gives the decisions of its readable lines. */
  lemma ParseExact(lines: seq<Line>)
    ensures Parse(lines, End(lines)) == if TornInside(lines) then None else Some(Entries(lines))
  {
    EndExact(lines);
    ParseUpTo(lines, End(lines));
    if TornInside(lines) {
      var i, j :| 0 <= i < j < |lines| && lines[i].Torn? && !lines[j].Blank?;
      assert j < End(lines);
    } else {
      forall i | 0 <= i < |lines| && lines[i].Torn? ensures i + 1 == End(lines) {
        if i + 1 < End(lines) { assert !lines[End(lines) - 1].Blank?; }
      }
    }
  }

  lemma {:induction false} NoEntries(lines: seq<Line>)
    requires forall j :: 0 <= j < |lines| ==> !lines[j].Entry?
    ensures Entries(lines) == []
  {
    if lines != [] { NoEntries(lines[1..]); }
  }

  /** The file ends in a newline, so its last line is blank: the decisions written read
      back with any blank lines behind them, and with the torn line a crash inside a
      write leaves ahead of those. */
  lemma SpoolReadsBackWithBlanks(q: seq<Queued>, tail: seq<Line>)
    requires forall j :: 0 <= j < |tail| ==> tail[j].Blank? || (j == 0 && tail[j].Torn?)
    ensures Parse(Lines(q) + tail, End(Lines(q) + tail)) == Some(q)
  {
    var lines := Lines(q) + tail;
    assert Entries(lines) == q by {
      EntriesOfLines(q);
      EntriesAppend(Lines(q), tail);
      NoEntries(tail);
    }
    assert !TornInside(lines) by {
      hide Entries;
      assert forall i :: |q| < i < |lines| ==> lines[i] == tail[i - |q|];
    }
    hide Entries, Parse, End, TornInside;
    ParseExact(lines);
  }

  function Restore(a: Agent, restored: seq<Queued>): Agent {
    a.(pending := restored + a.pending)
  }

  // ---- The object -------------------------------------------------------

  /** One request of a flush and what came of it. */
  datatype Exchange = Exchange(batch: Batch, outcome: Outcome, t1: Time, t2: Time, lossID: string)

  predicate Paired(a: Agent) { |a.droppedIDs| == |a.droppedDigests| }

  function Turn(a: Agent, x: Exchange): (r: (Agent, Verdict))
    requires Paired(a)
    ensures Paired(r.0)
  {
    assert BatchLen(a) <= |a.pending| by { ExtendIsBatchLength(a.pending, Limit(a), 0); }
    AfterOutcome(a, BatchLen(a), |a.droppedIDs|, x.outcome, x.t1, x.t2, x.lossID)
  }

  /** The state and verdict after replaying a flush's exchanges. */
  function Replay(a: Agent, trace: seq<Exchange>): (r: (Agent, Verdict))
    requires Paired(a)
    ensures Paired(r.0)
  {
    if trace == [] then (a, Continue)
    else Turn(Replay(a, trace[..|trace| - 1]).0, trace[|trace| - 1])
  }

  /** A flush takes a prefix off the queue and counts it. */
  lemma {:induction false} ReplayTakesPrefix(a: Agent, trace: seq<Exchange>)
    requires Paired(a)
    ensures Follows(a, Replay(a, trace).0)
  {
    hide AfterOutcome;
    if trace != [] {
      ReplayTakesPrefix(a, trace[..|trace| - 1]);
      var b, x := Replay(a, trace[..|trace| - 1]).0, trace[|trace| - 1];
      ExtendIsBatchLength(b.pending, Limit(b), 0);
      RemovedFollowsQueue(b, BatchLen(b), |b.droppedIDs|, x.outcome, x.t1, x.t2, x.lossID);
      FollowsTrans(a, b, Turn(b, x).0);
    }
  }

  predicate Idle(a: Agent) { a.pending == [] && a.droppedIDs == [] }

  /** The measure of the flush loop: decisions, then unreported drops, then the batch limit. */
  ghost predicate Progress(a: Agent, b: Agent) {
    || |b.pending| < |a.pending|
    || (|b.pending| == |a.pending| && |b.droppedIDs| < |a.droppedIDs|)
    || (|b.pending| == |a.pending| && |b.droppedIDs| == |a.droppedIDs| && Limit(b) < Limit(a))
  }

  /** A turn that does not end the loop moves the measure down, whatever the reply. */
  lemma TurnProgresses(a: Agent, x: Exchange)
    requires Paired(a) && !Idle(a) && Turn(a, x).1 == Continue
    ensures Progress(a, Turn(a, x).0)
  {
    BatchShape(a);
  }

  /** Every exchange sends the batch of the state it starts in, which has work
      to do, and takes what the network makes of it. */
  ghost predicate Genuine(a: Agent, trace: seq<Exchange>, net: (nat, Batch) -> Outcome)
    requires Paired(a)
  {
    forall k :: 0 <= k < |trace| ==> GenuineAt(Replay(a, trace[..k]).0, trace[k], k, net)
  }

  ghost predicate GenuineAt(a: Agent, x: Exchange, k: nat, net: (nat, Batch) -> Outcome) {
    !Idle(a) && x.batch == NextBatch(a) && x.outcome == net(k, x.batch)
  }

  lemma GenuineExtends(a: Agent, trace: seq<Exchange>, x: Exchange, net: (nat, Batch) -> Outcome)
    requires Paired(a) && Genuine(a, trace, net) && GenuineAt(Replay(a, trace).0, x, |trace|, net)
    ensures Genuine(a, trace + [x], net)
    ensures Replay(a, trace + [x]) == Turn(Replay(a, trace).0, x)
  {
    hide Turn, GenuineAt;
    var longer := trace + [x];
    assert longer[..|trace|] == trace;
    forall k | 0 <= k < |longer| ensures GenuineAt(Replay(a, longer[..k]).0, longer[k], k, net) {
      if k < |trace| {
        assert longer[..k] == trace[..k];
        assert GenuineAt(Replay(a, trace[..k]).0, trace[k], k, net);
      }
    }
  }

  /** Halving never raises the batch limit above the control plane's cap. */
  lemma {:induction false} ReplayWithinCap(a: Agent, trace: seq<Exchange>)
    requires Paired(a) && Limit(a) <= MAX_BATCH_DECISIONS
    ensures Limit(Replay(a, trace).0) <= MAX_BATCH_DECISIONS
  {
    if trace != [] {
      var prior := Replay(a, trace[..|trace| - 1]).0;
      ReplayWithinCap(a, trace[..|trace| - 1]);
      ExtendIsBatchLength(prior.pending, Limit(prior), 0);
    }
  }

  /** Every batch of a flush is a loss report on its own, or a non-empty list of
      decisions of one revision within the count limit and, past a single
      decision, within the byte limit. */
  lemma ShippedBatchShape(a: Agent, trace: seq<Exchange>, net: (nat, Batch) -> Outcome, k: nat)
    requires Paired(a) && Limit(a) <= MAX_BATCH_DECISIONS && Genuine(a, trace, net) && k < |trace|
    ensures var b, now := trace[k].batch, Replay(a, trace[..k]).0;
      || (b.decisions == [] && b.dropped > 0)
      || (&& b.dropped == 0 && 0 < |b.decisions| <= MAX_BATCH_DECISIONS && |b.decisions| <= |now.pending|
          && b.decisions == Raws(now.pending[..|b.decisions|])
          && (forall i :: 0 <= i < |b.decisions| ==> now.pending[i].revision == b.revision)
          && (|b.decisions| > 1 ==> DecisionBytes(b.decisions) <= MAX_BATCH_BYTES))
  {
    assert GenuineAt(Replay(a, trace[..k]).0, trace[k], k, net);
    ReplayWithinCap(a, trace[..k]);
    BatchShape(Replay(a, trace[..k]).0);
  }

  class Pdp {
    var pending: seq<Queued>
    var reserved: nat
    var droppedIDs: seq<string>
    var droppedDigests: seq<Digest>
    var lossID: string
    var dropStreak: nat
    var dropTimes: seq<Time>
    var batchCap: nat
    var removed: nat
    var synced: Option<Time>
    var spool: seq<Line>
    var spoolOpen: bool

    ghost function View(): Agent
      reads this
    {
      Agent(pending, reserved, droppedIDs, droppedDigests, lossID, dropStreak, dropTimes, batchCap, removed, synced)
    }

    constructor (lines: seq<Line>)
      ensures View() == FRESH && spool == lines && !spoolOpen
    {
      pending, reserved, droppedIDs, droppedDigests, lossID := [], 0, [], [], "";
      dropStreak, dropTimes, batchCap, removed, synced := 0, [], 0, 0, None;
      spool, spoolOpen := lines, false;
    }

    /** The first section of `evaluate`: check and take a slot in one step. */
    method TakeSlot(cfg: Config, now: Time) returns (r: Admission)
      modifies this`reserved
      ensures r == Admit(cfg, old(View()), now)
      ensures r == Admitted <==>
        synced.Some? && now - synced.value <= cfg.maxAge && |pending| + old(reserved) < cfg.bufferSize
      ensures View() == if r == Admitted then Reserve(old(View())) else old(View())
    {
      var waiting := |pending| + reserved;
      if synced.None? || now - synced.value > cfg.maxAge { return NotSynced; }
      if waiting >= cfg.bufferSize { return BufferFull; }
      reserved := reserved + 1;
      return Admitted;
    }

    method GiveSlotBack()
      requires reserved > 0
      modifies this`reserved
      ensures View() == Release(old(View()))
    {
      reserved := reserved - 1;
    }

    /** `spoolDecision`: a failed write leaves none of its bytes, cut back or,
        when cutting back fails too, by rebuilding the file from the queue. */
    method SpoolDecision(q: Queued, written: bool, cutBack: bool) returns (ok: bool)
      requires spoolOpen
      modifies this`spool
      ensures ok == written
      ensures spool == if written then old(spool) + [Entry(q)] else if cutBack then old(spool) else Lines(pending)
    {
      if written { spool := spool + [Entry(q)]; return true; }
      if !cutBack { RewriteSpool(); }
      return false;
    }

    /** The last section of `evaluate`: the slot becomes a queue entry. */
    method QueueDecision(q: Queued)
      requires reserved > 0
      modifies this`pending, this`reserved
      ensures View() == Enqueue(old(View()), q)
    {
      pending := pending + [q];
      reserved := reserved - 1;
    }

    /** `rewriteSpoolLocked`: the spool becomes what is still pending. */
    method RewriteSpool()
      modifies this`spool
      ensures spool == Lines(pending)
    {
      var lines: seq<Line> := [];
      for i := 0 to |pending|
        invariant lines == Lines(pending[..i])
      {
        lines := lines + [Entry(pending[i])];
      }
      assert pending[..|pending|] == pending;
      spool := lines;
    }

    /** `RestoreSpool`: requeue every decision in the spool, or refuse to start. */
    method RestoreSpool() returns (ok: bool)
      modifies this`pending, this`spool, this`spoolOpen
      ensures ok == !TornInside(old(spool))
      ensures !ok ==> View() == old(View()) && spool == old(spool) && spoolOpen == old(spoolOpen)
      ensures ok ==> View() == old(View()).(pending := Entries(old(spool)) + old(pending))
      ensures ok ==> spool == Lines(pending) && spoolOpen
    {
      ParseExact(spool);
      var restored: seq<Queued> := [];
      var end: nat := |spool|;
      assert spool[..end] == spool;
      while end > 0 && spool[end - 1].Blank?
        invariant 0 <= end <= |spool| && End(spool[..end]) == End(spool)
      {
        assert spool[..end][..end - 1] == spool[..end - 1];
        end := end - 1;
      }
      assert end == End(spool);
      for i := 0 to |spool|
        invariant Parse(spool[..i], end) == Some(restored)
      {
        assert spool[..i + 1][..i] == spool[..i];
        match spool[i]
        case Blank =>
        case Torn =>
          if i + 1 != end {
            TornInsideRefused(spool, i, end);
            return false;
          }
        case Entry(q) => restored := restored + [q];
      }
      assert spool[..|spool|] == spool;
      pending := restored + pending;
      RewriteSpool();
      spoolOpen := true;
      return true;
    }

    /** The locked section that builds the next batch. */
    method BuildBatch() returns (b: Batch, n: nat, m: nat)
      ensures b == NextBatch(View()) && n == BatchLen(View()) && m == |droppedIDs|
    {
      var limit := if batchCap > 0 then batchCap else MAX_BATCH_DECISIONS;
      var rev := if pending == [] then "" else pending[0].revision;
      var size := 0;
      n, m := 0, |droppedIDs|;
      while m == 0 && n < |pending| && n < limit && pending[n].revision == rev
        invariant n <= |pending| && size == Bytes(pending[..n])
        invariant m != 0 ==> n == 0
        invariant m == 0 ==> Extend(pending, limit, n) == Extend(pending, limit, 0)
        decreases |pending| - n
      {
        if n > 0 && size + pending[n].raw.rawLen + 1 > MAX_BATCH_BYTES { break; }
        assert pending[..n + 1][..n] == pending[..n];
        size := size + pending[n].raw.rawLen + 1;
        n := n + 1;
      }
      b := Batch(rev, Raws(pending[..n]), m, droppedIDs, droppedDigests, if m == 0 then "" else lossID);
    }

    /** `recentDrops`: forget drops an hour old and count the rest. */
    method CountRecentDrops(now: Time) returns (n: nat)
      modifies this`dropTimes
      ensures dropTimes == RecentDrops(old(dropTimes), now) && n == |dropTimes|
    {
      var keep: seq<Time> := [];
      for i := 0 to |dropTimes|
        invariant dropTimes == old(dropTimes) && keep == RecentDrops(dropTimes[..i], now)
      {
        assert dropTimes[..i + 1][..i] == dropTimes[..i];
        if dropTimes[i] > now - HOUR { keep := keep + [dropTimes[i]]; }
      }
      assert dropTimes[..|dropTimes|] == dropTimes;
      dropTimes := keep;
      n := |keep|;
    }

    /** Discard the rejected decision at the head of the queue, or refuse to. */
    method DropRejected(t1: Time, t2: Time, newID: string) returns (v: Verdict)
      requires pending != []
      modifies this`pending, this`droppedIDs, this`droppedDigests, this`lossID
      modifies this`dropStreak, this`dropTimes, this`batchCap, this`removed
      ensures (View(), v) == DropOrStop(old(View()), t1, t2, newID)
    {
      if dropStreak >= MAX_DROP_STREAK { return Stop; }
      var recent := CountRecentDrops(t1);
      if recent >= MAX_DROPS_PER_HOUR { return Stop; }
      if lossID == "" { lossID := newID; }
      droppedIDs := droppedIDs + [pending[0].id];
      droppedDigests := droppedDigests + [Sha256(pending[0].raw)];
      dropTimes := dropTimes + [t2];
      pending := pending[1..];
      removed := removed + 1;
      dropStreak := dropStreak + 1;
      batchCap := 0;
      return Continue;
    }

    /** Take an acknowledged batch off the queue, and its loss entries with it. */
    method Acknowledge(n: nat, m: nat)
      requires n <= |pending| && m <= |droppedIDs| && m <= |droppedDigests|
      modifies this`pending, this`droppedIDs, this`droppedDigests
      modifies this`lossID, this`dropStreak, this`batchCap, this`removed
      ensures View() == AfterAccepted(old(View()), n, m)
    {
      pending := pending[n..];
      removed := removed + n;
      if m > 0 {
        droppedIDs := droppedIDs[m..];
        droppedDigests := droppedDigests[m..];
        if droppedIDs == [] { lossID := ""; }
      }
      if n > 0 { dropStreak := 0; }
      batchCap := 0;
    }

    /** What the flush loop does with one outcome. */
    method HandleOutcome(n: nat, m: nat, o: Outcome, t1: Time, t2: Time, newID: string) returns (v: Verdict)
      requires n <= |pending| && m <= |droppedIDs| && m <= |droppedDigests|
      modifies this`pending, this`droppedIDs, this`droppedDigests, this`lossID
      modifies this`dropStreak, this`dropTimes, this`batchCap, this`removed
      ensures (View(), v) == AfterOutcome(old(View()), n, m, o, t1, t2, newID)
    {
      hide DropOrStop, AfterAccepted;
      if o.Lost? { return Stop; }
      var r := o.reply;
      if r.status == OK {
        Acknowledge(n, m);
        return Continue;
      }
      if r.parsed && 0 < r.recorded < n {
        pending := pending[r.recorded..];
        removed := removed + r.recorded;
      }
      if (r.status == BAD_REQUEST || r.status == TOO_LARGE) && n > 0 {
        var left := n;
        if 0 < r.recorded < n { left := left - r.recorded; }
        if left > 1 {
          batchCap := (left + 1) / 2;
          return Continue;
        }
        v := DropRejected(t1, t2, newID);
        return;
      }
      return Stop;
    }

    /** `flush` with no new arrivals: it ends for every network, and its effect is
        the replay of the exchanges it made, each batch built from the state then. */
    method Ship(net: (nat, Batch) -> Outcome, clock: nat -> Time, ids: nat -> string) returns (trace: seq<Exchange>)
      requires Paired(View())
      modifies this`pending, this`droppedIDs, this`droppedDigests, this`lossID
      modifies this`dropStreak, this`dropTimes, this`batchCap, this`removed
      ensures Paired(View()) && View() == Replay(old(View()), trace).0
      ensures Idle(View()) || Replay(old(View()), trace).1 == Stop
      ensures Genuine(old(View()), trace, net)
    {
      hide AfterOutcome, NextBatch, BatchLen;
      trace := [];
      ghost var a0 := View();
      while pending != [] || droppedIDs != []
        invariant View() == Replay(a0, trace).0 && Replay(a0, trace).1 == Continue
        invariant Genuine(a0, trace, net)
        decreases |pending|, |droppedIDs|, Limit(View())
      {
        ghost var a := View();
        var b, n, m := BuildBatch();
        var k := |trace|;
        var x := Exchange(b, net(k, b), clock(2 * k), clock(2 * k + 1), ids(k));
        BatchShape(a);
        var v := HandleOutcome(n, m, x.outcome, x.t1, x.t2, x.lossID);
        GenuineExtends(a0, trace, x, net);
        trace := trace + [x];
        if v == Stop { return; }
        TurnProgresses(a, x);
      }
    }

    /** `Flush`: ship, and rewrite the spool if anything left the queue. */
    method Flush(net: (nat, Batch) -> Outcome, clock: nat -> Time, ids: nat -> string) returns (trace: seq<Exchange>)
      requires Paired(View())
      modifies this
      ensures Paired(View()) && View() == Replay(old(View()), trace).0
      ensures |pending| <= |old(pending)| && pending == old(pending)[|old(pending)| - |pending|..]
      ensures spool == if pending == old(pending) then old(spool) else Lines(pending)
      ensures old(spool) == Lines(old(pending)) ==> spool == Lines(pending)
      ensures spoolOpen == old(spoolOpen)
    {
      hide Replay, Genuine;
      var before := removed;
      ghost var a := View();
      trace := Ship(net, clock, ids);
      ReplayTakesPrefix(a, trace);
      if removed != before { RewriteSpool(); }
    }
  }
}
