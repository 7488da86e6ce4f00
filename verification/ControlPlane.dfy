/** The control plane's side of decision shipping: what it accepts, and the
    loop that appends an accepted batch to the audit chain. */
module ControlPlane {
  import opened Decisions
  import opened AuditChain

  const MAX_ID_BYTES := 128

  predicate RequestIDChar(c: char) {
    || 'a' <= c <= 'z' || 'A' <= c <= 'Z' || '0' <= c <= '9'
    || c in "-._~:/+=@;"
  }

  predicate ValidRequestID(id: string) {
    0 < |id| <= MAX_ID_BYTES && forall c :: c in id ==> RequestIDChar(c)
  }

  predicate IsHexSHA256(s: string) {
    |s| == 64 && forall c :: c in s ==> '0' <= c <= '9' || 'a' <= c <= 'f'
  }

  /** The checks run on each decision before anything is appended. */
  predicate WellFormed(d: Decision) {
    && 0 < |d.id| <= MAX_ID_BYTES
    && d.decidedAt != ZERO_TIME
    && (d.requestID != "" ==> ValidRequestID(d.requestID))
    && (d.requestIDSHA256 != "" ==> d.requestID == "" && IsHexSHA256(d.requestIDSHA256))
    && d.request.valid
  }

  /** Length of the JSON body of a batch of decisions: the two field names and
      their punctuation, the revision, and the decisions between commas. */
  function BodyBytes(revision: string, d: seq<Decision>): nat {
    36 + |revision| + DecisionBytes(d)
  }

  predicate ValidLossEntries(b: Batch) {
    forall i :: 0 <= i < |b.droppedIDs| ==> 0 < |b.droppedIDs[i]| <= MAX_ID_BYTES
  }

  predicate ValidLossReport(b: Batch) {
    && b.dropped == |b.droppedIDs|
    && |b.droppedIDs| <= MAX_BATCH_DECISIONS
    && |b.droppedDigests| == |b.droppedIDs|
    && (b.dropped > 0 ==> b.lossID != "")
    && |b.lossID| <= MAX_ID_BYTES
    && ValidLossEntries(b)
  }

  /** The status a batch is refused with before anything is appended. */
  function Refusal(authorized: bool, b: Batch): Option<nat> {
    if !authorized then Some(FORBIDDEN)
    else if b.decisions != [] && BodyBytes(b.revision, b.decisions) > MAX_BODY_BYTES then Some(TOO_LARGE)
    else if !ValidLossReport(b) then Some(BAD_REQUEST)
    else if b.dropped > 0 && b.decisions != [] then Some(BAD_REQUEST)
    else if b.dropped == 0 && b.decisions == [] then Some(BAD_REQUEST)
    else if |b.decisions| > MAX_BATCH_DECISIONS then Some(BAD_REQUEST)
    else if exists d :: d in b.decisions && !WellFormed(d) then Some(BAD_REQUEST)
    else None
  }

  /** The characters of a stored request id: printable ASCII from the plus sign on,
      without brackets, quotes, backslash, comma and the other marks listed here. */
  lemma RequestIDCharExact(c: char)
    ensures RequestIDChar(c) <==> '+' <= c <= '~' && c !in ",<>?[\\]^`{|}"
  {
  }

  /** A decision the audit chain can store as it is. */
  ghost predicate Storable(d: Decision) {
    && 1 <= |d.id| <= 128 && d.decidedAt != 0 && d.request.valid
    && |d.requestID| <= 128 && (forall c :: c in d.requestID ==> '+' <= c <= '~' && c !in ",<>?[\\]^`{|}")
    && (d.requestIDSHA256 == "" || (d.requestID == "" && |d.requestIDSHA256| == 64))
    && forall c :: c in d.requestIDSHA256 ==> c in "0123456789abcdef"
  }

  lemma WellFormedIff(d: Decision)
    ensures WellFormed(d) <==> Storable(d)
  {
    forall c ensures RequestIDChar(c) <==> '+' <= c <= '~' && c !in ",<>?[\\]^`{|}" { RequestIDCharExact(c); }
    forall c ensures '0' <= c <= '9' || 'a' <= c <= 'f' <==> c in "0123456789abcdef" { HexDigit(c); }
  }

  lemma HexDigit(c: char)
    ensures '0' <= c <= '9' || 'a' <= c <= 'f' <==> c in "0123456789abcdef"
  {
  }

  /** A report of one to a thousand dropped decisions, on its own. */
  ghost predicate LossShape(b: Batch) {
    && b.decisions == [] && 1 <= b.dropped <= 1000 && 1 <= |b.lossID| <= 128
    && |b.droppedIDs| == |b.droppedDigests| == b.dropped
    && forall i :: 0 <= i < |b.droppedIDs| ==> 1 <= |b.droppedIDs[i]| <= 128
  }

  /** One to a thousand storable decisions in a body of a mebibyte at most. */
  ghost predicate DecisionShape(b: Batch) {
    && b.dropped == 0 && b.droppedIDs == [] && b.droppedDigests == [] && |b.lossID| <= 128
    && 1 <= |b.decisions| <= 1000 && BodyBytes(b.revision, b.decisions) <= 1048576
    && forall d :: d in b.decisions ==> Storable(d)
  }

  /** A batch is taken exactly when it is authorised and has one of the two shapes; the
      status says which of the caller, the size or the content was at fault. */
  lemma RefusalIff(authorized: bool, b: Batch)
    ensures Refusal(authorized, b).None? <==> authorized && (LossShape(b) || DecisionShape(b))
    ensures Refusal(authorized, b).Some? ==>
      Refusal(authorized, b).value ==
        if !authorized then 403
        else if b.decisions != [] && BodyBytes(b.revision, b.decisions) > 1048576 then 413 else 400
  {
    forall d ensures WellFormed(d) <==> Storable(d) { WellFormedIff(d); }
  }

  function RowFor(b: Batch, i: nat): (r: Row)
    requires i < |b.decisions|
    ensures Keyed(r)
  {
    DecisionRow(b.decisions[i], b.revision)
  }

  function LossRowFor(b: Batch): (r: Row)
    ensures Keyed(r)
  {
    LossRow(b.droppedIDs, b.droppedDigests, b.lossID, b.revision)
  }

  /** The chain after the first n decisions of b went through, one append each. */
  function AppendPrefix(c: Chain, b: Batch, n: nat, clock: nat -> Time): Chain
    requires n <= |b.decisions|
  {
    if n == 0 then c else AppendOnce(AppendPrefix(c, b, n - 1, clock), RowFor(b, n - 1), clock(n - 1))
  }

  /** A reply the chain bears out: what it says was recorded is in the chain. */
  ghost predicate Honest(c: Chain, b: Batch, r: Reply) {
    && (r.status == OK ==>
          && Took(c, b, |b.decisions|)
          && (b.dropped > 0 ==> exists row :: LossRecorded(c, b, row)))
    && (r.status != OK && 0 < r.recorded < |b.decisions| ==>
          Took(c, b, r.recorded))
  }

  /** The chain holds a loss row under b's loss id. */
  ghost predicate LossRecorded(c: Chain, b: Batch, row: Row) {
    row.LossRow? && row.lossID == b.lossID && Recorded(c, row)
  }

  /** No decision of b shares its key with a different row of the table. */
  ghost predicate Unconflicted(c: Chain, b: Batch) {
    forall i :: 0 <= i < |b.decisions| ==> FreeFor(c, RowFor(b, i))
  }

  /** The row's key is unused, or already names this very row. */
  ghost predicate FreeFor(c: Chain, r: Row)
    requires Keyed(r)
  {
    KeyOf(r) in c.once ==> c.once[KeyOf(r)].row == r
  }

  ghost predicate SameIDSameDecision(b: Batch) {
    forall i, j | 0 <= i < j < |b.decisions| ::
      b.decisions[i].id == b.decisions[j].id ==> b.decisions[i] == b.decisions[j]
  }

  /** One append of a batch: its row is in the chain after it, and nothing else changed. */
  lemma OneAppend(c: Chain, b: Batch, k: nat, now: Time)
    requires k < |b.decisions| && Ready(c, b) && SameIDSameDecision(b)
    ensures var c' := AppendOnce(c, RowFor(b, k), now);
      && Ready(c', b) && Recorded(c', RowFor(b, k))
      && (c'.rows == c.rows || c'.rows == c.rows + [Stamped(RowFor(b, k), now)])
  {
  }

  /** The first n decisions of b are in the chain. */
  ghost predicate Took(c: Chain, b: Batch, n: nat)
    requires n <= |b.decisions|
  {
    forall i :: 0 <= i < n ==> Recorded(c, RowFor(b, i))
  }

  ghost predicate Ready(c: Chain, b: Batch) {
    OnceValid(c) && Unconflicted(c, b)
  }

  lemma {:induction false} PrefixRecords(c: Chain, b: Batch, n: nat, clock: nat -> Time)
    requires n <= |b.decisions| && Ready(c, b) && SameIDSameDecision(b)
    ensures var c' := AppendPrefix(c, b, n, clock); c.rows <= c'.rows && Ready(c', b) && Took(c', b, n)
  {
    hide AppendOnce;
    if n > 0 {
      PrefixRecords(c, b, n - 1, clock);
      var mid := AppendPrefix(c, b, n - 1, clock);
      OneAppend(mid, b, n - 1, clock(n - 1));
      AppendContents(mid, RowFor(b, n - 1), clock(n - 1));
    }
  }

  /** Every row the appends add is one of the batch's own decisions. */
  lemma {:induction false} PrefixAddsOwnRows(c: Chain, b: Batch, n: nat, clock: nat -> Time, j: nat)
    requires n <= |b.decisions| && Ready(c, b) && SameIDSameDecision(b)
    requires |c.rows| <= j < |AppendPrefix(c, b, n, clock).rows|
    ensures exists i :: 0 <= i < n && AppendPrefix(c, b, n, clock).rows[j].row == RowFor(b, i)
  {
    hide AppendOnce;
    var mid := AppendPrefix(c, b, n - 1, clock);
    PrefixRecords(c, b, n - 1, clock);
    OneAppend(mid, b, n - 1, clock(n - 1));
    if j < |mid.rows| {
      PrefixAddsOwnRows(c, b, n - 1, clock, j);
      var i :| 0 <= i < n - 1 && mid.rows[j].row == RowFor(b, i);
      assert AppendPrefix(c, b, n, clock).rows[j].row == RowFor(b, i);
    } else {
      assert AppendPrefix(c, b, n, clock).rows[j].row == RowFor(b, n - 1);
    }
  }

  /** The recorder's answer when the store fails at append number `fault`, if it gets
      that far; a refusal leaves the chain alone. */
  function ReplyTo(authorized: bool, b: Batch, fault: nat): Reply {
    if Refusal(authorized, b).Some? then Reply(Refusal(authorized, b).value, true, 0)
    else if b.dropped > 0 then (if fault == 0 then Reply(SERVER_ERROR, true, 0) else Reply(OK, true, 0))
    else if fault < |b.decisions| then Reply(SERVER_ERROR, true, fault)
    else Reply(OK, true, |b.decisions|)
  }

  function ChainAfter(c: Chain, authorized: bool, b: Batch, clock: nat -> Time, fault: nat): Chain {
    if Refusal(authorized, b).Some? then c
    else if b.dropped > 0 then (if fault == 0 then c else AppendOnce(c, LossRowFor(b), clock(0)))
    else AppendPrefix(c, b, if fault < |b.decisions| then fault else |b.decisions|, clock)
  }

  class Recorder {
    var chain: Chain

    constructor ()
      ensures chain == EMPTY_CHAIN
    {
      chain := EMPTY_CHAIN;
    }

    /** `recordDecisions`: refuse, or append a loss report, or append decisions
        in order until the store fails at index `fault`. */
    method RecordDecisions(authorized: bool, b: Batch, clock: nat -> Time, fault: nat) returns (r: Reply)
      modifies this
      ensures chain == ChainAfter(old(chain), authorized, b, clock, fault) && r == ReplyTo(authorized, b, fault)
    {
      if !authorized { return Reply(FORBIDDEN, true, 0); }
      if b.decisions != [] && BodyBytes(b.revision, b.decisions) > MAX_BODY_BYTES { return Reply(TOO_LARGE, true, 0); }
      if !ValidLossReport(b) { return Reply(BAD_REQUEST, true, 0); }
      if b.dropped > 0 && b.decisions != [] { return Reply(BAD_REQUEST, true, 0); }
      if b.dropped == 0 && b.decisions == [] { return Reply(BAD_REQUEST, true, 0); }
      if |b.decisions| > MAX_BATCH_DECISIONS { return Reply(BAD_REQUEST, true, 0); }
      for i := 0 to |b.decisions|
        invariant chain == old(chain)
        invariant forall j :: 0 <= j < i ==> WellFormed(b.decisions[j])
      {
        if !WellFormed(b.decisions[i]) { return Reply(BAD_REQUEST, true, 0); }
      }
      if b.dropped > 0 {
        if fault == 0 { return Reply(SERVER_ERROR, true, 0); }
        chain := AppendOnce(chain, LossRowFor(b), clock(0));
      }
      for i := 0 to |b.decisions|
        invariant b.dropped > 0 ==> chain == AppendOnce(old(chain), LossRowFor(b), clock(0))
        invariant b.dropped == 0 ==> i <= fault && chain == AppendPrefix(old(chain), b, i, clock)
      {
        if i == fault { return Reply(SERVER_ERROR, true, i); }
        chain := AppendOnce(chain, RowFor(b, i), clock(i));
      }
      return Reply(OK, true, |b.decisions|);
    }
  }

  /** Every reply of the recorder is borne out by the chain it leaves. */
  lemma RepliesAreHonest(c: Chain, authorized: bool, b: Batch, clock: nat -> Time, fault: nat)
    requires Ready(c, b) && SameIDSameDecision(b)
    ensures Honest(ChainAfter(c, authorized, b, clock, fault), b, ReplyTo(authorized, b, fault))
  {
    var c' := ChainAfter(c, authorized, b, clock, fault);
    if Refusal(authorized, b).None? {
      if b.dropped > 0 && fault > 0 {
        var row := LossRowFor(b);
        AppendRecords(c, row, clock(0));
        if Recorded(c', row) {
          assert LossRecorded(c', b, row);
        } else {
          var other := c.once[KeyOf(row)].row;
          AppendContents(c, row, clock(0));
          assert LossRecorded(c', b, other);
        }
      } else if b.dropped == 0 {
        PrefixRecords(c, b, if fault < |b.decisions| then fault else |b.decisions|, clock);
      }
    }
  }

  /** A taken batch of decisions is recorded up to where the store fails, each decision
      under the batch's revision, and the answer counts them. */
  lemma RecordsUpToFault(c: Chain, b: Batch, clock: nat -> Time, fault: nat)
    requires Ready(c, b) && SameIDSameDecision(b) && DecisionShape(b)
    ensures var r, c', n := ReplyTo(true, b, fault), ChainAfter(c, true, b, clock, fault), |b.decisions|;
      && r.parsed && r.recorded == (if fault < n then fault else n) && r.status == (if fault < n then 500 else 200)
      && c.rows <= c'.rows
      && (forall i :: 0 <= i < r.recorded ==> DecisionRow(b.decisions[i], b.revision) in Contents(c'.rows))
  {
    RefusalIff(true, b);
    assert b.dropped == 0;
    hide Refusal, Contents, DecisionShape, Ready, Unconflicted, SameIDSameDecision, AppendPrefix;
    var n := if fault < |b.decisions| then fault else |b.decisions|;
    PrefixRecords(c, b, n, clock);
    forall i | 0 <= i < n
      ensures DecisionRow(b.decisions[i], b.revision) in Contents(AppendPrefix(c, b, n, clock).rows)
    {
      assert Recorded(AppendPrefix(c, b, n, clock), RowFor(b, i));
    }
  }

  /** A taken loss report is recorded under its loss id, with the revision it came with. */
  lemma RecordsLoss(c: Chain, b: Batch, clock: nat -> Time, fault: nat)
    requires LossShape(b) && LossKey(b.lossID) !in c.once
    ensures ReplyTo(true, b, fault).status == if fault == 0 then 500 else 200
    ensures ChainAfter(c, true, b, clock, fault).rows ==
      if fault == 0 then c.rows
      else c.rows + [Stamped(LossRow(b.droppedIDs, b.droppedDigests, b.lossID, b.revision), clock(0))]
  {
    RefusalIff(true, b);
    hide Refusal;
    AppendContents(c, LossRowFor(b), clock(0));
  }

  /** What was borne out once stays borne out: the chain only grows. */
  lemma HonestyLasts(c: Chain, r: Row, now: Time, b: Batch, reply: Reply)
    requires Keyed(r) && Honest(c, b, reply)
    ensures Honest(AppendOnce(c, r, now), b, reply)
  {
    AppendContents(c, r, now);
    if reply.status == OK && b.dropped > 0 {
      var row :| LossRecorded(c, b, row);
      assert LossRecorded(AppendOnce(c, r, now), b, row);
    }
  }

  /** A loss report sent again under its loss id writes a conflict row exactly
      when its content differs from the recorded one, the bundle revision included. */
  lemma LossRetry(c: Chain, first: Batch, again: Batch, t1: Time, t2: Time)
    requires LossKey(first.lossID) !in c.once && first.lossID == again.lossID
    requires t1 <= t2 <= t1 + ONCE_RETENTION
    ensures var c1 := AppendOnce(c, LossRowFor(first), t1);
      var c2 := AppendOnce(c1, LossRowFor(again), t2);
      && |c1.rows| == |c.rows| + 1
      && (LossRowFor(again) == LossRowFor(first) ==> c2 == c1)
      && (LossRowFor(again) != LossRowFor(first) ==>
            && |c2.rows| == |c1.rows| + 1
            && c2.rows[|c1.rows|].row == ConflictRow(LossKey(first.lossID), LossRowFor(first), LossRowFor(again)))
  {
  }
}
