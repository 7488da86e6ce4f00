/** Values shared by the node agent and the control plane: decisions, the
    queue entries the agent keeps for them, and the batches it ships. */
module Decisions {
  datatype Option<+T> = None | Some(value: T)

  /** Nanoseconds. A decision's zero time stands for a missing timestamp. */
  type Time = int

  const SECOND: Time := 1_000_000_000
  const MINUTE: Time := 60 * SECOND
  const HOUR: Time := 60 * MINUTE
  const DAY: Time := 24 * HOUR

  const ZERO_TIME: Time := 0

  /** What `policy.Validate` and the audit row look at in a request. */
  datatype Request = Request(valid: bool, subject: string)

  /** One decision as it travels, with the length of its JSON encoding. */
  datatype Decision = Decision(
    id: string,
    decidedAt: Time,
    requestID: string,
    requestIDSHA256: string,
    request: Request,
    allow: bool,
    rawLen: nat)

  /** A decision waiting on the agent, with the bundle revision it was made with. */
  datatype Queued = Queued(id: string, raw: Decision, revision: string)

  /** SHA-256 of an encoded decision; collision-free, so it wraps what it is of. */
  datatype Digest = Sha256(of: Decision)

  /** The body of POST /v1/audit/decisions. */
  datatype Batch = Batch(
    revision: string,
    decisions: seq<Decision>,
    dropped: int,
    droppedIDs: seq<string>,
    droppedDigests: seq<Digest>,
    lossID: string)

  /** The answer to a batch: the HTTP status, whether its body parsed, and the
      `recorded` count found in it (0 when there is none). */
  datatype Reply = Reply(status: nat, parsed: bool, recorded: int)

  const OK := 200
  const BAD_REQUEST := 400
  const FORBIDDEN := 403
  const TOO_LARGE := 413
  const SERVER_ERROR := 500

  const MAX_BATCH_DECISIONS := 1000
  const MAX_BATCH_BYTES := 768 * 1024
  const MAX_BODY_BYTES := 1024 * 1024

  /** Bytes a list of queue entries takes in a batch, a separator for each. */
  function Bytes(q: seq<Queued>): nat {
    if q == [] then 0 else Bytes(q[..|q| - 1]) + q[|q| - 1].raw.rawLen + 1
  }

  function DecisionBytes(d: seq<Decision>): nat {
    if d == [] then 0 else DecisionBytes(d[..|d| - 1]) + d[|d| - 1].rawLen + 1
  }

  function Raws(q: seq<Queued>): (d: seq<Decision>)
    ensures |d| == |q|
    ensures forall i :: 0 <= i < |q| ==> d[i] == q[i].raw
  {
    seq(|q|, i requires 0 <= i < |q| => q[i].raw)
  }

  lemma {:induction false} RawsBytes(q: seq<Queued>)
    ensures DecisionBytes(Raws(q)) == Bytes(q)
  {
    if q != [] {
      RawsBytes(q[..|q| - 1]);
      assert Raws(q)[..|q| - 1] == Raws(q[..|q| - 1]);
    }
  }

  lemma {:induction false} MemberFits(d: seq<Decision>, i: nat)
    requires i < |d|
    ensures d[i].rawLen + 1 <= DecisionBytes(d)
  {
    if i < |d| - 1 { MemberFits(d[..|d| - 1], i); }
  }

  ghost predicate DistinctIDs(q: seq<Queued>) {
    forall i, j :: 0 <= i < j < |q| ==> q[i].id != q[j].id
  }
}
