/** The durable spiffe_sequence: the number served with the trust material, kept in a
    store so that it never goes back across a restart. A digest stands for the
    material. */
module BundleSequence {
  import opened Decisions

  const RECHECK: Time := 30 * SECOND
  const MAX_STORED := 0x1_0000_0000_0000

  /** A number and the material it stands for; the store holds one. */
  datatype Numbered = Numbered(seqNo: int, digest: string)

  const NOT_STORED := Numbered(0, "")

  datatype Process = Process(seqNo: int, digest: string, srcSeq: int, retryAt: Option<Time>, resyncAt: Option<Time>)

  const STARTING := Process(0, "", 0, None, None)

  function Pair(p: Process): Numbered { Numbered(p.seqNo, p.digest) }

  datatype SaveOutcome = Saved | NotLeader | SaveFailed

  /** One call: the digest if the material can be read, the source's own count, and
      what the clock, the locks and the store do. */
  datatype Call = Call(digest: Option<string>, srcSeq: int, now: Time, ioFree: bool, readable: bool, later: Time,
                       save: SaveOutcome)

  /** A digest is never empty. */
  predicate WellFormed(c: Call) { c.digest.Some? ==> c.digest.value != "" }

  /** Whether the call goes to the store at all. */
  predicate Numbers(p: Process, c: Call) {
    && c.digest.Some?
    && !(c.digest.value == p.digest && (p.resyncAt.None? || c.now < p.resyncAt.value))
    && !(p.retryAt.Some? && c.now < p.retryAt.value)
    && c.ioFree
  }

  predicate InRange(stored: Numbered) { 0 <= stored.seqNo <= MAX_STORED }

  function Max(a: int, b: int): int { if a < b then b else a }

  /** The number of new material. */
  function Assign(p: Process, stored: Numbered, digest: string, srcSeq: int): int {
    if stored.digest == digest && (stored.seqNo > p.seqNo || p.seqNo == 0) then stored.seqNo
    else Max(p.seqNo, stored.seqNo) + (if p.seqNo == 0 || srcSeq - p.srcSeq < 1 then 1 else srcSeq - p.srcSeq)
  }

  predicate NewMaterial(p: Process, stored: Numbered, c: Call) {
    Numbers(p, c) && c.readable && InRange(stored) && c.digest.value != p.digest
  }

  predicate Saves(p: Process, stored: Numbered, c: Call) {
    NewMaterial(p, stored, c) && Numbered(Assign(p, stored, c.digest.value, c.srcSeq), c.digest.value) != stored
  }

  /** The process after a call. */
  function Serve(p: Process, stored: Numbered, c: Call): Process {
    if !Numbers(p, c) then p
    else if !c.readable || !InRange(stored) then p.(retryAt := Some(c.later + RECHECK))
    else if c.digest.value == p.digest then
      p.(seqNo := if stored.digest == p.digest && stored.seqNo > p.seqNo then stored.seqNo else p.seqNo,
         resyncAt := Some(c.later + RECHECK))
    else
      var q := p.(seqNo := Assign(p, stored, c.digest.value, c.srcSeq), digest := c.digest.value, srcSeq := c.srcSeq);
      if !Saves(p, stored, c) then q
      else q.(resyncAt := if c.save.NotLeader? then Some(c.later + RECHECK) else None)
  }

  /** A save only ever moves the store forward. */
  function Forward(stored: Numbered, n: Numbered): (after: Numbered)
    ensures after.seqNo >= stored.seqNo && after.seqNo >= n.seqNo
    ensures after == stored || (after == n && after.seqNo > stored.seqNo)
  {
    if stored.seqNo < n.seqNo then n else stored
  }

  function Store(p: Process, stored: Numbered, c: Call): Numbered {
    if Saves(p, stored, c) && c.save.Saved? then Forward(stored, Pair(Serve(p, stored, c))) else stored
  }

  /** New material is numbered at once, above every number served, unless a failed read
      was less than its hold-off ago or the store is taken. */
  lemma NewMaterialNumbered(p: Process, stored: Numbered, c: Call)
    requires c.digest.Some? && c.digest.value != p.digest && c.ioFree && c.readable
    requires (p.retryAt.Some? ==> p.retryAt.value <= c.now) && 0 <= stored.seqNo <= 0x1_0000_0000_0000
    ensures var q := Serve(p, stored, c);
      && q.digest == c.digest.value && q.srcSeq == c.srcSeq
      && (0 < p.seqNo ==> p.seqNo < q.seqNo)
      && (stored.digest != c.digest.value ==> stored.seqNo < q.seqNo)
      && (c.save.Saved? && stored.seqNo < q.seqNo ==> Store(p, stored, c) == Pair(q))
  {
  }

  /** A store that cannot be read, or holds a number that cannot be one, changes nothing
      and is left alone for thirty seconds; so is one in use. */
  lemma HoldsOff(p: Process, stored: Numbered, c: Call, stored': Numbered, c': Call)
    requires !c.readable || stored.seqNo < 0 || stored.seqNo > 0x1_0000_0000_0000 || !c.ioFree || c.digest.None?
    ensures var q := Serve(p, stored, c);
      && Pair(q) == Pair(p) && Store(p, stored, c) == stored
      && (q == p || q == p.(retryAt := Some(c.later + 30 * SECOND)))
      && (q != p && c'.now < c.later + 30 * SECOND ==> Serve(q, stored', c') == q && Store(q, stored', c') == stored')
      && (c.digest.Some? && c.digest.value != p.digest && c.ioFree && (p.retryAt.Some? ==> p.retryAt.value <= c.now) ==>
            q.retryAt == Some(c.later + 30 * SECOND))
  {
  }

  /** A replica that may not write reads again after thirty seconds, not before, and
      takes up a higher number stored for the same material. */
  lemma ReplicaRechecks(p: Process, stored: Numbered, c: Call, stored': Numbered, c': Call)
    requires c.save.NotLeader? && Numbers(p, c) && c.readable && InRange(stored)
    requires c.digest.value == p.digest || Pair(Serve(p, stored, c)) != stored
    requires c'.digest == c.digest && c'.ioFree && c'.readable && InRange(stored')
    ensures var q := Serve(p, stored, c);
      && (c'.now < c.later + 30 * SECOND ==> Serve(q, stored', c') == q)
      && (c'.now >= c.later + 30 * SECOND && (q.retryAt.Some? ==> q.retryAt.value <= c'.now) ==>
            Serve(q, stored', c').seqNo ==
              if stored'.digest == q.digest && stored'.seqNo > q.seqNo then stored'.seqNo else q.seqNo)
  {
  }

  // ---- One writer whose saves succeed ------------------------------------------------

  /** Calls and restarts of the writer. A start numbers the material at once or fails. */
  datatype Event = Serving(call: Call) | Restart

  datatype World = World(process: Process, stored: Numbered)

  function Next(w: World, e: Event): World {
    match e
    case Serving(c) => World(Serve(w.process, w.stored, c), Store(w.process, w.stored, c))
    case Restart => World(STARTING, w.stored)
  }

  predicate Writes(e: Event) { e.Serving? ==> WellFormed(e.call) && e.call.save.Saved? }

  predicate Run(ws: seq<World>, es: seq<Event>) {
    && |ws| == |es| + 1 && ws[0] == World(STARTING, NOT_STORED)
    && forall i :: 0 <= i < |es| ==> Writes(es[i]) && ws[i + 1] == Next(ws[i], es[i])
  }

  /** What a running writer serves is what the store holds. */
  predicate WriterInv(w: World) {
    && 0 <= w.stored.seqNo && (w.stored.digest == "" <==> w.stored.seqNo == 0)
    && (w.process == STARTING.(retryAt := w.process.retryAt) || (Pair(w.process) == w.stored && 0 < w.process.seqNo))
  }

  /** The number stays with unchanged material and rises strictly with a change. */
  predicate Advances(a: Numbered, b: Numbered) { a == b || (a.seqNo < b.seqNo && a.digest != b.digest) }

  lemma WriterStep(w: World, e: Event)
    requires WriterInv(w) && Writes(e)
    ensures WriterInv(Next(w, e)) && Advances(w.stored, Next(w, e).stored)
  {
  }

  lemma {:induction false} RunInv(ws: seq<World>, es: seq<Event>, n: nat)
    requires Run(ws, es) && n <= |es|
    ensures WriterInv(ws[n])
  {
    hide Next, Writes;
    if n > 0 {
      RunInv(ws, es, n - 1);
      WriterStep(ws[n - 1], es[n - 1]);
    }
  }

  lemma {:induction false} StoredAdvances(ws: seq<World>, es: seq<Event>, i: nat, j: nat)
    requires Run(ws, es) && i <= j <= |es|
    ensures ws[i].stored.seqNo <= ws[j].stored.seqNo
    ensures ws[i].stored.seqNo == ws[j].stored.seqNo ==> ws[i].stored == ws[j].stored
    decreases j
  {
    hide Next, Writes, WriterInv;
    if i < j {
      StoredAdvances(ws, es, i, j - 1);
      RunInv(ws, es, j - 1);
      WriterStep(ws[j - 1], es[j - 1]);
    }
  }

  /** Across any number of restarts the numbers served never go back, equal numbers
      stand for equal material, and a change of material has a higher number. */
  lemma NumbersNeverGoBack(ws: seq<World>, es: seq<Event>, i: nat, j: nat)
    requires Run(ws, es) && i <= j <= |es| && ws[i].process.digest != "" && ws[j].process.digest != ""
    ensures ws[i].process.seqNo <= ws[j].process.seqNo
    ensures ws[i].process.seqNo == ws[j].process.seqNo ==> ws[i].process.digest == ws[j].process.digest
    ensures ws[i].process.digest != ws[j].process.digest ==> ws[i].process.seqNo < ws[j].process.seqNo
  {
    hide Next, Writes;
    RunInv(ws, es, i);
    RunInv(ws, es, j);
    StoredAdvances(ws, es, i, j);
  }

  /** And material that has not changed since it was numbered keeps its number, even
      if a restart comes between. */
  lemma UnchangedKeepsNumber(ws: seq<World>, es: seq<Event>, i: nat, c: Call)
    requires Run(ws, es) && i <= |es| && WellFormed(c) && c.save.Saved? && ws[i].process.digest != ""
    requires c.digest == Some(ws[i].process.digest)
    ensures Serve(ws[i].process, ws[i].stored, c).seqNo == ws[i].process.seqNo
    ensures Numbers(STARTING, c) && c.readable && InRange(ws[i].stored) ==>
      Pair(Serve(STARTING, ws[i].stored, c)) == Pair(ws[i].process)
  {
    hide Next, Writes;
    RunInv(ws, es, i);
  }

  /** A change seen by a running writer moves the number by as many changes as the
      source counted, and by at least one. */
  lemma ChangeAddsSourceCount(ws: seq<World>, es: seq<Event>, i: nat, c: Call)
    requires Run(ws, es) && i <= |es| && ws[i].process.digest != "" && NewMaterial(ws[i].process, ws[i].stored, c)
    ensures Serve(ws[i].process, ws[i].stored, c).seqNo == ws[i].process.seqNo + Max(1, c.srcSeq - ws[i].process.srcSeq)
  {
    hide Next, Writes;
    RunInv(ws, es, i);
  }

  /** A failed save shows only after a restart: with the store at or behind the number
      served, material that changed meanwhile gets a higher number than was served
      exactly when that number had been saved. */
  lemma HigherAfterRestartIff(p: Process, stored: Numbered, c: Call)
    requires 0 < p.seqNo && 0 <= stored.seqNo && (stored.seqNo < p.seqNo || stored == Pair(p))
    requires WellFormed(c) && Numbers(STARTING, c) && c.readable && InRange(stored) && c.digest != Some(p.digest)
    ensures Serve(STARTING, stored, c).seqNo > p.seqNo <==> stored == Pair(p)
  {
  }

  // ---- A replica that may not write ---------------------------------------------------

  /** Whatever the store holds at each call, the number never falls; and when a call
      reads the store and finds its material there, it serves at least that number. */
  lemma ReplicaStep(p: Process, stored: Numbered, c: Call)
    requires WellFormed(c) && 0 <= p.seqNo
    ensures p.seqNo <= Serve(p, stored, c).seqNo && Store(p, stored, c.(save := NotLeader)) == stored
    ensures Numbers(p, c) && c.readable && InRange(stored) && stored.digest == c.digest.value ==>
      Serve(p, stored, c).digest == stored.digest && stored.seqNo <= Serve(p, stored, c).seqNo
    ensures Serve(p, stored, c).digest != p.digest && 0 < p.seqNo ==> p.seqNo < Serve(p, stored, c).seqNo
  {
  }

  /** The replica after each call, given what the store held at it. */
  function Replica(stored: seq<Numbered>, calls: seq<Call>): Process
    requires |stored| == |calls|
    decreases |calls|
  {
    if calls == [] then STARTING
    else Serve(Replica(stored[..|calls| - 1], calls[..|calls| - 1]), stored[|calls| - 1], calls[|calls| - 1])
  }

  lemma {:induction false} ReplicaNeverFalls(stored: seq<Numbered>, calls: seq<Call>, n: nat)
    requires |stored| == |calls| && n <= |calls| && forall i :: 0 <= i < |calls| ==> WellFormed(calls[i])
    ensures 0 <= Replica(stored[..n], calls[..n]).seqNo <= Replica(stored, calls).seqNo
    decreases |calls|
  {
    hide Serve, WellFormed;
    if n == |calls| {
      assert stored[..n] == stored && calls[..n] == calls;
      if calls != [] {
        var k := |calls| - 1;
        ReplicaNeverFalls(stored[..k], calls[..k], 0);
        ReplicaStep(Replica(stored[..k], calls[..k]), stored[k], calls[k]);
      }
    } else {
      var k := |calls| - 1;
      assert stored[..k][..n] == stored[..n] && calls[..k][..n] == calls[..n];
      ReplicaNeverFalls(stored[..k], calls[..k], n);
      ReplicaStep(Replica(stored[..k], calls[..k]), stored[k], calls[k]);
    }
  }

  // ---- The sequence as an object ---------------------------------------------------------

  class Ledger {
    var seqNo: int
    var digest: string

    ghost function View(): Numbered
      reads this
    {
      Numbered(seqNo, digest)
    }

    constructor ()
      ensures View() == NOT_STORED
    {
      seqNo, digest := 0, "";
    }

    /** `SaveBundleSequence`: a lower or equal number leaves the row as it is. */
    method Save(n: int, d: string, outcome: SaveOutcome)
      modifies this
      ensures View() == if outcome.Saved? then Forward(old(View()), Numbered(n, d)) else old(View())
      ensures View() == if outcome.Saved? && n > old(seqNo) then Numbered(n, d) else old(View())
    {
      if outcome.Saved? && seqNo < n { seqNo, digest := n, d; }
    }
  }

  class DurableSequence {
    const ledger: Ledger
    var seqNo: int
    var digest: string
    var srcSeq: int
    var retryAt: Option<Time>
    var resyncAt: Option<Time>

    ghost function View(): Process
      reads this
    {
      Process(seqNo, digest, srcSeq, retryAt, resyncAt)
    }

    constructor (ledger: Ledger)
      ensures View() == STARTING && this.ledger == ledger
    {
      this.ledger := ledger;
      seqNo, digest, srcSeq, retryAt, resyncAt := 0, "", 0, None, None;
    }

    /** `next`: the last number unless there is new material to number or a re-read due. */
    method NextNumber(c: Call) returns (n: int)
      modifies this, ledger
      ensures View() == Serve(old(View()), old(ledger.View()), c)
      ensures ledger.View() == Store(old(View()), old(ledger.View()), c)
      ensures n == seqNo
    {
      hide Assign;
      if c.digest.None? { return seqNo; }
      var current := c.digest.value == digest && (resyncAt.None? || c.now < resyncAt.value);
      var holdOff := retryAt.Some? && c.now < retryAt.value;
      if current || holdOff || !c.ioFree { return seqNo; }
      n := Number(c);
    }

    /** `number`: read the store, number the material, store the number. */
    method Number(c: Call) returns (n: int)
      requires Numbers(View(), c)
      modifies this, ledger
      ensures View() == Serve(old(View()), old(ledger.View()), c)
      ensures ledger.View() == Store(old(View()), old(ledger.View()), c)
      ensures n == seqNo
    {
      var stored, storedDigest, d := ledger.seqNo, ledger.digest, c.digest.value;
      if !c.readable || stored < 0 || stored > MAX_STORED {
        retryAt := Some(c.later + RECHECK);
        return seqNo;
      }
      if d == digest {
        if storedDigest == d && stored > seqNo { seqNo := stored; }
        resyncAt := Some(c.later + RECHECK);
        return seqNo;
      }
      if storedDigest == d && (stored > seqNo || seqNo == 0) {
        n := stored;
      } else {
        var step := c.srcSeq - srcSeq;
        if seqNo == 0 || step < 1 { step := 1; }
        n := Max(seqNo, stored) + step;
      }
      seqNo, digest, srcSeq := n, d, c.srcSeq;
      if n == stored && storedDigest == d { return n; }
      ledger.Save(n, d, c.save);
      resyncAt := if c.save.NotLeader? then Some(c.later + RECHECK) else None;
    }
  }
}
