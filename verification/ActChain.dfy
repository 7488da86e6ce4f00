/** Token exchange: the nested `act` claim (section 4.1 of RFC 8693) and the lifetime
    of a token exchanged any number of times. */
module ActChain {
  import opened Decisions
  import opened DiskRotation
  import opened RotationRuns

  /** An `act` claim as far as the walk can tell: a subject, empty when it is missing
      or not a string, and a further `act` if that is an object. */
  datatype Act = Act(sub: string, act: Option<Act>)

  /** The delegation chain of a claim, root first: a claim without a subject adds nothing. */
  function Flatten(a: Act): seq<string>
    decreases a
  {
    (if a.act.Some? then Flatten(a.act.value) else []) + (if a.sub != "" then [a.sub] else [])
  }

  function Depth(a: Option<Act>): nat
    decreases a
  {
    if a.None? then 0 else 1 + Depth(a.value.act)
  }

  /** Subjects from the outermost claim inwards, as the walk meets them. */
  function Walk(a: Option<Act>): seq<string>
    decreases a
  {
    if a.None? then [] else (if a.value.sub != "" then [a.value.sub] else []) + Walk(a.value.act)
  }

  function Reverse(s: seq<string>): seq<string> { if s == [] then [] else Reverse(s[1..]) + [s[0]] }

  lemma {:induction false} ReverseAppend(a: seq<string>, b: seq<string>)
    ensures Reverse(a + b) == Reverse(b) + Reverse(a)
  {
    if a == [] { assert a + b == b && Reverse(b) + [] == Reverse(b); } else {
      assert (a + b)[1..] == a[1..] + b;
      ReverseAppend(a[1..], b);
    }
  }

  lemma {:induction false} FlattenIsReversedWalk(a: Act)
    ensures Flatten(a) == Reverse(Walk(Some(a)))
    decreases a
  {
    var own := if a.sub != "" then [a.sub] else [];
    assert Reverse(own) == own by { assert own == [] || own == [a.sub]; if own != [] { assert own[1..] == []; } }
    ReverseAppend(own, Walk(a.act));
    if a.act.Some? { FlattenIsReversedWalk(a.act.value); }
  }

  /** A claim adds its subject, if it has one, behind those it nests. */
  lemma {:induction false} FlattenExact(a: Act)
    ensures "" !in Flatten(a)
    ensures a.sub == "" ==> Flatten(a) == if a.act.Some? then Flatten(a.act.value) else []
    ensures a.sub != "" ==> Flatten(a) == (if a.act.Some? then Flatten(a.act.value) else []) + [a.sub]
    decreases a
  {
    if a.act.Some? { FlattenExact(a.act.value); }
  }

  lemma {:induction false} ReverseAt(s: seq<string>, k: nat)
    requires k < |s|
    ensures |Reverse(s)| == |s| && Reverse(s)[k] == s[|s| - 1 - k]
  {
    if |s| > 1 { ReverseAt(s[1..], if k < |s| - 1 then k else 0); }
  }

  lemma ReverseLength(s: seq<string>)
    ensures |Reverse(s)| == |s|
  {
  }

  /** `flattenActChain`: collect on the way in, then turn the list round in place. */
  method FlattenActChain(act: Act) returns (chain: seq<string>)
    ensures chain == Flatten(act)
  {
    var met: seq<string> := [];
    var cur := Some(act);
    while cur.Some?
      invariant met + Walk(cur) == Walk(Some(act))
      decreases Depth(cur)
    {
      var sub := cur.value.sub;
      if sub != "" { met := met + [sub]; }
      cur := cur.value.act;
    }
    assert met + [] == met;
    var stack := new string[|met|](i requires 0 <= i < |met| => met[i]);
    assert stack[..] == met;
    TurnRound(stack);
    FlattenIsReversedWalk(act);
    chain := stack[..];
  }

  /** Swap the ends, moving inwards. */
  method TurnRound(stack: array<string>)
    modifies stack
    ensures stack[..] == Reverse(old(stack[..]))
  {
    var i, j := 0, stack.Length - 1;
    while i < j
      invariant 0 <= i && i + j == stack.Length - 1 && i <= j + 1
      invariant forall k :: 0 <= k < i ==>
        stack[k] == old(stack[stack.Length - 1 - k]) && stack[stack.Length - 1 - k] == old(stack[k])
      invariant forall k :: i <= k <= j ==> stack[k] == old(stack[k])
    {
      stack[i], stack[j] := stack[j], stack[i];
      i, j := i + 1, j - 1;
    }
    ghost var was := old(stack[..]);
    ReverseLength(was);
    forall k | 0 <= k < stack.Length ensures stack[..][k] == Reverse(was)[k] { ReverseAt(was, k); }
  }

  // ---- Exchanges ------------------------------------------------------------------------

  /** A token: whom it is for, who delegated to them, and its expiry claim. */
  datatype Token = Token(sub: string, act: Option<Act>, exp: Option<Time>)

  /** The principals a token speaks for, root first, its own subject last. */
  function Chain(t: Token): seq<string> { (if t.act.Some? then Flatten(t.act.value) else []) + [t.sub] }

  /** A request to exchange a subject token for one of the actor's. The remaining life
      is taken at `now`, the expiry is set from a later reading of the clock. */
  datatype Request = Request(actor: string, ttl: Time, now: Time, signed: Time)

  predicate Expired(t: Token, now: Time) { t.exp.Some? && t.exp.value - now <= 0 }

  /** The remaining life of the subject token is all that is left to give. */
  predicate Capped(t: Token, r: Request) { t.exp.Some? && (r.ttl <= 0 || r.ttl > t.exp.value - r.now) }

  function CappedTTL(t: Token, r: Request): Time { if Capped(t, r) then t.exp.value - r.now else r.ttl }

  /** The token issued, once the subject token is accepted and policy allows it; an
      expired subject token is refused. */
  function Exchange(t: Token, r: Request): Option<Token> {
    if Expired(t, r.now) then None
    else Some(Token(r.actor, Some(Act(t.sub, t.act)), Some(Expiry(r.signed, CappedTTL(t, r)))))
  }

  /** An expiry claim is in whole seconds. */
  predicate WholeExpiry(t: Token) { t.exp.Some? ==> ToSecond(t.exp.value) == t.exp.value }

  /** What a request leaves of its subject token's remaining life. */
  function Spare(t: Token, r: Request): Time
    requires t.exp.Some?
  {
    t.exp.value - r.now - ClampTTL(CappedTTL(t, r))
  }

  /** The second reading comes less than a second more than that after the first. */
  predicate OnTime(t: Token, r: Request) {
    r.now <= r.signed && (t.exp.Some? ==> r.signed - r.now < SECOND + Spare(t, r))
  }

  /** The chain grows by the new actor at the end, and the token ends no later. */
  lemma ExchangeExtends(t: Token, r: Request)
    requires t.sub != "" && Exchange(t, r).Some? && WholeExpiry(t) && OnTime(t, r)
    ensures var t' := Exchange(t, r).value;
      && t'.sub == r.actor && Chain(t') == Chain(t) + [r.actor] && t'.exp.Some? && WholeExpiry(t')
      && (t.exp.Some? ==> t'.exp.value <= t.exp.value)
  {
  }

  /** For every request: the token issued ends no later than its subject token exactly
      when the time between taking the remaining life and setting the expiry is less
      than a second more than what the request leaves of that life, which is never
      negative. */
  lemma OutlivesIff(t: Token, r: Request)
    requires Exchange(t, r).Some? && t.exp.Some? && WholeExpiry(t) && r.now <= r.signed
    ensures Spare(t, r) >= 0
    ensures Exchange(t, r).value.exp.value <= t.exp.value <==> OnTime(t, r)
  {
  }

  /** An exchange is refused exactly when the subject token has expired. Otherwise the
      token names the actor, nests the subject, and lives for what was asked, or five
      minutes, or the rest of the subject token's life: never more than is left of it or
      a day, and less than that only by the part of a second its expiry is cut by. */
  lemma ExchangeGives(t: Token, r: Request)
    ensures Exchange(t, r).None? <==> t.exp.Some? && t.exp.value <= r.now
    ensures Exchange(t, r).Some? ==>
      var t' := Exchange(t, r).value;
      var asked := if r.ttl > 0 then r.ttl else if t.exp.Some? then 86400 * SECOND else 300 * SECOND;
      var left := if t.exp.Some? then Min(asked, t.exp.value - r.now) else asked;
      var life := Min(left, 86400 * SECOND);
      && t'.sub == r.actor && t'.act == Some(Act(t.sub, t.act)) && t'.exp.Some?
      && t'.exp.value <= r.signed + life < t'.exp.value + SECOND
  {
    LifetimeExact(r.signed, CappedTTL(t, r));
  }

  function Min(a: Time, b: Time): Time { if a < b then a else b }

  /** The handler's own order: the new claim, its chain for policy and audit, then the
      lifetime. The chain it reports is the one the issued token carries. */
  method ExchangeToken(t: Token, r: Request) returns (issued: Option<Token>, chain: seq<string>)
    requires t.sub != ""
    ensures issued == Exchange(t, r) && chain == Chain(t) + [r.actor]
    ensures issued.Some? ==> chain == Chain(issued.value)
  {
    var newAct := Act(t.sub, t.act);
    chain := FlattenActChain(newAct);
    chain := chain + [r.actor];
    var ttl := r.ttl;
    if t.exp.Some? {
      var remaining := t.exp.value - r.now;
      if remaining <= 0 { return None, chain; }
      if ttl <= 0 || ttl > remaining { ttl := remaining; }
    }
    issued := Some(Token(r.actor, Some(newAct), Some(Expiry(r.signed, ttl))));
  }

  /** A run of exchanges, each on the token the one before issued. */
  ghost predicate Exchanged(ts: seq<Token>, rs: seq<Request>) {
    && |ts| == |rs| + 1 && ts[0].sub != "" && WholeExpiry(ts[0])
    && forall i :: 0 <= i < |rs| ==>
         rs[i].actor != "" && OnTime(ts[i], rs[i]) && Exchange(ts[i], rs[i]) == Some(ts[i + 1])
  }

  function Actors(rs: seq<Request>): seq<string>
    decreases |rs|
  {
    if rs == [] then [] else Actors(rs[..|rs| - 1]) + [rs[|rs| - 1].actor]
  }

  /** Over any number of exchanges the chain is the first token's followed by the
      actors in order, so the root stays first, and the expiry passes that of no
      earlier token in the run that has one. */
  lemma {:induction false} DelegationIsBounded(ts: seq<Token>, rs: seq<Request>, n: nat)
    requires Exchanged(ts, rs) && n <= |rs|
    ensures ts[n].sub != "" && WholeExpiry(ts[n])
    ensures Chain(ts[n]) == Chain(ts[0]) + Actors(rs[..n]) && Chain(ts[n])[0] == Chain(ts[0])[0]
    ensures forall i :: 0 <= i < n && ts[i].exp.Some? ==> ts[n].exp.Some? && ts[n].exp.value <= ts[i].exp.value
  {
    hide Exchange, Chain, Flatten, WholeExpiry, OnTime;
    ChainNotEmpty(ts[0]);
    if n == 0 {
      assert rs[..0] == [];
    } else {
      DelegationIsBounded(ts, rs, n - 1);
      assert Exchange(ts[n - 1], rs[n - 1]) == Some(ts[n]);
      ExchangeExtends(ts[n - 1], rs[n - 1]);
      assert rs[..n][..n - 1] == rs[..n - 1];
      assert Chain(ts[0]) + Actors(rs[..n - 1]) + [rs[n - 1].actor] == Chain(ts[0]) + Actors(rs[..n]);
    }
  }

  lemma ChainNotEmpty(t: Token)
    ensures Chain(t) != []
  {
  }
}
