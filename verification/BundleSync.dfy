/** Loading signed policy bundles on the agent: the age and skew checks, the
    issue-time mark that refuses replayed bundles, and how old the policy behind
    a decision can be. */
module BundleSync {
  import opened Decisions

  const MAX_CLOCK_SKEW: Time := MINUTE

  datatype Config = Config(trustDomain: string, keyed: bool, maxAge: Time)

  /** `genuine`: revision and signature check out; `loads`: the engine takes it. */
  datatype Bundle = Bundle(revision: string, trustDomain: string, issuedAt: Time, genuine: bool, loads: bool)

  datatype Answer = Unreachable | NotModified | Refused | Fetched(bundle: Bundle)

  /** The clock readings of one sync: age check, future check, mark, synced. */
  datatype Readings = Readings(age: Time, ahead: Time, mark: Time, synced: Time)

  datatype Policy = Policy(
    loaded: Option<Bundle>,
    issuedAt: Option<Time>,      // the mark: newest signed issue time
    synced: Option<Time>,
    saved: Option<Time>)         // the mark as last written beside the spool

  const UNSYNCED := Policy(None, None, None, None)

  predicate Ordered(clock: Time, r: Readings) { clock <= r.age <= r.ahead <= r.mark <= r.synced }

  predicate Current(cfg: Config, p: Policy, b: Bundle, r: Readings) {
    && b.genuine
    && (p.issuedAt.Some? ==> b.issuedAt >= p.issuedAt.value - MAX_CLOCK_SKEW)
    && r.age - b.issuedAt <= cfg.maxAge
    && b.issuedAt - r.ahead <= MAX_CLOCK_SKEW
  }

  predicate Accepts(cfg: Config, p: Policy, b: Bundle, r: Readings) {
    && cfg.trustDomain != "" && b.trustDomain == cfg.trustDomain
    && (cfg.keyed ==> Current(cfg, p, b, r))
    && b.loads
  }

  function Capped(issuedAt: Time, now: Time): Time { if issuedAt > now then now else issuedAt }

  function Advanced(p: Policy, mark: Time): bool { p.issuedAt.None? || mark > p.issuedAt.value }

  function Synced(cfg: Config, p: Policy, ans: Answer, r: Readings, saves: bool): Policy {
    match ans
    case NotModified => if cfg.keyed then p else p.(synced := Some(r.synced))
    case Fetched(b) =>
      if !Accepts(cfg, p, b, r) then p
      else
        var mark := Capped(b.issuedAt, r.mark);
        Policy(Some(b),
               if Advanced(p, mark) then Some(mark) else p.issuedAt,
               Some(r.synced),
               if Advanced(p, mark) && saves then Some(mark) else p.saved)
    case _ => p
  }

  class Syncer {
    var loaded: Option<Bundle>
    var issuedAt: Option<Time>
    var synced: Option<Time>
    var saved: Option<Time>

    ghost function View(): Policy
      reads this
    {
      Policy(loaded, issuedAt, synced, saved)
    }

    /** A restarted agent takes up the saved mark. */
    constructor (mark: Option<Time>)
      ensures View() == UNSYNCED.(issuedAt := mark, saved := mark)
    {
      loaded, issuedAt, synced, saved := None, mark, None, mark;
    }

    method Sync(cfg: Config, ans: Answer, r: Readings, saves: bool) returns (ok: bool)
      modifies this
      ensures View() == Synced(cfg, old(View()), ans, r, saves)
      ensures ok <==>
        || (ans.NotModified? && !cfg.keyed)
        || (&& ans.Fetched? && ans.bundle.loads && ans.bundle.trustDomain == cfg.trustDomain != ""
            && (cfg.keyed ==>
                  && ans.bundle.genuine && r.age - ans.bundle.issuedAt <= cfg.maxAge
                  && ans.bundle.issuedAt - r.ahead <= MAX_CLOCK_SKEW
                  && (old(issuedAt).Some? ==> old(issuedAt).value - ans.bundle.issuedAt <= MAX_CLOCK_SKEW)))
      ensures ok ==> synced == Some(r.synced) && loaded == if ans.Fetched? then Some(ans.bundle) else old(loaded)
      ensures !ok ==> View() == old(View())
    {
      if ans.NotModified? {
        if cfg.keyed { return false; }
        synced := Some(r.synced);
        return true;
      }
      if !ans.Fetched? { return false; }
      var b := ans.bundle;
      if cfg.trustDomain == "" || b.trustDomain != cfg.trustDomain { return false; }
      if cfg.keyed {
        if !b.genuine { return false; }
        if issuedAt.Some? && b.issuedAt < issuedAt.value - MAX_CLOCK_SKEW { return false; }
        if r.age - b.issuedAt > cfg.maxAge { return false; }
        if b.issuedAt - r.ahead > MAX_CLOCK_SKEW { return false; }
      }
      if !b.loads { return false; }
      loaded := Some(b);
      var mark := b.issuedAt;
      if mark > r.mark { mark := r.mark; }
      var advanced := issuedAt.None? || mark > issuedAt.value;
      if advanced { issuedAt := Some(mark); }
      synced := Some(r.synced);
      if advanced && saves { saved := Some(mark); }
      return true;
    }
  }

  // ---- Runs ---------------------------------------------------------------

  datatype Event = Sync(ans: Answer, r: Readings, saves: bool) | Restart

  /** The agent and its clock, with when the loaded bundle passed its age check. */
  datatype World = World(p: Policy, clock: Time, checked: Time)

  predicate Possible(w: World, e: Event) { e.Sync? ==> Ordered(w.clock, e.r) }

  function Step(cfg: Config, w: World, e: Event): World {
    match e
    case Sync(ans, r, saves) =>
      World(Synced(cfg, w.p, ans, r, saves), r.synced,
            if ans.Fetched? && Accepts(cfg, w.p, ans.bundle, r) then r.age else w.checked)
    case Restart => World(UNSYNCED.(issuedAt := w.p.saved, saved := w.p.saved), w.clock, w.checked)
  }

  predicate AtMost(m: Option<Time>, t: Time) { m.Some? ==> m.value <= t }

  /** Marks are bounded by the clock, and the loaded bundle was young when checked. */
  ghost predicate Inv(cfg: Config, w: World) {
    && AtMost(w.p.issuedAt, w.clock) && AtMost(w.p.synced, w.clock)
    && (w.p.saved.Some? ==> w.p.issuedAt.Some? && w.p.saved.value <= w.p.issuedAt.value)
    && (w.p.synced.Some? ==>
          && w.p.loaded.Some? && w.checked <= w.p.synced.value
          && w.checked - w.p.loaded.value.issuedAt <= cfg.maxAge)
  }

  ghost predicate Run(cfg: Config, w: World, es: seq<Event>, w': World)
    decreases |es|
  {
    if es == [] then w == w' else Possible(w, es[0]) && Run(cfg, Step(cfg, w, es[0]), es[1..], w')
  }

  lemma {:induction false} RunInv(cfg: Config, w: World, es: seq<Event>, w': World)
    requires cfg.keyed && Inv(cfg, w) && Run(cfg, w, es, w')
    ensures Inv(cfg, w') && w.clock <= w'.clock
    ensures w.p.saved.Some? ==> w'.p.saved.Some? && w.p.saved.value <= w'.p.saved.value
    ensures (forall i :: 0 <= i < |es| ==> !es[i].Restart?) && w.p.issuedAt.Some? ==>
      w'.p.issuedAt.Some? && w.p.issuedAt.value <= w'.p.issuedAt.value
    decreases |es|
  {
    if es != [] {
      RunInv(cfg, Step(cfg, w, es[0]), es[1..], w');
      assert (forall i :: 0 <= i < |es| ==> !es[i].Restart?) ==>
        !es[0].Restart? && forall i :: 0 <= i < |es[1..]| ==> !es[1..][i].Restart?;
    }
  }

  /** With a bundle key: the mark never falls while the process runs, a saved mark
      never falls at all, neither passes the clock, and a bundle is accepted only
      if issued no more than the skew before the mark. */
  lemma MarkIsAHighWaterMark(cfg: Config, es: seq<Event>, w: World, t: Time, ans: Answer, r: Readings, saves: bool)
    requires cfg.keyed && Run(cfg, World(UNSYNCED, t, t), es, w) && Ordered(w.clock, r)
    ensures AtMost(w.p.issuedAt, w.clock) && AtMost(w.p.saved, w.clock)
    ensures var p' := Synced(cfg, w.p, ans, r, saves);
      && (w.p.issuedAt.Some? ==> p'.issuedAt.Some? && w.p.issuedAt.value <= p'.issuedAt.value)
      && (p'.synced != w.p.synced && w.p.issuedAt.Some? ==>
            ans.Fetched? && ans.bundle.issuedAt >= w.p.issuedAt.value - MAX_CLOCK_SKEW)
  {
    RunInv(cfg, World(UNSYNCED, t, t), es, w);
  }

  /** What the loaded bundle passed. */
  predicate Passed(cfg: Config, p: Policy) {
    p.loaded.Some? ==>
      && p.loaded.value.loads && p.loaded.value.trustDomain == cfg.trustDomain != ""
      && (cfg.keyed ==> p.loaded.value.genuine)
  }

  lemma {:induction false} RunPassed(cfg: Config, w: World, es: seq<Event>, w': World)
    requires Run(cfg, w, es, w') && Passed(cfg, w.p)
    ensures Passed(cfg, w'.p)
    decreases |es|
  {
    if es != [] { RunPassed(cfg, Step(cfg, w, es[0]), es[1..], w'); }
  }

  /** Over every run the policy in use is a bundle of the agent's own trust domain that
      the engine takes and, with a bundle key, that the control plane signed. */
  lemma LoadedIsGenuine(cfg: Config, es: seq<Event>, w: World, t: Time)
    requires Run(cfg, World(UNSYNCED, t, t), es, w) && w.p.loaded.Some?
    ensures w.p.loaded.value.loads && w.p.loaded.value.trustDomain == cfg.trustDomain != ""
    ensures cfg.keyed ==> w.p.loaded.value.genuine
  {
    RunPassed(cfg, World(UNSYNCED, t, t), es, w);
  }

  /** A signed bundle of that domain, young enough, not from the future and not older
      than the mark by more than a minute, is loaded and stamped, and the mark moves to
      its issue time, or to the clock if that is behind, but never back. */
  lemma GenuineIsLoaded(cfg: Config, p: Policy, b: Bundle, r: Readings, saves: bool)
    requires b.genuine && b.loads && b.trustDomain == cfg.trustDomain != ""
    requires r.age - b.issuedAt <= cfg.maxAge && b.issuedAt - r.ahead <= 60 * SECOND
    requires p.issuedAt.Some? ==> p.issuedAt.value - b.issuedAt <= 60 * SECOND
    ensures var p' := Synced(cfg, p, Fetched(b), r, saves);
      && p'.loaded == Some(b) && p'.synced == Some(r.synced) && p'.issuedAt.Some?
      && (p.issuedAt.Some? ==> p'.issuedAt.value >= p.issuedAt.value)
      && (p'.issuedAt.value >= b.issuedAt || p'.issuedAt.value >= r.mark)
      && (p'.issuedAt == p.issuedAt || (p'.issuedAt.value <= b.issuedAt && p'.issuedAt.value <= r.mark))
      && p'.saved == if saves && p'.issuedAt != p.issuedAt then p'.issuedAt else p.saved
  {
  }

  /** The freshness check of an evaluation. */
  predicate Decides(cfg: Config, p: Policy, now: Time) { p.synced.Some? && now - p.synced.value <= cfg.maxAge }

  /** A decision admitted at `now` uses a bundle no older than twice the maximum
      age plus the time the sync took after its age check. */
  lemma DecisionAge(cfg: Config, es: seq<Event>, w: World, t: Time, now: Time)
    requires cfg.keyed && Run(cfg, World(UNSYNCED, t, t), es, w)
    requires Decides(cfg, w.p, now)
    ensures w.p.loaded.Some?
    ensures now - w.p.loaded.value.issuedAt <= 2 * cfg.maxAge + (w.p.synced.value - w.checked)
  {
    RunInv(cfg, World(UNSYNCED, t, t), es, w);
  }

  /** Twice the maximum age bounds every later decision exactly when the bundle was
      within the maximum age at the moment the sync was stamped. */
  lemma TwiceMaxAgeIff(cfg: Config, w: World)
    requires w.p.synced.Some? && w.p.loaded.Some?
    ensures (forall now :: Decides(cfg, w.p, now) ==> now - w.p.loaded.value.issuedAt <= 2 * cfg.maxAge)
        <==> w.p.synced.value - w.p.loaded.value.issuedAt <= cfg.maxAge
  {
    var last := w.p.synced.value + cfg.maxAge;
    assert Decides(cfg, w.p, last);
  }

  /** A sync that loads slowly lets a decision pass on an older bundle than that. */
  lemma SlowLoadExceeds()
    ensures var cfg := Config("td", true, 60 * SECOND);
      var w := Step(cfg, World(UNSYNCED, 100 * SECOND, 0),
                    Sync(Fetched(Bundle("r", "td", 40 * SECOND, true, true)),
                         Readings(100 * SECOND, 100 * SECOND, 105 * SECOND, 105 * SECOND), true));
      && w.p.synced == Some(105 * SECOND)
      && Decides(cfg, w.p, 165 * SECOND)
      && 165 * SECOND - 40 * SECOND > 2 * cfg.maxAge
  {
  }
}
