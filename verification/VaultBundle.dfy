/** The bundle cache of an external-issuer backend, over the overlap. Every method
    that changes it runs under the backend's refresh lock. */
module VaultBundle {
  import opened Decisions
  import opened CaOverlap
  import opened CaOverlapRuns
  import opened KeptEvents
  import opened CaKeeper

  const REFRESH_BACKOFF: Time := 30 * SECOND

  class Backend {
    const overlap: Keeper
    const bundleTTL: Time
    var bundle: seq<Cert>
    var bundleExp: Time
    /** The readings the cached bundle was served at and its expiry counted from. */
    ghost var servedAt: Time
    ghost var stampedAt: Time

    /** Between methods the cached bundle is the one the overlap last served, at a moment
        when everything it keeps was live, and is cached for no more than the TTL. */
    ghost predicate Valid()
      reads this, overlap
    {
      && OverlapInv(overlap.View()) && overlap.loaded && overlap.fetched != [] && overlap.served == Some(bundle)
      && LiveAt(overlap.View(), servedAt) && bundleExp <= stampedAt + bundleTTL
    }

    /** A CA the issuer does not publish any more is handed out at `at` only before its
        end, or past it by less than the TTL and the time from serving to stamping. */
    ghost predicate InTime(c: Cert, at: Time)
      reads this, overlap
    {
      && c in overlap.retired
      && var until := overlap.retired[c].until; at < until || at - until < bundleTTL + (stampedAt - servedAt)
    }

    /** The boot probe: a backend exists only once a first bundle was fetched. */
    constructor (grace: Time, ttl: Time, blocks: seq<Block>, now: Time, after: Time)
      requires Parsed(blocks) != []
      ensures Valid() && fresh(overlap) && overlap.fetched == Parsed(blocks)
      ensures bundle == Parsed(blocks)
    {
      bundleTTL := ttl;
      var keeper := new Keeper(grace);
      FreshInv(grace);
      UpdateServes(Fresh(grace), Parsed(blocks), None, now);
      var served := keeper.Update(blocks, None, now);
      BootedKeepsNone(grace, Parsed(blocks), now);
      overlap := keeper;
      bundle := served.value;
      bundleExp := after + ttl;
      servedAt, stampedAt := now, after;
    }

    /** `refreshBundle`: `fetch` is the issuer's bundle, or None when it cannot be read. */
    method RefreshBundle(fetch: Option<seq<Block>>, load: Option<seq<Row>>, now: Time, after: Time) returns (ok: bool)
      requires Valid() && (load.Some? ==> DistinctRows(load.value))
      modifies this, overlap
      ensures Valid() && overlap.distrusted == old(overlap.distrusted)
      ensures ok <==> fetch.Some? && Parsed(fetch.value) != []
      ensures ok ==> overlap.fetched == Parsed(fetch.value) && ServedAt(overlap.View(), Parsed(fetch.value), now)
      ensures ok ==> overlap.View() == Update(old(overlap.View()), Parsed(fetch.value),
                                              if old(overlap.attached) then load else None, now)
      ensures ok ==> servedAt == now && stampedAt == after && bundleExp == after + bundleTTL
      ensures !ok ==> overlap.View() == old(overlap.View()) && bundle == old(bundle) && bundleExp == old(bundleExp)
    {
      hide Update, OverlapInv, Misreported;
      if fetch.None? { return false; }
      ghost var o := overlap.View();
      UpdateServes(o, Parsed(fetch.value), if overlap.attached then load else None, now);
      var served := overlap.Update(fetch.value, load, now);
      if served.None? { return false; }
      bundle := served.value;
      bundleExp := after + bundleTTL;
      servedAt, stampedAt := now, after;
      return true;
    }

    /** `BundlePEM`: the cached bundle while it is fresh, else a refresh, else what the
        last fetch still supports. `t1`..`t4` are its clock readings in order, and `at`
        the one that settles what is returned. */
    method BundlePEM(t1: Time, t2: Time, fetch: Option<seq<Block>>, load: Option<seq<Row>>, t3: Time, t4: Time)
      returns (out: seq<Cert>, ghost at: Time)
      requires Valid() && (load.Some? ==> DistinctRows(load.value))
      modifies this, overlap
      ensures Valid() && out == bundle && overlap.distrusted == old(overlap.distrusted)
      ensures t1 < old(bundleExp) || t2 < old(bundleExp) ==>
        out == old(bundle) && overlap.View() == old(overlap.View()) && bundleExp == old(bundleExp)
      ensures t1 >= old(bundleExp) && t2 >= old(bundleExp) && fetch.Some? && Parsed(fetch.value) != [] ==>
        && overlap.fetched == Parsed(fetch.value) && ServedAt(overlap.View(), Parsed(fetch.value), t3)
        && overlap.View() == Update(old(overlap.View()), Parsed(fetch.value),
                                    if old(overlap.attached) then load else None, t3)
        && bundleExp == t4 + bundleTTL
      ensures t1 >= old(bundleExp) && t2 >= old(bundleExp) && (fetch.None? || Parsed(fetch.value) == []) ==>
        && overlap.View() == Serve(old(overlap.View()), t3) && ServedAt(overlap.View(), old(overlap.fetched), t3)
        && bundleExp == t4 + Min(bundleTTL, 30 * SECOND)
      ensures forall c :: c in out && c in old(overlap.distrusted) ==> c in overlap.fetched
      ensures at in {t1, t2, t3} && forall c :: c in out && c !in overlap.fetched ==> InTime(c, at)
    {
      hide OverlapInv, Serve, Ordered;
      ServedOmitsDistrusted(overlap.View());
      ServedOrKept(overlap.View());
      if bundle != [] && t1 < bundleExp { return bundle, t1; }
      if bundle != [] && t2 < bundleExp { return bundle, t2; }
      var ok := RefreshBundle(fetch, load, t3, t4);
      if !ok {
        ServeServes(overlap.View(), t3);
        var served := overlap.Serve(t3);
        if served.value != [] {
          bundle := served.value;
          bundleExp := t4 + Min(bundleTTL, REFRESH_BACKOFF);
          servedAt, stampedAt := t3, t4;
        }
      }
      ServedOmitsDistrusted(overlap.View());
      ServedOrKept(overlap.View());
      out, at := bundle, t3;
    }

    /** `UseCAStore`: take the stored rows up and serve them at once. */
    method UseCAStore(load: Option<seq<Row>>, t1: Time, t2: Time) returns (ok: bool)
      requires Valid() && (load.Some? ==> DistinctRows(load.value))
      modifies this, overlap
      ensures Valid() && ok == load.Some? && overlap.distrusted == old(overlap.distrusted)
      ensures overlap.fetched == old(overlap.fetched) && bundleExp == old(bundleExp)
      ensures ok ==> overlap.View() == Serve(Attach(old(overlap.View()), load.value, t1), t2)
      ensures ok ==> overlap.attached && ServedAt(overlap.View(), overlap.fetched, t2)
      ensures !ok ==> overlap.View() == old(overlap.View()) && bundle == old(bundle)
      ensures forall c :: c in bundle && c in overlap.distrusted ==> c in overlap.fetched
    {
      hide OverlapInv, Serve, Attach, Misreported;
      ServedOmitsDistrusted(overlap.View());
      if load.Some? { AttachServes(overlap.View(), load.value, t1); }
      ok := overlap.AttachStore(load, t1);
      if !ok { return; }
      ServeServes(overlap.View(), t2);
      var served := overlap.Serve(t2);
      bundle := served.value;
      servedAt := t2;
      ServedOmitsDistrusted(overlap.View());
    }

    /** `DistrustCAs`: when it returns, no bundle served from the cache contains a
        listed CA unless the issuer's last fetched bundle does. */
    method DistrustCAs(out: set<Cert>, t1: Time, t2: Time) returns (n: nat)
      requires Valid()
      modifies this, overlap
      ensures Valid() && overlap.distrusted == out && overlap.fetched == old(overlap.fetched)
      ensures n == |old(overlap.retired).Keys * out| && bundleExp == old(bundleExp)
      ensures forall c :: c in bundle && c in out ==> c in overlap.fetched
      ensures overlap.View() ==
        var o := Distrust(old(overlap.View()), out, t1); if n > 0 then Serve(o, t2) else o
      ensures forall c | c in old(overlap.retired) && c !in out
                         && t1 < old(overlap.retired)[c].until && t2 < old(overlap.retired)[c].until ::
        c in bundle && c in overlap.retired && overlap.retired[c] == old(overlap.retired)[c]
    {
      hide OverlapInv, Serve, Distrust, Ordered, SequenceFollows;
      ghost var o := overlap.View();
      DistrustServes(o, out, t1);
      UntouchedServed(o, out, t1);
      forall c ensures c in o.retired && c !in out && t1 < o.retired[c].until ==>
        c in Distrust(o, out, t1).retired && Distrust(o, out, t1).retired[c] == o.retired[c]
      {
        DistrustKeepsExactly(o, out, t1, c);
      }
      n := overlap.Distrust(out, t1);
      if n > 0 {
        ServeServes(overlap.View(), t2);
        var served := overlap.Serve(t2);
        bundle := served.value;
        servedAt := t2;
      }
      ServedOmitsDistrusted(overlap.View());
      KeptAreServed(overlap.View());
    }
  }

  /** Everything kept is in the served bundle. */
  lemma KeptAreServed(o: Overlap)
    requires OverlapInv(o) && o.loaded
    ensures o.served.Some? && forall c :: c in o.retired ==> c in o.served.value
  {
    OrderedSpec(o.retired.Keys);
    forall c | c in o.retired ensures c in o.served.value { assert c in Certs(Ordered(o.retired.Keys)); }
  }

  /** Everything kept is live. */
  ghost predicate LiveAt(o: Overlap, now: Time) { forall c :: c in o.retired ==> now < o.retired[c].until }

  /** A served certificate is one the issuer publishes or one that is kept. */
  lemma ServedOrKept(o: Overlap)
    requires OverlapInv(o) && o.loaded
    ensures o.served.Some? && forall c :: c in o.served.value ==> c in o.fetched || c in o.retired
    ensures o.fetched != [] ==> o.served.value != []
  {
    OrderedSpec(o.retired.Keys);
    assert forall c :: c in Ordered(o.retired.Keys) ==> c in Certs(Ordered(o.retired.Keys));
  }

  /** A list that names no kept CA leaves the served bundle and the keeps alone. */
  lemma UntouchedServed(o: Overlap, out: set<Cert>, now: Time)
    ensures |o.retired.Keys * out| == 0 ==>
      Distrust(o, out, now).served == o.served && Distrust(o, out, now).retired == o.retired
  {
    hide Serve, Ordered;
    var both := o.retired.Keys * out;
    if both == {} {
      assert forall c :: c in o.retired.Keys && c in out ==> c in both;
      assert o.retired.Keys !! out && o.retired - out == o.retired;
    }
  }
}
