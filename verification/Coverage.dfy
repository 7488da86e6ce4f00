/** Queue order. `order` lists every decision in the order it was queued; a list
    covers it up to `done` when nothing not yet done is missing ahead of an entry. */
module Coverage {
  import opened Decisions

  ghost predicate Within(xs: seq<Queued>, order: seq<Queued>) {
    forall q :: q in xs ==> q in order
  }

  ghost predicate Covers(order: seq<Queued>, xs: seq<Queued>, done: set<Queued>) {
    forall i, j, k | 0 <= i < j < |order| && 0 <= k < |xs| ::
      order[j] == xs[k] ==> order[i] in xs[..k] || order[i] in done
  }

  /** Everything queued is in xs or done. */
  ghost predicate Complete(order: seq<Queued>, xs: seq<Queued>, done: set<Queued>) {
    forall q :: q in order ==> q in xs || q in done
  }

  lemma CoversMore(order: seq<Queued>, xs: seq<Queued>, done: set<Queued>, more: set<Queued>)
    requires Covers(order, xs, done) && done <= more
    ensures Covers(order, xs, more)
  {
  }

  /** A decision queued later is ahead of nothing already listed. */
  lemma CoversLater(order: seq<Queued>, xs: seq<Queued>, done: set<Queued>, q: Queued)
    requires Covers(order, xs, done) && Within(xs, order) && q !in order
    ensures Covers(order + [q], xs, done) && Within(xs, order + [q])
  {
  }

  lemma CoversPush(order: seq<Queued>, xs: seq<Queued>, done: set<Queued>, q: Queued)
    requires Covers(order, xs, done) && Within(xs, order) && Complete(order, xs, done) && q !in order
    ensures Covers(order + [q], xs + [q], done) && Within(xs + [q], order + [q])
    ensures Complete(order + [q], xs + [q], done)
  {
    var longer, ys := order + [q], xs + [q];
    CoversLater(order, xs, done, q);
    forall i, j, k | 0 <= i < j < |longer| && 0 <= k < |ys|
      ensures longer[j] == ys[k] ==> longer[i] in ys[..k] || longer[i] in done
    {
      assert longer[i] in order;
      if k < |xs| { assert ys[..k] == xs[..k] && ys[k] == xs[k]; } else { assert ys[..k] == xs; }
    }
  }

  lemma CoversDrop(order: seq<Queued>, xs: seq<Queued>, done: set<Queued>, n: nat)
    requires n <= |xs| && Covers(order, xs, done) && (forall i :: 0 <= i < n ==> xs[i] in done)
    ensures Covers(order, xs[n..], done)
  {
  }

  lemma CoversTake(order: seq<Queued>, xs: seq<Queued>, done: set<Queued>, n: nat)
    requires n <= |xs| && Covers(order, xs, done)
    ensures Covers(order, xs[..n], done)
  {
  }

  /** Dropping entries that are done keeps the list complete. */
  lemma CompleteDrop(order: seq<Queued>, xs: seq<Queued>, done: set<Queued>, n: nat)
    requires n <= |xs| && Complete(order, xs, done) && (forall i :: 0 <= i < n ==> xs[i] in done)
    ensures Complete(order, xs[n..], done)
  {
  }

  /** The last decision of the order joins the list once everything before it is there. */
  lemma CoversLast(order: seq<Queued>, xs: seq<Queued>, done: set<Queued>)
    requires DistinctIDs(order) && order != [] && Covers(order, xs, done) && Within(xs, order)
    requires Complete(order[..|order| - 1], xs, done)
    ensures var q := order[|order| - 1];
      Covers(order, xs + [q], done) && Within(xs + [q], order) && Complete(order, xs + [q], done)
  {
    var l := |order| - 1;
    var ys := xs + [order[l]];
    forall i, j, k | 0 <= i < j < |order| && 0 <= k < |ys|
      ensures order[j] == ys[k] ==> order[i] in ys[..k] || order[i] in done
    {
      assert order[i] in order[..l];
      if k < |xs| { assert ys[..k] == xs[..k] && ys[k] == xs[k]; } else { assert ys[..k] == xs; }
    }
  }
}
