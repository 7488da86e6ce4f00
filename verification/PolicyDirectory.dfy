/** The reload of one replica's policy directory: the domain tree and the group
    memberships projected into the engine, then the stored policies. */
module PolicyDirectory {
  import opened Decisions
  import DirectoryFreshness

  /** `wellNamed` says the name is one a SPIFFE path can match. */
  datatype Domain = Domain(name: string, wellNamed: bool)

  datatype Member = Member(principal: string, expiresAt: Time)
  datatype Group = Group(id: string, members: seq<Member>)
  datatype Membership = Membership(group: string, expiresAt: Time)

  datatype Directory = Directory(domains: map<string, string>, groups: seq<string>, memberships: map<string,
                                 seq<Membership>>)

  /** The stored policies: unreadable, not a set this replica may enforce, or loaded. */
  datatype PolicyRead = Unreadable | BadSet | Loads(policies: map<string, string>)

  // ---- The projection -----------------------------------------------------------------

  /** The position of the last dot, or -1. */
  function LastDot(name: string): (i: int)
    ensures -1 <= i < |name| && (i >= 0 ==> name[i] == '.') && forall j :: i < j < |name| ==> name[j] != '.'
  {
    if name == "" then -1 else if name[|name| - 1] == '.' then |name| - 1 else LastDot(name[..|name| - 1])
  }

  /** The name up to its last dot; "" for a top-level domain. */
  function ParentOf(name: string): (parent: string)
    ensures parent != "" ==> |parent| < |name| && parent == name[..|parent|] && name[|parent|] == '.'
    ensures forall j :: |parent| < j < |name| ==> name[j] != '.'
  {
    if LastDot(name) > 0 then name[..LastDot(name)] else ""
  }

  /** The parent of a domain made under another is that other. */
  lemma ParentOfChild(parent: string, leaf: string)
    requires '.' !in leaf
    ensures ParentOf(parent + "." + leaf) == parent && ParentOf(leaf) == ""
  {
    var name := parent + "." + leaf;
    assert name[|parent|] == '.' && name[..|parent|] == parent;
    assert forall j :: |parent| < j < |name| ==> name[j] == leaf[j - |parent| - 1];
    assert LastDot(name) == |parent|;
  }

  function Tree(items: seq<Domain>): map<string, string>
    decreases |items|
  {
    if items == [] then map[]
    else
      var front, d := Tree(items[..|items| - 1]), items[|items| - 1];
      if d.wellNamed then front[d.name := ParentOf(d.name)] else front
  }

  /** The tree has exactly the well-named domains, each under its parent. */
  lemma {:induction false} TreeExact(items: seq<Domain>, name: string)
    ensures name in Tree(items) <==> exists i :: 0 <= i < |items| && items[i].wellNamed && items[i].name == name
    ensures name in Tree(items) ==> Tree(items)[name] == ParentOf(name)
    decreases |items|
  {
    if items != [] {
      var front, d := items[..|items| - 1], items[|items| - 1];
      TreeExact(front, name);
      if exists i :: 0 <= i < |front| && front[i].wellNamed && front[i].name == name {
        var i :| 0 <= i < |front| && front[i].wellNamed && front[i].name == name;
        assert items[i] == front[i];
      }
      if d.wellNamed && d.name == name { assert items[|items| - 1].name == name; }
    }
  }

  function Listed(m: map<string, seq<Membership>>, p: string): seq<Membership> { if p in m then m[p] else [] }

  function Enrol(m: map<string, seq<Membership>>, id: string, members: seq<Member>): map<string, seq<Membership>>
    decreases |members|
  {
    if members == [] then m
    else
      var front, x := Enrol(m, id, members[..|members| - 1]), members[|members| - 1];
      front[x.principal := Listed(front, x.principal) + [Membership(id, x.expiresAt)]]
  }

  function Memberships(groups: seq<Group>): map<string, seq<Membership>>
    decreases |groups|
  {
    if groups == [] then map[]
    else Enrol(Memberships(groups[..|groups| - 1]), groups[|groups| - 1].id, groups[|groups| - 1].members)
  }

  lemma {:induction false} EnrolExact(m: map<string, seq<Membership>>, id: string, members: seq<Member>, p: string,
                                      x: Membership)
    ensures x in Listed(Enrol(m, id, members), p) <==>
      x in Listed(m, p) || (x.group == id && Member(p, x.expiresAt) in members)
    decreases |members|
  {
    if members != [] {
      EnrolExact(m, id, members[..|members| - 1], p, x);
      assert members == members[..|members| - 1] + [members[|members| - 1]];
    }
  }

  predicate HasMember(g: Group, p: string, x: Membership) { x.group == g.id && Member(p, x.expiresAt) in g.members }

  /** Every membership of every group is projected, and no other: dropping one would
      disarm a forbid on its group. */
  lemma {:induction false} MembershipsExact(groups: seq<Group>, p: string, x: Membership)
    ensures x in Listed(Memberships(groups), p) <==> exists g :: g in groups && HasMember(g, p, x)
    decreases |groups|
  {
    if groups != [] {
      var front, g := groups[..|groups| - 1], groups[|groups| - 1];
      MembershipsExact(front, p, x);
      EnrolExact(Memberships(front), g.id, g.members, p, x);
      assert groups == front + [g];
      if x in Listed(Memberships(groups), p) {
        if x in Listed(Memberships(front), p) {
          var h :| h in front && HasMember(h, p, x);
          assert h in groups;
        } else {
          assert HasMember(g, p, x) && g in groups;
        }
      }
    }
  }

  function GroupIDs(groups: seq<Group>): (ids: seq<string>)
    ensures |ids| == |groups| && forall i :: 0 <= i < |groups| ==> ids[i] == groups[i].id
    decreases |groups|
  {
    if groups == [] then [] else GroupIDs(groups[..|groups| - 1]) + [groups[|groups| - 1].id]
  }

  function Project(items: seq<Domain>, groups: seq<Group>): Directory {
    Directory(Tree(items), GroupIDs(groups), Memberships(groups))
  }

  // ---- The reload -----------------------------------------------------------------------

  /** What one reload meets. */
  datatype Reads = Reads(domains: Option<seq<Domain>>, trustDomain: bool, groups: Option<seq<Group>>,
                         policies: PolicyRead)

  /** The directory part can be installed: without a trust domain no workload would be
      in any domain, so a tree is refused. */
  predicate Projects(r: Reads) {
    r.domains.Some? && (r.trustDomain || Tree(r.domains.value) == map[]) && r.groups.Some?
  }

  function OutcomeOf(r: Reads): DirectoryFreshness.Outcome {
    if !Projects(r) then DirectoryFreshness.NothingRead
    else match r.policies
      case Unreadable => DirectoryFreshness.DirectoryOnly
      case BadSet => DirectoryFreshness.BadSet
      case Loads(_) => DirectoryFreshness.Whole
  }

  /** A reload succeeds exactly when domains, groups and policies are read, the policies
      may be enforced, and there is a trust domain or no domain to match. */
  lemma WholeIff(r: Reads)
    ensures Projects(r) <==>
      && r.domains.Some? && r.groups.Some?
      && (r.trustDomain || forall d :: d in r.domains.value ==> !d.wellNamed)
    ensures OutcomeOf(r).Whole? <==> Projects(r) && r.policies.Loads?
  {
    if r.domains.Some? {
      var items := r.domains.value;
      forall d | d in items && d.wellNamed ensures d.name in Tree(items) {
        var i :| 0 <= i < |items| && items[i] == d;
        TreeExact(items, d.name);
      }
      forall name | name in Tree(items) ensures exists d :: d in items && d.wellNamed {
        TreeExact(items, name);
        var i :| 0 <= i < |items| && items[i].wellNamed && items[i].name == name;
        assert items[i] in items;
      }
    }
  }

  // ---- What the gate means ------------------------------------------------------------------

  /** One reload of the past: what it met, when, and whether a write asked for it. */
  datatype Reload = Reload(met: Reads, write: bool, at: Time)

  predicate Whole(x: Reload) { OutcomeOf(x.met).Whole? }

  /** A failure that is not to be served past: after a write, or a set that must not be
      enforced. */
  predicate Closes(x: Reload) { !Whole(x) && (x.write || OutcomeOf(x.met).BadSet?) }

  ghost predicate NoneWholeAfter(past: seq<Reload>, i: nat) { forall j :: i < j < |past| ==> !Whole(past[j]) }

  /** Such a failure has not been made good by a whole reload since. */
  ghost predicate Outstanding(past: seq<Reload>) {
    exists i :: 0 <= i < |past| && Closes(past[i]) && NoneWholeAfter(past, i)
  }

  /** The last whole reload is no more than `span` old. */
  ghost predicate Recent(past: seq<Reload>, now: Time, span: Time) {
    exists i :: 0 <= i < |past| && Whole(past[i]) && NoneWholeAfter(past, i) && now - past[i].at <= span
  }

  /** The gate as the past determines it. */
  function GateOf(past: seq<Reload>, interval: Time): DirectoryFreshness.Gate
    decreases |past|
  {
    if past == [] then DirectoryFreshness.Gate(false, None, interval)
    else
      var x := past[|past| - 1];
      DirectoryFreshness.GateAfter(GateOf(past[..|past| - 1], interval), OutcomeOf(x.met), x.write, x.at)
  }

  lemma GateGrows(past: seq<Reload>, x: Reload, interval: Time)
    ensures GateOf(past + [x], interval)
      == DirectoryFreshness.GateAfter(GateOf(past, interval), OutcomeOf(x.met), x.write, x.at)
  {
    assert (past + [x])[..|past|] == past;
  }

  lemma {:induction false} GateTells(past: seq<Reload>, interval: Time)
    ensures GateOf(past, interval).interval == interval
    ensures GateOf(past, interval).broken <==> Outstanding(past)
    ensures forall now, span :: Recent(past, now, span) <==>
      GateOf(past, interval).loadedAt.Some? && now - GateOf(past, interval).loadedAt.value <= span
    decreases |past|
  {
    if past != [] {
      var front, x := past[..|past| - 1], past[|past| - 1];
      GateTells(front, interval);
      OutstandingGrows(front, x);
      RecentGrows(front, x);
      assert past == front + [x];
    }
  }

  lemma OutstandingGrows(front: seq<Reload>, x: Reload)
    ensures Outstanding(front + [x]) <==> Closes(x) || (!Whole(x) && Outstanding(front))
  {
    var past, n := front + [x], |front|;
    assert past[n] == x && forall i :: 0 <= i < n ==> past[i] == front[i];
    if Closes(x) { assert NoneWholeAfter(past, n); }
    if !Whole(x) && Outstanding(front) {
      var i :| 0 <= i < n && Closes(front[i]) && NoneWholeAfter(front, i);
      assert Closes(past[i]) && NoneWholeAfter(past, i);
    }
    if Outstanding(past) && !Closes(x) {
      var i :| 0 <= i <= n && Closes(past[i]) && NoneWholeAfter(past, i);
      assert Closes(front[i]) && NoneWholeAfter(front, i);
    }
  }

  lemma RecentGrows(front: seq<Reload>, x: Reload)
    ensures forall now, span :: Recent(front + [x], now, span) <==>
      if Whole(x) then now - x.at <= span else Recent(front, now, span)
  {
    var past, n := front + [x], |front|;
    assert past[n] == x && forall i :: 0 <= i < n ==> past[i] == front[i];
    forall now, span
      ensures Recent(past, now, span) <==> if Whole(x) then now - x.at <= span else Recent(front, now, span)
    {
      if Whole(x) { assert NoneWholeAfter(past, n); }
      if !Whole(x) && Recent(front, now, span) {
        var i :| 0 <= i < n && Whole(front[i]) && NoneWholeAfter(front, i) && now - front[i].at <= span;
        assert Whole(past[i]) && NoneWholeAfter(past, i);
      }
      if !Whole(x) && Recent(past, now, span) {
        var i :| 0 <= i <= n && Whole(past[i]) && NoneWholeAfter(past, i) && now - past[i].at <= span;
        assert Whole(front[i]) && NoneWholeAfter(front, i);
      }
    }
  }

  /** Nothing outstanding: every write of the past is followed by a whole reload, its own
      or a later one. */
  lemma WritesAreLoaded(past: seq<Reload>, i: nat)
    requires !Outstanding(past) && i < |past| && past[i].write
    ensures exists j :: i <= j < |past| && Whole(past[j])
  {
    if !Whole(past[i]) { assert Closes(past[i]) && !NoneWholeAfter(past, i); }
  }

  ghost predicate NoneProjectsAfter(past: seq<Reload>, i: int) {
    forall j :: 0 <= j < |past| && i < j ==> !Projects(past[j].met)
  }

  /** The engine has the policies of the last whole reload and the directory of the last
      reload that could project one. */
  ghost predicate Enforces(past: seq<Reload>, directory: Directory, policies: map<string, string>) {
    && (forall i :: 0 <= i < |past| && Whole(past[i]) && NoneWholeAfter(past, i) ==>
          policies == past[i].met.policies.policies)
    && (forall i :: 0 <= i < |past| && Projects(past[i].met) && NoneProjectsAfter(past, i) ==>
          directory == Project(past[i].met.domains.value, past[i].met.groups.value))
    && (NoneProjectsAfter(past, -1) ==> directory == Directory(map[], [], map[]))
    && ((forall i :: 0 <= i < |past| ==> !Whole(past[i])) ==> policies == map[])
  }

  lemma EnforcesGrows(past: seq<Reload>, directory: Directory, policies: map<string, string>, x: Reload)
    requires Enforces(past, directory, policies)
    ensures Enforces(past + [x],
                     if Projects(x.met) then Project(x.met.domains.value, x.met.groups.value) else directory,
                     if Whole(x) then x.met.policies.policies else policies)
  {
    hide Projects, Project, OutcomeOf, Whole;
    var more, n := past + [x], |past|;
    assert Whole(x) ==> Projects(x.met) && x.met.policies.Loads? by { WholeProjects(x); }
    assert more[n] == x && forall i :: 0 <= i < n ==> more[i] == past[i];
    forall i | 0 <= i < n ensures NoneWholeAfter(more, i) ==> !Whole(x) && NoneWholeAfter(past, i) {}
    forall i | -1 <= i < n ensures NoneProjectsAfter(more, i) ==> !Projects(x.met) && NoneProjectsAfter(past, i) {}
  }

  lemma WholeProjects(x: Reload)
    ensures Whole(x) ==> Projects(x.met) && x.met.policies.Loads?
  {
  }

  class DomainState {
    var loadedAt: Option<Time>
    var interval: Time
    var broken: bool
    var directory: Directory
    var policies: map<string, string>
    ghost var past: seq<Reload>

    ghost function Gate(): DirectoryFreshness.Gate
      reads this
    {
      DirectoryFreshness.Gate(broken, loadedAt, interval)
    }

    ghost predicate Valid()
      reads this
    {
      Gate() == GateOf(past, interval) && Enforces(past, directory, policies)
    }

    constructor ()
      ensures Valid() && past == [] && interval == 0 && directory == Directory(map[], [], map[]) && policies == map[]
    {
      loadedAt, interval, broken, directory, policies := None, 0, false, Directory(map[], [], map[]), map[];
      past := [];
    }

    /** `RunDirectorySync` starts: age counts from now on. */
    method StartSync(interval: Time)
      requires Valid()
      modifies this`interval
      ensures Valid() && this.interval == interval
    {
      hide Enforces;
      GateKeeps(past, this.interval, interval);
      this.interval := interval;
    }

    static method BuildTree(items: seq<Domain>) returns (tree: map<string, string>)
      ensures tree == Tree(items)
    {
      tree := map[];
      for i := 0 to |items|
        invariant tree == Tree(items[..i])
      {
        assert items[..i + 1][..i] == items[..i];
        if items[i].wellNamed { tree := tree[items[i].name := ParentOf(items[i].name)]; }
      }
      assert items[..|items|] == items;
    }

    static method BuildGroups(groups: seq<Group>) returns (ids: seq<string>, memberships: map<string, seq<Membership>>)
      ensures ids == GroupIDs(groups) && memberships == Memberships(groups)
    {
      ids, memberships := [], map[];
      for i := 0 to |groups|
        invariant ids == GroupIDs(groups[..i]) && memberships == Memberships(groups[..i])
      {
        var g, before := groups[i], memberships;
        ids := ids + [g.id];
        for j := 0 to |g.members|
          invariant memberships == Enrol(before, g.id, g.members[..j])
        {
          assert g.members[..j + 1][..j] == g.members[..j];
          var m := g.members[j];
          memberships := memberships[m.principal := Listed(memberships, m.principal) + [Membership(g.id, m.expiresAt)]];
        }
        assert g.members[..|g.members|] == g.members;
        assert groups[..i + 1][..i] == groups[..i];
      }
      assert groups[..|groups|] == groups;
    }

    /** `RefreshDirectory`: the directory part is installed before the policies are
        read, and only a whole reload counts as fresh. */
    method RefreshDirectory(r: Reads, now: Time) returns (ok: bool)
      modifies this
      ensures ok == OutcomeOf(r).Whole? && past == old(past)
      ensures ok <==>
        && r.domains.Some? && r.groups.Some? && r.policies.Loads?
        && (r.trustDomain || forall d :: d in r.domains.value ==> !d.wellNamed)
      ensures directory == if Projects(r) then Project(r.domains.value, r.groups.value) else old(directory)
      ensures policies == if ok then r.policies.policies else old(policies)
      ensures Gate() == DirectoryFreshness.GateAfter(old(Gate()), OutcomeOf(r), false, now)
    {
      WholeIff(r);
      if r.domains.None? { return false; }
      var tree := BuildTree(r.domains.value);
      if !r.trustDomain && |tree| > 0 { return false; }
      assert Tree(r.domains.value) == map[] <==> |tree| == 0;
      if r.groups.None? { return false; }
      var ids, memberships := BuildGroups(r.groups.value);
      directory := Directory(tree, ids, memberships);
      match r.policies {
        case Unreadable => return false;
        case BadSet => broken := true; return false;
        case Loads(loaded) => policies := loaded;
      }
      loadedAt, broken := Some(now), false;
      return true;
    }

    /** One turn of the background sync. */
    method Sync(r: Reads, now: Time)
      requires Valid()
      modifies this
      ensures Valid() && past == old(past) + [Reload(r, false, now)] && interval == old(interval)
    {
      hide GateOf, Project, Projects, Enforces;
      GateGrows(past, Reload(r, false, now), interval);
      EnforcesGrows(past, directory, policies, Reload(r, false, now));
      var _ := RefreshDirectory(r, now);
      past := past + [Reload(r, false, now)];
    }

    /** `refreshAfterWrite`: when it returns, evaluation is closed or what the reload
        read is what the engine has. */
    method RefreshAfterWrite(r: Reads, now: Time)
      requires Valid()
      modifies this
      ensures Valid() && past == old(past) + [Reload(r, true, now)] && interval == old(interval)
      ensures broken || (Projects(r) && r.policies.Loads? && loadedAt == Some(now)
        && directory == Project(r.domains.value, r.groups.value) && policies == r.policies.policies)
    {
      hide GateOf, Project, Projects, Enforces;
      GateGrows(past, Reload(r, true, now), interval);
      EnforcesGrows(past, directory, policies, Reload(r, true, now));
      var ok := RefreshDirectory(r, now);
      if !ok { broken := true; }
      past := past + [Reload(r, true, now)];
    }

    /** `directoryStale`: an evaluation is admitted exactly when no failed reload of a
        write, and no bad set, is still outstanding and, once the sync runs, the last
        whole reload is recent. So every write whose handler returned has been loaded. */
    method DirectoryStale(now: Time) returns (stale: bool)
      requires Valid()
      ensures stale <==>
        Outstanding(past) || (interval > 0 && !Recent(past, now, 3 * interval))
      ensures !stale ==> forall i :: 0 <= i < |past| && past[i].write ==> exists j :: i <= j < |past| && Whole(past[j])
    {
      GateTells(past, interval);
      if broken { return true; }
      forall i | 0 <= i < |past| && past[i].write ensures exists j :: i <= j < |past| && Whole(past[j]) {
        WritesAreLoaded(past, i);
      }
      return interval > 0 && (loadedAt.None? || now - loadedAt.value > DirectoryFreshness.STALE_AFTER * interval);
    }
  }

  lemma {:induction false} GateKeeps(past: seq<Reload>, a: Time, b: Time)
    ensures GateOf(past, b) == GateOf(past, a).(interval := b)
    decreases |past|
  {
    if past != [] { GateKeeps(past[..|past| - 1], a, b); }
  }

  /** The object's reloads are runs of the interleaving model: one reload, taken without
      interruption from any of its idle states with this gate, leaves this gate. */
  lemma ReloadIsARun(s: DirectoryFreshness.State, r: Reads, w: Option<nat>,
                     now: Time) returns (s': DirectoryFreshness.State)
    requires DirectoryFreshness.CanBegin(s, w) && s.clock <= now
    ensures DirectoryFreshness.Path(s, DirectoryFreshness.Steps(OutcomeOf(r), w, now), s') && s'.reload.Idle?
    ensures forall past, interval :: s.gate == GateOf(past, interval) ==>
      s'.gate == GateOf(past + [Reload(r, w.Some?, now)], interval)
  {
    s' := DirectoryFreshness.ReloadIsSteps(s, OutcomeOf(r), w, now);
    forall past: seq<Reload>, interval | s.gate == GateOf(past, interval)
      ensures s'.gate == GateOf(past + [Reload(r, w.Some?, now)], interval)
    {
      GateGrows(past, Reload(r, w.Some?, now), interval);
    }
  }
}
