/** The checkpoint upgrader of cpt_upgrader.py, for a registry that holds upgraders only: loading
    the registry resolves legacy and forward dependences, and the apply loop runs every missing
    upgrader in an order that respects them. */
module CheckpointUpgrader {
  import opened Options

  datatype Tag = Tag(name: string)

  datatype LoadResult = Loaded | MissingLegacyVersion | UnknownTag

  function SetOf(s: seq<Tag>): set<Tag> {
    set t | t in s
  }

  lemma SetOfOne(t: Tag)
    ensures SetOf([t]) == {t}
  {
  }

  class Upgrader {
    const tag: Tag
    const fwdDepends: seq<Tag>
    const legacyVersion: Option<int>
    var depends: seq<Tag>

    constructor (tag: Tag, depends: seq<Tag>, fwdDepends: seq<Tag>, legacyVersion: Option<int>)
      ensures this.tag == tag && this.depends == depends
      ensures this.fwdDepends == fwdDepends && this.legacyVersion == legacyVersion
    {
      this.tag, this.depends, this.fwdDepends, this.legacyVersion := tag, depends, fwdDepends, legacyVersion;
    }

    method Ready(tags: set<Tag>) returns (ready: bool)
      ensures ready <==> SetOf(depends) <= tags
    {
      for i := 0 to |depends|
        invariant SetOf(depends[..i]) <= tags
      {
        if depends[i] !in tags {
          assert depends[i] in SetOf(depends);
          return false;
        }
      }
      assert depends[..|depends|] == depends;
      return true;
    }
  }

  lemma KeyOf<K, V>(m: map<K, V>, u: V) returns (v: K)
    requires u in m.Values
    ensures v in m && m[v] == u
  {
    v :| v in m && m[v] == u;
  }

  // ----- dependence graphs

  type Graph = map<Tag, set<Tag>>

  // Each tag of the walk depends on the next one, and all are pending.
  ghost predicate Walk(deps: Graph, pending: set<Tag>, walk: seq<Tag>) {
    && |walk| > 0
    && (forall i :: 0 <= i < |walk| ==> walk[i] in pending && walk[i] in deps)
    && (forall i :: 0 < i < |walk| ==> walk[i] in deps[walk[i - 1]])
  }

  ghost predicate Distinct(s: seq<Tag>) {
    forall i, j :: 0 <= i < j < |s| ==> s[i] != s[j]
  }

  // A walk that comes back to a tag it has visited
  ghost predicate Lasso(deps: Graph, pending: set<Tag>, walk: seq<Tag>) {
    Walk(deps, pending, walk) && walk[|walk| - 1] in walk[..|walk| - 1]
  }

  ghost predicate Cycle(deps: Graph, pending: set<Tag>, walk: seq<Tag>) {
    Walk(deps, pending, walk) && |walk| > 1 && walk[0] == walk[|walk| - 1]
  }

  ghost predicate LeadsToCycle(deps: Graph, pending: set<Tag>, t: Tag) {
    exists walk :: Lasso(deps, pending, walk) && walk[0] == t
  }

  ghost predicate HasCycle(deps: Graph, pending: set<Tag>) {
    exists walk :: Cycle(deps, pending, walk)
  }

  // Dependences name tags that exist.
  ghost predicate Closed(deps: Graph) {
    forall t :: t in deps ==> deps[t] <= deps.Keys
  }

  // Nothing twice, nothing that was there already, nothing before its dependences
  ghost predicate InOrder(deps: Graph, tags: set<Tag>, applied: seq<Tag>) {
    forall k :: 0 <= k < |applied| ==>
      && applied[k] in deps
      && applied[k] !in tags + SetOf(applied[..k])
      && deps[applied[k]] <= tags + SetOf(applied[..k])
  }

  // The tags in seen that name t as a forward dependence
  ghost function Naming(fwd: Graph, seen: set<Tag>, t: Tag): (r: set<Tag>)
    ensures r <= seen
  {
    set u | u in seen && u in fwd && t in fwd[u]
  }

  // Every tag in seen is added to what the tags in its forward dependences depend on.
  ghost function WithForward(deps: Graph, fwd: Graph, seen: set<Tag>): (r: Graph)
    ensures r.Keys == deps.Keys
  {
    map t | t in deps :: deps[t] + Naming(fwd, seen, t)
  }

  lemma WithForwardMeans(deps: Graph, fwd: Graph, seen: set<Tag>, t: Tag, u: Tag)
    requires t in deps
    ensures u in WithForward(deps, fwd, seen)[t] <==> u in deps[t] || (u in seen && u in fwd && t in fwd[u])
  {
  }

  lemma WithForwardNone(deps: Graph, fwd: Graph)
    ensures WithForward(deps, fwd, {}) == deps
  {
    hide Naming;
    assert forall t :: t in deps ==> Naming(fwd, {}, t) <= {};
    assert forall t :: t in deps ==> WithForward(deps, fwd, {})[t] == deps[t];
  }

  lemma WithForwardOne(deps: Graph, fwd: Graph, tag: Tag, r: Graph)
    requires tag in fwd && r.Keys == deps.Keys
    requires forall t :: t in deps ==> r[t] == deps[t] + if t in fwd[tag] then {tag} else {}
    ensures r == WithForward(deps, fwd, {tag})
  {
    forall t | t in deps
      ensures r[t] == WithForward(deps, fwd, {tag})[t]
    {
      assert Naming(fwd, {tag}, t) == if t in fwd[tag] then {tag} else {};
    }
  }

  lemma NamingSplits(fwd: Graph, seen: set<Tag>, tag: Tag, t: Tag)
    ensures Naming(fwd, seen + {tag}, t) == Naming(fwd, seen, t) + Naming(fwd, {tag}, t)
  {
  }

  lemma WithForwardStep(deps: Graph, fwd: Graph, seen: set<Tag>, tag: Tag)
    ensures WithForward(WithForward(deps, fwd, seen), fwd, {tag}) == WithForward(deps, fwd, seen + {tag})
  {
    hide Naming;
    var r := WithForward(WithForward(deps, fwd, seen), fwd, {tag});
    forall t | t in deps
      ensures r[t] == WithForward(deps, fwd, seen + {tag})[t]
    {
      NamingSplits(fwd, seen, tag, t);
    }
  }

  lemma WithForwardKnown(deps: Graph, fwd: Graph, seen: set<Tag>, t: Tag)
    requires t in deps && seen <= deps.Keys
    ensures WithForward(deps, fwd, seen)[t] <= deps.Keys <==> deps[t] <= deps.Keys
  {
  }

  lemma {:induction false} DistinctIsShort(s: seq<Tag>, all: set<Tag>)
    requires Distinct(s) && SetOf(s) <= all
    ensures |s| <= |all|
  {
    if s != [] {
      var n := |s| - 1;
      assert s[n] in SetOf(s);
      assert SetOf(s[..n]) <= all - {s[n]};
      DistinctIsShort(s[..n], all - {s[n]});
    }
  }

  ghost predicate Meets(a: set<Tag>, b: set<Tag>) {
    exists t :: t in a && t in b
  }

  lemma OutsideMeets(a: set<Tag>, known: set<Tag>, all: set<Tag>)
    requires a <= all && !(a <= known)
    ensures Meets(a, all - known)
  {
    var t :| t in a && t !in known;
    assert t in all - known;
  }

  // Where every tag has a dependence in the set, walks can go on until they close.
  lemma {:induction false} StuckCloses(deps: Graph, stuck: set<Tag>, walk: seq<Tag>) returns (lasso: seq<Tag>)
    requires stuck <= deps.Keys
    requires forall t :: t in stuck ==> Meets(deps[t], stuck)
    requires Walk(deps, stuck, walk) && Distinct(walk)
    ensures Lasso(deps, stuck, lasso) && lasso[0] == walk[0]
    decreases |stuck| - |walk|
  {
    hide Distinct;
    var last := walk[|walk| - 1];
    var d :| d in deps[last] && d in stuck;
    WalkSnoc(deps, stuck, walk, d);
    if d in walk {
      lasso := walk + [d];
      assert lasso[..|walk|] == walk;
    } else {
      DistinctSnoc(walk, d);
      DistinctIsShort(walk + [d], stuck);
      lasso := StuckCloses(deps, stuck, walk + [d]);
    }
  }

  lemma WalkSnoc(deps: Graph, pending: set<Tag>, walk: seq<Tag>, d: Tag)
    requires Walk(deps, pending, walk) && d in pending && d in deps && d in deps[walk[|walk| - 1]]
    ensures Walk(deps, pending, walk + [d])
  {
  }

  lemma DistinctSnoc(s: seq<Tag>, d: Tag)
    requires Distinct(s) && d !in s
    ensures Distinct(s + [d])
  {
  }

  // Every tag of a walk into a cycle depends on another one of it.
  lemma LassoGoesOn(deps: Graph, pending: set<Tag>, walk: seq<Tag>, i: nat) returns (j: nat)
    requires Lasso(deps, pending, walk) && i < |walk|
    ensures j < |walk| && walk[i] in deps && walk[j] in deps[walk[i]] && walk[j] in pending
  {
    if i + 1 < |walk| {
      j := i + 1;
    } else {
      var h: nat :| h < |walk| - 1 && walk[h] == walk[i];
      j := h + 1;
    }
  }

  lemma InOrderLast(deps: Graph, tags: set<Tag>, applied: seq<Tag>)
    requires InOrder(deps, tags, applied) && applied != []
    ensures var n := |applied| - 1;
            && InOrder(deps, tags, applied[..n])
            && applied[n] in deps && deps[applied[n]] <= tags + SetOf(applied[..n])
  {
    var n := |applied| - 1;
    assert forall k :: 0 <= k < n ==> applied[..n][..k] == applied[..k];
  }

  // Nothing on a walk into a cycle is ever applied.
  lemma {:induction false} LassoIsNeverApplied(deps: Graph, tags: set<Tag>, applied: seq<Tag>, walk: seq<Tag>)
    requires InOrder(deps, tags, applied)
    requires Lasso(deps, deps.Keys - tags, walk)
    ensures forall i :: 0 <= i < |walk| ==> walk[i] !in applied
  {
    hide InOrder, Lasso;
    if applied != [] {
      var n := |applied| - 1;
      InOrderLast(deps, tags, applied);
      LassoIsNeverApplied(deps, tags, applied[..n], walk);
      forall i: nat | i < |walk|
        ensures walk[i] != applied[n]
      {
        var j := LassoGoesOn(deps, deps.Keys - tags, walk, i);
        assert walk[j] !in tags + SetOf(applied[..n]);
      }
      assert applied == applied[..n] + [applied[n]];
    }
  }

  /** A walk into a cycle contains one, and a cycle is a walk into itself. */
  lemma CycleOrLasso(deps: Graph, pending: set<Tag>)
    ensures HasCycle(deps, pending) <==> exists t :: t in pending && LeadsToCycle(deps, pending, t)
  {
    if walk :| Cycle(deps, pending, walk) {
      assert walk[0] == walk[..|walk| - 1][0];
      assert Lasso(deps, pending, walk);
      assert LeadsToCycle(deps, pending, walk[0]);
    }
    if t :| t in pending && LeadsToCycle(deps, pending, t) {
      var walk :| Lasso(deps, pending, walk) && walk[0] == t;
      var i :| 0 <= i < |walk| - 1 && walk[i] == walk[|walk| - 1];
      var tail := walk[i..];
      forall k | 0 < k < |tail|
        ensures tail[k] in deps[tail[k - 1]]
      {
        assert tail[k] == walk[i + k];
      }
      assert Cycle(deps, pending, tail);
    }
  }

  lemma LassoWidens(deps: Graph, some: set<Tag>, more: set<Tag>, walk: seq<Tag>)
    requires Lasso(deps, some, walk) && some <= more
    ensures Lasso(deps, more, walk)
  {
  }

  lemma StuckLeadsToCycle(deps: Graph, tags: set<Tag>, known: set<Tag>, left: set<Tag>, t: Tag)
    requires Closed(deps) && tags <= known && left == deps.Keys - known && t in left
    requires forall u :: u in left ==> !(deps[u] <= known)
    ensures LeadsToCycle(deps, deps.Keys - tags, t)
  {
    hide Lasso, Meets;
    forall u | u in left
      ensures Meets(deps[u], left)
    {
      OutsideMeets(deps[u], known, deps.Keys);
    }
    var lasso := StuckCloses(deps, left, [t]);
    LassoWidens(deps, left, deps.Keys - tags, lasso);
  }

  lemma LeadingToCycleStays(deps: Graph, tags: set<Tag>, applied: seq<Tag>, t: Tag)
    requires InOrder(deps, tags, applied) && LeadsToCycle(deps, deps.Keys - tags, t)
    ensures t !in applied
  {
    hide InOrder;
    var walk :| Lasso(deps, deps.Keys - tags, walk) && walk[0] == t;
    LassoIsNeverApplied(deps, tags, applied, walk);
  }

  /** When nothing pending is ready, what is left is exactly what leads into a cycle. */
  lemma StuckIsCyclic(deps: Graph, tags: set<Tag>, applied: seq<Tag>, left: set<Tag>)
    requires Closed(deps) && InOrder(deps, tags, applied)
    requires left == deps.Keys - tags - SetOf(applied)
    requires forall t :: t in left ==> !(deps[t] <= tags + SetOf(applied))
    ensures forall t :: t in left <==> t in deps.Keys - tags && LeadsToCycle(deps, deps.Keys - tags, t)
  {
    hide LeadsToCycle, InOrder, Closed;
    forall t | t in left
      ensures LeadsToCycle(deps, deps.Keys - tags, t)
    {
      StuckLeadsToCycle(deps, tags, tags + SetOf(applied), left, t);
    }
    forall t | t in deps.Keys - tags && LeadsToCycle(deps, deps.Keys - tags, t)
      ensures t in left
    {
      LeadingToCycleStays(deps, tags, applied, t);
    }
  }

  lemma InOrderSnoc(deps: Graph, tags: set<Tag>, applied: seq<Tag>, t: Tag)
    requires InOrder(deps, tags, applied)
    requires t in deps && t !in tags + SetOf(applied) && deps[t] <= tags + SetOf(applied)
    ensures InOrder(deps, tags, applied + [t])
    ensures SetOf(applied + [t]) == SetOf(applied) + {t}
  {
    var s := applied + [t];
    forall k | 0 <= k < |s|
      ensures s[k] in deps && s[k] !in tags + SetOf(s[..k]) && deps[s[k]] <= tags + SetOf(s[..k])
    {
      assert s[..k] == applied[..k];
      if k == |applied| {
        assert applied[..k] == applied;
      }
    }
  }

  lemma InOrderEmpty(deps: Graph, tags: set<Tag>)
    ensures InOrder(deps, tags, []) && SetOf([]) == {}
  {
  }

  lemma InOrderMembers(deps: Graph, tags: set<Tag>, applied: seq<Tag>)
    requires InOrder(deps, tags, applied)
    ensures SetOf(applied) <= deps.Keys - tags && Distinct(applied)
    ensures forall t :: t in applied <==> t in SetOf(applied)
  {
    forall i, j | 0 <= i < j < |applied|
      ensures applied[i] != applied[j]
    {
      assert applied[i] == applied[..j][i];
    }
  }

  // ----- the registry

  class Registry {
    var byTag: map<Tag, Upgrader>
    var tagSet: set<Tag>
    var legacy: map<int, Upgrader>

    ghost predicate Valid()
      reads this
    {
      && tagSet == byTag.Keys
      && (forall t :: t in byTag ==> byTag[t].tag == t)
      && (forall v :: v in legacy ==> legacy[v].legacyVersion == Some(v))
    }

    // What each upgrader depends on
    ghost function Deps(): Graph
      reads this, byTag.Values
      ensures Deps().Keys == byTag.Keys
    {
      map t | t in byTag :: SetOf(byTag[t].depends)
    }

    constructor ()
      ensures Valid() && byTag == map[] && legacy == map[]
    {
      byTag, tagSet, legacy := map[], {}, map[];
    }

    // The part of the Upgrader constructor that enters the object into the tables
    method Register(u: Upgrader)
      requires Valid()
      modifies this
      ensures Valid() && byTag == old(byTag)[u.tag := u]
      ensures legacy == if u.legacyVersion.Some? then old(legacy)[u.legacyVersion.value := u] else old(legacy)
    {
      tagSet := tagSet + {u.tag};
      if u.legacyVersion.Some? {
        legacy := legacy[u.legacyVersion.value := u];
      }
      byTag := byTag[u.tag := u];
    }

    // Versions 3 up to v are all there.
    ghost predicate Chained(v: int)
      reads this
    {
      3 <= v && forall j :: 3 <= j <= v ==> j in legacy
    }

    method LinkLegacy() returns (r: LoadResult)
      requires Valid()
      modifies legacy.Values`depends
      ensures r == if 3 in legacy && 2 !in legacy then MissingLegacyVersion else Loaded
      ensures r.Loaded? ==> forall v :: v in legacy && Chained(v) ==> legacy[v].depends == [legacy[v - 1].tag]
      ensures r.Loaded? ==> forall v :: v in legacy && !Chained(v) ==> legacy[v].depends == old(legacy[v].depends)
    {
      var i := 3;
      ghost var seen: set<int> := {};
      while i in legacy
        invariant Valid()
        invariant 3 <= i && (3 in legacy && 2 !in legacy ==> i == 3)
        invariant forall j :: j in seen <==> 3 <= j < i
        invariant seen <= legacy.Keys
        invariant forall v :: v in seen ==> legacy[v].depends == [legacy[v - 1].tag]
        invariant forall v :: v in legacy.Keys - seen ==> legacy[v].depends == old(legacy[v].depends)
        decreases legacy.Keys - seen
      {
        if i - 1 !in legacy {
          return MissingLegacyVersion;
        }
        assert forall v :: v in legacy && v != i ==> legacy[v] != legacy[i];
        legacy[i].depends := [legacy[i - 1].tag];
        i, seen := i + 1, seen + {i};
      }
      forall v | v in legacy
        ensures Chained(v) <==> v in seen
      {
        if v in seen {
          assert forall j :: 3 <= j <= v ==> j in seen;
        }
      }
      return Loaded;
    }

    // What each upgrader names as a forward dependence
    ghost function Forward(): (r: Graph)
      reads this
      ensures r.Keys == byTag.Keys
    {
      map t | t in byTag :: SetOf(byTag[t].fwdDepends)
    }

    method AddForward(tag: Tag) returns (ok: bool)
      requires Valid() && tag in byTag
      modifies byTag.Values`depends
      ensures ok <==> Forward()[tag] <= byTag.Keys
      ensures ok ==> Deps() == WithForward(old(Deps()), Forward(), {tag})
    {
      hide WithForward;
      var fwd := byTag[tag].fwdDepends;
      for i := 0 to |fwd|
        invariant SetOf(fwd[..i]) <= byTag.Keys
        invariant forall t :: t in byTag ==>
          SetOf(byTag[t].depends) == SetOf(old(byTag[t].depends)) + if t in fwd[..i] then {tag} else {}
      {
        if fwd[i] !in byTag {
          assert fwd[i] in SetOf(fwd);
          return false;
        }
        var u := byTag[fwd[i]];
        u.depends := u.depends + [tag];
        assert fwd[..i + 1] == fwd[..i] + [fwd[i]];
      }
      assert fwd[..|fwd|] == fwd;
      WithForwardOne(old(Deps()), Forward(), tag, Deps());
      return true;
    }

    method Audit(tag: Tag) returns (ok: bool)
      requires Valid() && tag in byTag
      ensures ok <==> Deps()[tag] <= byTag.Keys
    {
      var depends := byTag[tag].depends;
      for i := 0 to |depends|
        invariant SetOf(depends[..i]) <= byTag.Keys
      {
        if depends[i] !in byTag {
          assert depends[i] in SetOf(depends);
          return false;
        }
      }
      assert depends[..|depends|] == depends;
      return true;
    }

    method ResolveOne(tag: Tag, ghost d0: Graph, ghost seen: set<Tag>) returns (ok: bool)
      requires Valid() && tag in byTag && seen <= byTag.Keys == d0.Keys
      requires Deps() == WithForward(d0, Forward(), seen)
      modifies byTag.Values`depends
      ensures ok <==> Forward()[tag] <= byTag.Keys && d0[tag] <= byTag.Keys
      ensures ok ==> Deps() == WithForward(d0, Forward(), seen + {tag})
    {
      hide Deps, WithForward, Forward;
      ok := AddForward(tag);
      if ok {
        WithForwardStep(d0, Forward(), seen, tag);
        WithForwardKnown(d0, Forward(), seen + {tag}, tag);
        ok := Audit(tag);
      }
    }

    // No dependence of t, in either direction, is on an unknown tag.
    ghost predicate Sound(t: Tag)
      requires t in byTag
      reads this, byTag.Values
    {
      Forward()[t] <= byTag.Keys && Deps()[t] <= byTag.Keys
    }

    /** Forward dependences are added to the upgraders they name, whatever the order in which the
        registry is traversed; loading fails exactly when some dependence names an unknown tag. */
    method Resolve() returns (r: LoadResult)
      requires Valid()
      modifies byTag.Values`depends
      ensures r == if old(forall t :: t in byTag ==> Sound(t)) then Loaded else UnknownTag
      ensures r.Loaded? ==> Closed(Deps()) && Deps() == WithForward(old(Deps()), Forward(), byTag.Keys)
      ensures r.Loaded? ==> Resolved(old(Deps()))
    {
      hide Deps, WithForward, Forward, Resolved;
      ghost var d0 := Deps();
      var rest := byTag.Keys;
      ghost var seen: set<Tag> := {};
      WithForwardNone(d0, Forward());
      while rest != {}
        invariant seen !! rest && seen + rest == byTag.Keys
        invariant Deps() == WithForward(d0, Forward(), seen)
        invariant forall t :: t in seen ==> old(Sound(t))
      {
        var tag :| tag in rest;
        var ok := ResolveOne(tag, d0, seen);
        if !ok {
          return UnknownTag;
        }
        rest, seen := rest - {tag}, seen + {tag};
      }
      forall t | t in d0 {
        WithForwardKnown(d0, Forward(), seen, t);
      }
      ResolvedIs(d0);
      return Loaded;
    }

    // Every upgrader depends on what it did before, and on all those that name it.
    ghost predicate Resolved(before: Graph)
      reads this, byTag.Values
    {
      && before.Keys == byTag.Keys
      && forall t, u :: t in byTag ==>
           (u in byTag[t].depends <==> u in before[t] || (u in byTag && t in byTag[u].fwdDepends))
    }

    lemma ResolvedIs(before: Graph)
      requires before.Keys == byTag.Keys && Deps() == WithForward(before, Forward(), byTag.Keys)
      ensures Resolved(before)
    {
      hide WithForward;
      forall t, u | t in byTag
        ensures u in byTag[t].depends <==> u in before[t] || (u in byTag && t in byTag[u].fwdDepends)
      {
        assert u in Deps()[t] <==> u in byTag[t].depends;
        WithForwardMeans(before, Forward(), byTag.Keys, t, u);
      }
    }

    // u belongs to the unbroken chain of legacy versions from 3 on.
    ghost predicate Linked(u: Upgrader)
      reads this
    {
      u.legacyVersion.Some? && Chained(u.legacyVersion.value) && legacy[u.legacyVersion.value] == u
    }

    // What each upgrader depends on once the legacy versions are chained
    ghost function LinkedDeps(): (r: Graph)
      requires Valid() && (3 in legacy ==> 2 in legacy)
      reads this, byTag.Values
      ensures r.Keys == byTag.Keys
    {
      map t | t in byTag ::
        if Linked(byTag[t]) then {legacy[byTag[t].legacyVersion.value - 1].tag} else SetOf(byTag[t].depends)
    }

    /** Loading fails exactly when version 2 is missing below version 3, or when some dependence, once
        the legacy versions are chained, names an unknown tag; otherwise every upgrader depends on
        what it says, or on its legacy predecessor, and on the tags that name it. */
    method LoadAll() returns (r: LoadResult)
      requires Valid()
      modifies legacy.Values`depends, byTag.Values`depends
      ensures Valid() && (r.MissingLegacyVersion? <==> 3 in legacy && 2 !in legacy)
      ensures !r.MissingLegacyVersion? ==>
        (r.Loaded? <==> forall t :: t in byTag ==> Forward()[t] <= byTag.Keys && old(LinkedDeps()[t]) <= byTag.Keys)
      ensures r.Loaded? ==> Closed(Deps()) && Deps() == WithForward(old(LinkedDeps()), Forward(), byTag.Keys)
      ensures r.Loaded? ==> Resolved(old(LinkedDeps()))
    {
      hide WithForward, SetOf, Resolved;
      r := LinkLegacy();
      if r.Loaded? {
        forall t | t in byTag
          ensures Deps()[t] == old(LinkedDeps())[t]
        {
          var u := byTag[t];
          if Linked(u) {
            SetOfOne(legacy[u.legacyVersion.value - 1].tag);
          } else if u in legacy.Values {
            var v := KeyOf(legacy, u);
            assert !Chained(v);
          }
        }
        assert Deps() == old(LinkedDeps());
        r := Resolve();
      }
    }

    /** The apply loop: upgraders run once each, each after everything it depends on; all of them
        run unless pending dependences form a cycle, and then exactly the tags that do not lead
        into a cycle are applied. */
    method Apply(present: set<Tag>) returns (done: bool, tags: set<Tag>, applied: seq<Tag>)
      requires Valid() && Closed(Deps())
      ensures InOrder(Deps(), present, applied) && tags == present + SetOf(applied)
      ensures done <==> !HasCycle(Deps(), byTag.Keys - present)
      ensures done ==> tags == present + byTag.Keys
      ensures Distinct(applied) && SetOf(applied) <= byTag.Keys - present
      ensures forall t :: t in byTag.Keys - present ==>
        (t in applied <==> !LeadsToCycle(Deps(), byTag.Keys - present, t))
    {
      hide SetOf, Deps, InOrder, LeadsToCycle, HasCycle, Closed;
      ghost var deps := Deps();
      InOrderEmpty(deps, present);
      tags, applied := present, [];
      var toApply := tagSet - tags;
      while toApply != {}
        invariant InOrder(deps, present, applied) && tags == present + SetOf(applied)
        invariant toApply == tagSet - present - SetOf(applied)
      {
        var ready := Pick(toApply, tags);
        if ready == {} {
          InOrderMembers(deps, present, applied);
          StuckIsCyclic(deps, present, applied, toApply);
          CycleOrLasso(deps, deps.Keys - present);
          done := false;
          return;
        }
        tags, applied := UpdateAll(ready, present, tags, applied);
        toApply := toApply - ready;
      }
      StuckIsCyclic(deps, present, applied, toApply);
      CycleOrLasso(deps, deps.Keys - present);
      InOrderMembers(deps, present, applied);
      done := true;
    }

    method Pick(toApply: set<Tag>, tags: set<Tag>) returns (ready: set<Tag>)
      requires Valid() && toApply <= byTag.Keys
      ensures ready <= toApply && forall t :: t in toApply ==> (t in ready <==> Deps()[t] <= tags)
    {
      var rest := toApply;
      ready := {};
      while rest != {}
        invariant rest <= toApply && ready <= toApply - rest
        invariant forall t :: t in toApply - rest ==> (t in ready <==> Deps()[t] <= tags)
      {
        var t :| t in rest;
        var ok := byTag[t].Ready(tags);
        if ok {
          ready := ready + {t};
        }
        rest := rest - {t};
      }
    }

    method UpdateAll(ready: set<Tag>, ghost present: set<Tag>, tags0: set<Tag>, applied0: seq<Tag>)
        returns (tags: set<Tag>, applied: seq<Tag>)
      requires Valid() && InOrder(Deps(), present, applied0) && tags0 == present + SetOf(applied0)
      requires ready <= byTag.Keys - tags0 && forall t :: t in ready ==> Deps()[t] <= tags0
      ensures InOrder(Deps(), present, applied) && tags == present + SetOf(applied)
      ensures SetOf(applied) == SetOf(applied0) + ready
    {
      tags, applied := tags0, applied0;
      var rest := ready;
      while rest != {}
        invariant rest <= ready
        invariant InOrder(Deps(), present, applied) && tags == present + SetOf(applied)
        invariant SetOf(applied) == SetOf(applied0) + (ready - rest)
      {
        var t :| t in rest;
        InOrderSnoc(Deps(), present, applied, t);
        tags := tags + {t};
        applied := applied + [t];
        rest := rest - {t};
      }
    }
  }
}
