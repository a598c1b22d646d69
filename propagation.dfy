/** The bump propagation engine: from the explicitly chosen releases to the full release
    plan, by a worklist that runs until no release is added or raised. */
module Propagation {
  import opened Outcome
  import opened SemVer
  import opened Sequences
  import opened DepGraph
  import opened BumpRules
  import opened Releases

  /** A release forced by propagation; `dependencies` lists the released packages it depends
      on. (The JavaScript field `type` is called `bump` here.) */
  datatype Dependent = Dependent(name: string, bump: BumpType, dependencies: seq<string>)

  /** What the add command hands on to be written as a changeset, its summary aside. */
  datatype Plan = Plan(releases: seq<Release>, dependents: seq<Dependent>)

  /** Edge `e` asks nothing of its dependent that the decisions `dec` do not already give. */
  predicate Satisfied(g: Graph, dec: map<string, BumpType>, e: Edge)
  {
    e.dependency in dec && Required(g, e, dec[e.dependency]).Some? ==>
      e.dependent in dec && AtMost(Required(g, e, dec[e.dependency]).value, dec[e.dependent])
  }

  /** A fixed point: no edge asks for a release that is missing or too small. */
  predicate Closed(g: Graph, dec: map<string, BumpType>)
  {
    forall k :: 0 <= k < |g.edges| ==> Satisfied(g, dec, g.edges[k])
  }

  /** Every chosen package is released, never below the bump it was chosen with. */
  predicate Seeded(ex: seq<Release>, dec: map<string, BumpType>)
  {
    forall n :: n in ChosenBumps(ex) ==> n in dec && AtMost(ChosenBumps(ex)[n], dec[n])
  }

  /** Every release of `dec` is also in `q`, at least as severe. */
  predicate Below(dec: map<string, BumpType>, q: map<string, BumpType>)
  {
    forall n :: n in dec ==> n in q && AtMost(dec[n], q[n])
  }

  /** `dec` releases nothing that every fixed point above the chosen releases does not also
      release. */
  ghost predicate Least(g: Graph, ex: seq<Release>, dec: map<string, BumpType>)
  {
    forall q :: Seeded(ex, q) && Closed(g, q) ==> Below(dec, q)
  }

  /** The `j`th discovered dependent was triggered through edge `k` by a package released
      explicitly or discovered before it. */
  predicate TriggeredFrom(g: Graph, ex: seq<Release>, dec: map<string, BumpType>, order: seq<string>, j: int, k: int)
  {
    0 <= j < |order| && 0 <= k < |g.edges| && g.edges[k].dependent == order[j]
    && (g.edges[k].dependency in Names(ex) || g.edges[k].dependency in order[..j])
    && g.edges[k].dependency in dec
    && TriggeredUpTo(g, g.edges[k], dec[g.edges[k].dependency])
  }

  ghost predicate HasTrigger(g: Graph, ex: seq<Release>, dec: map<string, BumpType>, order: seq<string>, j: int)
  {
    exists k :: TriggeredFrom(g, ex, dec, order, j, k)
  }

  /** Discovery order is well founded: nothing is released on its own say-so. */
  ghost predicate OrderJustified(g: Graph, ex: seq<Release>, dec: map<string, BumpType>, order: seq<string>)
  {
    forall j :: 0 <= j < |order| ==> HasTrigger(g, ex, dec, order, j)
  }

  /** `dec` holds the chosen releases, at their bump or above, and the propagated ones;
      `order` lists the propagated ones, the packages not chosen, once each. */
  ghost predicate Tracked(g: Graph, ex: seq<Release>, dec: map<string, BumpType>, order: seq<string>)
  {
    Distinct(order)
    && (forall n :: n in order <==> n in dec && n !in Names(ex))
    && (forall n :: n in dec ==> n in Names(ex) || n in g.versions)
    && Seeded(ex, dec)
  }

  /** What the propagation promises of its result. */
  ghost predicate IsPropagation(g: Graph, ex: seq<Release>, dec: map<string, BumpType>, order: seq<string>)
  {
    Tracked(g, ex, dec, order)
    && Closed(g, dec)
    && OrderJustified(g, ex, dec, order)
    && (Consistent(g) ==> Least(g, ex, dec))
  }

  // ----- termination measure: how far each edge's dependent may still be raised -----

  function Headroom(dec: map<string, BumpType>, n: string): nat
  {
    if n in dec then 2 - Rank(dec[n]) else 3
  }

  function Potential(edges: seq<Edge>, dec: map<string, BumpType>): nat
  {
    if edges == [] then 0 else Headroom(dec, edges[0].dependent) + Potential(edges[1..], dec)
  }

  lemma {:induction false} PotentialNoRise(edges: seq<Edge>, dec: map<string, BumpType>, d: string, s: BumpType)
    requires d !in dec || AtMost(dec[d], s)
    ensures Potential(edges, dec[d := s]) <= Potential(edges, dec)
    decreases |edges|
  {
    if edges != [] {
      PotentialNoRise(edges[1..], dec, d, s);
    }
  }

  /** Raising the dependent of some edge strictly lowers the measure. */
  lemma {:induction false} PotentialDrops(edges: seq<Edge>, dec: map<string, BumpType>, d: string, s: BumpType, i: nat)
    requires i < |edges| && edges[i].dependent == d
    requires d !in dec || Rank(dec[d]) < Rank(s)
    ensures Potential(edges, dec[d := s]) < Potential(edges, dec)
    decreases i
  {
    if i == 0 {
      PotentialNoRise(edges[1..], dec, d, s);
    } else {
      PotentialDrops(edges[1..], dec, d, s, i - 1);
    }
  }

  // ----- one step of the worklist -----

  /** What one step adds is below every fixed point that lies above what came before. */
  lemma LeastStep(g: Graph, dec: map<string, BumpType>, q: map<string, BumpType>, e: Edge, t: BumpType)
    requires EdgeConsistent(g, e)
    requires Below(dec, q) && Satisfied(g, q, e)
    requires e.dependency in dec && AtMost(t, dec[e.dependency])
    requires Required(g, e, t).Some?
    ensures e.dependent in q && AtMost(Required(g, e, t).value, q[e.dependent])
  {
    RequiredMonotone(g, e, t, q[e.dependency]);
  }

  lemma JustifiedAfterRaise(g: Graph, ex: seq<Release>, dec: map<string, BumpType>, order: seq<string>, d: string, s: BumpType)
    requires OrderJustified(g, ex, dec, order)
    requires d !in dec || AtMost(dec[d], s)
    ensures OrderJustified(g, ex, dec[d := s], order)
  {
    var dec' := dec[d := s];
    forall j | 0 <= j < |order|
      ensures HasTrigger(g, ex, dec', order, j)
    {
      assert HasTrigger(g, ex, dec, order, j);
      var k :| TriggeredFrom(g, ex, dec, order, j, k);
      var p := g.edges[k].dependency;
      TriggeredUpToGrows(g, g.edges[k], dec[p], dec'[p]);
      assert TriggeredFrom(g, ex, dec', order, j, k);
    }
  }

  lemma JustifiedAfterAdd(g: Graph, ex: seq<Release>, dec: map<string, BumpType>, order: seq<string>, i: int, t: BumpType, s: BumpType)
    requires OrderJustified(g, ex, dec, order)
    requires Tracked(g, ex, dec, order)
    requires 0 <= i < |g.edges|
    requires g.edges[i].dependent !in dec
    requires g.edges[i].dependency in dec && AtMost(t, dec[g.edges[i].dependency])
    requires Required(g, g.edges[i], t).Some?
    ensures OrderJustified(g, ex, dec[g.edges[i].dependent := s], order + [g.edges[i].dependent])
  {
    var d := g.edges[i].dependent;
    var dec', order' := dec[d := s], order + [d];
    JustifiedAfterRaise(g, ex, dec, order, d, s);
    forall j | 0 <= j < |order'|
      ensures HasTrigger(g, ex, dec', order', j)
    {
      if j < |order| {
        assert HasTrigger(g, ex, dec', order, j);
        var k :| TriggeredFrom(g, ex, dec', order, j, k);
        assert order'[..j] == order[..j];
        assert TriggeredFrom(g, ex, dec', order', j, k);
      } else {
        var p := g.edges[i].dependency;
        assert order'[..j] == order;
        RequiredTriggers(g, g.edges[i], t);
        TriggeredUpToGrows(g, g.edges[i], t, dec'[p]);
        assert TriggeredFrom(g, ex, dec', order', j, i);
      }
    }
  }

  /** Between two packages taken from the queue: every edge whose dependency is not queued
      is satisfied. */
  ghost predicate Pending(g: Graph, ex: seq<Release>, dec: map<string, BumpType>, order: seq<string>, queue: seq<string>)
  {
    Valid(g)
    && Tracked(g, ex, dec, order)
    && (forall n :: n in queue ==> n in dec)
    && (forall k :: 0 <= k < |g.edges| ==> g.edges[k].dependency in queue || Satisfied(g, dec, g.edges[k]))
    && OrderJustified(g, ex, dec, order)
    && (Consistent(g) ==> Least(g, ex, dec))
  }

  /** While the edges declaring `p` (taken from the queue with bump `t`) are checked: the
      edges from index `i` on that declare `p` are still to be looked at. */
  ghost predicate Scanning(g: Graph, ex: seq<Release>, dec: map<string, BumpType>, order: seq<string>, queue: seq<string>,
                           p: string, t: BumpType, i: int)
  {
    0 <= i <= |g.edges|
    && Valid(g)
    && Tracked(g, ex, dec, order)
    && (forall n :: n in queue ==> n in dec)
    && p in dec && AtMost(t, dec[p])
    && (dec[p] == t || p in queue)
    && (forall k :: 0 <= k < |g.edges| ==>
          g.edges[k].dependency in queue || Satisfied(g, dec, g.edges[k])
          || (g.edges[k].dependency == p && i <= k))
    && OrderJustified(g, ex, dec, order)
    && (Consistent(g) ==> Least(g, ex, dec))
  }

  /** Edge `i` asks more of its dependent than has been decided. */
  predicate Raises(g: Graph, dec: map<string, BumpType>, p: string, t: BumpType, i: int)
  {
    0 <= i < |g.edges|
    && g.edges[i].dependency == p
    && Required(g, g.edges[i], t).Some?
    && (g.edges[i].dependent !in dec || !AtMost(Required(g, g.edges[i], t).value, dec[g.edges[i].dependent]))
  }

  lemma PendingInitially(g: Graph, ex: seq<Release>)
    requires Valid(g)
    ensures Pending(g, ex, ChosenBumps(ex), [], Names(ex))
  {
  }

  lemma ScanStarts(g: Graph, ex: seq<Release>, dec: map<string, BumpType>, order: seq<string>, queue: seq<string>)
    requires Pending(g, ex, dec, order, queue) && queue != []
    ensures Scanning(g, ex, dec, order, queue[1..], queue[0], dec[queue[0]], 0)
  {
    forall k | 0 <= k < |g.edges| && g.edges[k].dependency in queue && g.edges[k].dependency != queue[0]
      ensures g.edges[k].dependency in queue[1..]
    {
    }
  }

  lemma ScanEnds(g: Graph, ex: seq<Release>, dec: map<string, BumpType>, order: seq<string>, queue: seq<string>, p: string, t: BumpType)
    requires Scanning(g, ex, dec, order, queue, p, t, |g.edges|)
    ensures Pending(g, ex, dec, order, queue)
  {
  }

  lemma PendingDone(g: Graph, ex: seq<Release>, dec: map<string, BumpType>, order: seq<string>)
    requires Pending(g, ex, dec, order, [])
    ensures IsPropagation(g, ex, dec, order)
  {
  }

  /** An edge that asks for nothing new leaves the state as it is. */
  lemma SkipEdge(g: Graph, ex: seq<Release>, dec: map<string, BumpType>, order: seq<string>, queue: seq<string>,
                 p: string, t: BumpType, i: int)
    requires Scanning(g, ex, dec, order, queue, p, t, i) && i < |g.edges|
    requires !Raises(g, dec, p, t, i)
    ensures Scanning(g, ex, dec, order, queue, p, t, i + 1)
  {
  }

  lemma SatisfiedAfterRaise(g: Graph, dec: map<string, BumpType>, d: string, s: BumpType, e: Edge)
    requires d !in dec || AtMost(dec[d], s)
    requires e.dependency != d
    requires Satisfied(g, dec, e)
    ensures Satisfied(g, dec[d := s], e)
  {
  }

  lemma TrackedAfterRaise(g: Graph, ex: seq<Release>, dec: map<string, BumpType>, order: seq<string>, d: string, s: BumpType)
    requires Tracked(g, ex, dec, order)
    requires d in g.versions
    requires d !in dec || AtMost(dec[d], s)
    ensures Tracked(g, ex, dec[d := s], if d in dec then order else order + [d])
  {
    var dec', order' := dec[d := s], if d in dec then order else order + [d];
    var chosen := ChosenBumps(ex);
    assert d in Names(ex) ==> d in chosen;
    forall n | n in chosen
      ensures n in dec' && AtMost(chosen[n], dec'[n])
    {
      assert n in dec && AtMost(chosen[n], dec[n]);
    }
    assert Seeded(ex, dec');
    if d !in dec {
      assert d !in order && d !in Names(ex);
      forall i, j | 0 <= i < j < |order'|
        ensures order'[i] != order'[j]
      {
        if j == |order| {
          assert order[i] in order;
        }
      }
    }
  }

  lemma LeastAfterRaise(g: Graph, ex: seq<Release>, dec: map<string, BumpType>, p: string, t: BumpType, i: int)
    requires Valid(g) && Consistent(g) && Least(g, ex, dec)
    requires p in dec && AtMost(t, dec[p])
    requires Raises(g, dec, p, t, i)
    ensures Least(g, ex, dec[g.edges[i].dependent := Required(g, g.edges[i], t).value])
  {
    var e := g.edges[i];
    var dec' := dec[e.dependent := Required(g, e, t).value];
    forall q | Seeded(ex, q) && Closed(g, q)
      ensures Below(dec', q)
    {
      assert Satisfied(g, q, g.edges[i]);
      LeastStep(g, dec, q, e, t);
    }
  }

  /** Recording and queueing what edge `i` asks for keeps the scan's invariant. */
  lemma RaiseEdge(g: Graph, ex: seq<Release>, dec: map<string, BumpType>, order: seq<string>, queue: seq<string>,
                  p: string, t: BumpType, i: int)
    requires Scanning(g, ex, dec, order, queue, p, t, i)
    requires Raises(g, dec, p, t, i)
    ensures var d, s := g.edges[i].dependent, Required(g, g.edges[i], t).value;
            Scanning(g, ex, dec[d := s], if d in dec then order else order + [d], queue + [d], p, t, i + 1)
  {
    var e := g.edges[i];
    var d, s := e.dependent, Required(g, e, t).value;
    var dec', order', queue' := dec[d := s], if d in dec then order else order + [d], queue + [d];
    assert Resolves(g, g.edges[i]);
    TrackedAfterRaise(g, ex, dec, order, d, s);
    if Consistent(g) {
      LeastAfterRaise(g, ex, dec, p, t, i);
    }
    if d !in dec {
      JustifiedAfterAdd(g, ex, dec, order, i, t, s);
    } else {
      JustifiedAfterRaise(g, ex, dec, order, d, s);
    }
    forall k | 0 <= k < |g.edges|
      ensures g.edges[k].dependency in queue' || Satisfied(g, dec', g.edges[k])
        || (g.edges[k].dependency == p && i + 1 <= k)
    {
      if g.edges[k].dependency in queue || g.edges[k].dependency == d {
      } else if k == i {
        assert Satisfied(g, dec', g.edges[k]);
      } else if Satisfied(g, dec, g.edges[k]) {
        SatisfiedAfterRaise(g, dec, d, s, g.edges[k]);
      }
    }
  }

  /** The worklist: the decisions start as the chosen releases; each released package, when
      taken from the queue, is checked against every edge that declares it, and a dependent
      that must be released, or released more severely, chosen or not, is raised to the
      bump asked for and queued in turn. */
  method Propagate(g: Graph, ex: seq<Release>) returns (dec: map<string, BumpType>, order: seq<string>)
    requires Valid(g)
    ensures IsPropagation(g, ex, dec, order)
  {
    dec, order := ChosenBumps(ex), [];
    var queue := Names(ex);
    PendingInitially(g, ex);
    while queue != []
      invariant Pending(g, ex, dec, order, queue)
      decreases Potential(g.edges, dec), |queue|
    {
      ScanStarts(g, ex, dec, order, queue);
      var p := queue[0];
      var t := dec[p];
      queue := queue[1..];
      ghost var pot0, rest := Potential(g.edges, dec), queue;
      var i := 0;
      while i < |g.edges|
        invariant Scanning(g, ex, dec, order, queue, p, t, i)
        invariant Potential(g.edges, dec) <= pot0
        invariant Potential(g.edges, dec) < pot0 || queue == rest
      {
        if Raises(g, dec, p, t, i) {
          var d, s := g.edges[i].dependent, Required(g, g.edges[i], t).value;
          RaiseEdge(g, ex, dec, order, queue, p, t, i);
          PotentialDrops(g.edges, dec, d, s, i);
          if d !in dec {
            order := order + [d];
          }
          dec := dec[d := s];
          queue := queue + [d];
        } else {
          SkipEdge(g, ex, dec, order, queue, p, t, i);
        }
        i := i + 1;
      }
      ScanEnds(g, ex, dec, order, queue, p, t);
    }
    PendingDone(g, ex, dec, order);
  }

  /** The released packages that `d` depends on, in the order `released` lists them. */
  function ReleasedDependencies(g: Graph, d: string, released: seq<string>): (r: seq<string>)
    ensures forall n :: n in r <==> n in released && DependsOn(g, d, n)
    ensures IsSubsequence(r, released)
    ensures Distinct(released) ==> Distinct(r)
  {
    if released == [] then []
    else
      var rest := ReleasedDependencies(g, d, released[1..]);
      assert Distinct(released) ==> Distinct(released[1..]) && released[0] !in released[1..];
      if DependsOn(g, d, released[0]) then
        assert ([released[0]] + rest)[1..] == rest;
        [released[0]] + rest
      else rest
  }

  /** The chosen releases as reported: in the order chosen, each with its decided bump. */
  function ChosenReleases(ex: seq<Release>, dec: map<string, BumpType>): seq<Release>
    requires forall i :: 0 <= i < |ex| ==> ex[i].name in dec
  {
    seq(|ex|, i requires 0 <= i < |ex| => Release(ex[i].name, dec[ex[i].name]))
  }

  /** The `dependents` records, in discovery order; the released packages are listed as the
      propagated ones in discovery order, then the chosen ones in the order chosen. */
  function Records(g: Graph, ex: seq<Release>, dec: map<string, BumpType>, order: seq<string>): seq<Dependent>
    requires forall n :: n in order ==> n in dec
  {
    seq(|order|, i requires 0 <= i < |order| =>
      Dependent(order[i], dec[order[i]], ReleasedDependencies(g, order[i], order + Names(ex))))
  }

  /** `plan` reports the chosen releases with their decided bumps and the propagated ones as
      records. */
  ghost predicate IsReleasePlan(g: Graph, ex: seq<Release>, plan: Plan)
  {
    exists dec, order :: IsPropagation(g, ex, dec, order)
      && plan == Plan(ChosenReleases(ex, dec), Records(g, ex, dec, order))
  }

  /** The engine's entry point: a dangling edge aborts with an error; otherwise the plan. */
  method ComputeReleasePlan(g: Graph, ex: seq<Release>) returns (r: Result<Plan, GraphError>)
    ensures CheckGraph(g).Some? ==> r == Err(CheckGraph(g).value)
    ensures CheckGraph(g).None? ==> r.Ok? && IsReleasePlan(g, ex, r.value)
  {
    var err := CheckGraph(g);
    if err.Some? {
      return Err(err.value);
    }
    var dec, order := Propagate(g, ex);
    r := Ok(Plan(ChosenReleases(ex, dec), Records(g, ex, dec, order)));
  }
}
