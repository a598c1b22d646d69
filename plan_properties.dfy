/** What every release plan computed by the engine satisfies. */
module PlanProperties {
  import opened Outcome
  import opened SemVer
  import opened Sequences
  import opened DepGraph
  import opened BumpRules
  import opened Releases
  import opened Propagation

  /** A minor or major release of a peer dependency gives every dependent a major release,
      whatever range it declares, whether it was chosen or not. */
  lemma PeerEscalation(g: Graph, ex: seq<Release>, dec: map<string, BumpType>, order: seq<string>, k: int)
    requires IsPropagation(g, ex, dec, order)
    requires 0 <= k < |g.edges| && g.edges[k].kind == Peer && g.edges[k].dependency in g.versions
    requires g.edges[k].dependency in dec && dec[g.edges[k].dependency] != Patch
    ensures g.edges[k].dependent in dec && dec[g.edges[k].dependent] == Major
  {
    assert Satisfied(g, dec, g.edges[k]);
  }

  /** The same rule read off a plan: a chosen package that peer-depends on a package chosen
      with a minor or major bump is reported with a major release, whatever it was chosen
      with. */
  lemma ChosenPeerDependentEscalated(g: Graph, ex: seq<Release>, plan: Plan, k: int, i: int, j: int)
    requires IsReleasePlan(g, ex, plan)
    requires 0 <= k < |g.edges| && g.edges[k].kind == Peer && g.edges[k].dependency in g.versions
    requires 0 <= i < |ex| && ex[i].name == g.edges[k].dependent
    requires 0 <= j < |ex| && ex[j].name == g.edges[k].dependency && ex[j].bump != Patch
    ensures i < |plan.releases| && plan.releases[i] == Release(ex[i].name, Major)
  {
    var dec, order :| IsPropagation(g, ex, dec, order)
      && plan == Plan(ChosenReleases(ex, dec), Records(g, ex, dec, order));
    var p := g.edges[k].dependency;
    assert p in ChosenBumps(ex) && AtMost(ChosenBumps(ex)[p], dec[p]);
    PeerEscalation(g, ex, dec, order, k);
  }

  /** When no edge on a chosen package asks for a release, nothing is propagated and no
      chosen bump is raised: only the chosen releases remain. */
  lemma NoSpuriousPropagation(g: Graph, ex: seq<Release>, dec: map<string, BumpType>, order: seq<string>)
    requires IsPropagation(g, ex, dec, order) && Consistent(g)
    requires forall k :: 0 <= k < |g.edges| && g.edges[k].dependency in ChosenBumps(ex) ==>
               Required(g, g.edges[k], ChosenBumps(ex)[g.edges[k].dependency]).None?
    ensures dec == ChosenBumps(ex)
    ensures order == []
  {
    var chosen := ChosenBumps(ex);
    forall k | 0 <= k < |g.edges|
      ensures Satisfied(g, chosen, g.edges[k])
    {
    }
    assert Closed(g, chosen);
    assert Below(dec, chosen);
    forall n | n in dec
      ensures dec[n] == chosen[n]
    {
      RankInjective(dec[n], chosen[n]);
    }
    assert dec.Keys == chosen.Keys;
    assert forall n :: n !in order;
    EmptyWithoutMembers(order);
  }

  lemma EmptyWithoutMembers(s: seq<string>)
    ensures (forall n :: n !in s) ==> s == []
  {
    if s != [] {
      assert s[0] in s;
    }
  }

  /** What edge `e` asks of `d` given the decisions so far, if anything. */
  function Ask(g: Graph, dec: map<string, BumpType>, e: Edge, d: string): Option<BumpType>
  {
    if e.dependent == d && e.dependency in dec then Required(g, e, dec[e.dependency]) else None
  }

  /** The more severe of two optional bumps. */
  function OptMax(a: Option<BumpType>, b: Option<BumpType>): (r: Option<BumpType>)
    ensures r.Some? <==> a.Some? || b.Some?
    ensures a.Some? ==> AtMost(a.value, r.value)
    ensures b.Some? ==> AtMost(b.value, r.value)
    ensures r == a || r == b
  {
    if a.None? then b else if b.None? then a else Some(MaxBump(a.value, b.value))
  }

  /** The most severe request any of `edges` makes of `d`. */
  function Asked(g: Graph, dec: map<string, BumpType>, edges: seq<Edge>, d: string): Option<BumpType>
  {
    if edges == [] then None
    else OptMax(Ask(g, dec, edges[0], d), Asked(g, dec, edges[1..], d))
  }

  /** The bump `n` was chosen with, if it was chosen. */
  function Floor(ex: seq<Release>, n: string): Option<BumpType>
  {
    if n in ChosenBumps(ex) then Some(ChosenBumps(ex)[n]) else None
  }

  lemma {:induction false} AskedBounds(g: Graph, dec: map<string, BumpType>, edges: seq<Edge>, d: string, k: int)
    requires 0 <= k < |edges| && Ask(g, dec, edges[k], d).Some?
    ensures Asked(g, dec, edges, d).Some?
    ensures AtMost(Ask(g, dec, edges[k], d).value, Asked(g, dec, edges, d).value)
    decreases k
  {
    if k > 0 {
      AskedBounds(g, dec, edges[1..], d, k - 1);
    }
  }

  lemma {:induction false} AskedAttained(g: Graph, dec: map<string, BumpType>, edges: seq<Edge>, d: string)
    requires Asked(g, dec, edges, d).Some?
    ensures exists k :: 0 <= k < |edges| && Ask(g, dec, edges[k], d) == Asked(g, dec, edges, d)
    decreases |edges|
  {
    var rest := Asked(g, dec, edges[1..], d);
    if rest.Some? && Asked(g, dec, edges, d) == rest {
      AskedAttained(g, dec, edges[1..], d);
      var k :| 0 <= k < |edges[1..]| && Ask(g, dec, edges[1..][k], d) == rest;
      assert Ask(g, dec, edges[k + 1], d) == rest;
    } else {
      assert Ask(g, dec, edges[0], d) == Asked(g, dec, edges, d);
    }
  }

  /** At a fixed point no package is asked for more than it is released with. */
  lemma AskedWithinClosed(g: Graph, dec: map<string, BumpType>, d: string)
    requires Closed(g, dec)
    requires Asked(g, dec, g.edges, d).Some?
    ensures d in dec && AtMost(Asked(g, dec, g.edges, d).value, dec[d])
  {
    AskedAttained(g, dec, g.edges, d);
    var k :| 0 <= k < |g.edges| && Ask(g, dec, g.edges[k], d) == Asked(g, dec, g.edges, d);
    assert Satisfied(g, dec, g.edges[k]);
  }

  lemma RankInjective(a: BumpType, b: BumpType)
    requires AtMost(a, b) && AtMost(b, a)
    ensures a == b
  {
  }

  /** Maximum severity wins, and nothing more: every released package gets exactly the most
      severe of the bump it was chosen with and the bumps its edges ask for; no request is
      above it, and it is either the chosen bump or some edge's request. */
  lemma DecisionIsStrongestRequest(g: Graph, ex: seq<Release>, dec: map<string, BumpType>, order: seq<string>)
    requires IsPropagation(g, ex, dec, order) && Consistent(g)
    ensures forall n :: n in dec ==> OptMax(Floor(ex, n), Asked(g, dec, g.edges, n)) == Some(dec[n])
    ensures forall n, k :: n in dec && 0 <= k < |g.edges| && Ask(g, dec, g.edges[k], n).Some? ==>
              AtMost(Ask(g, dec, g.edges[k], n).value, dec[n])
    ensures forall n :: n in dec ==>
              Floor(ex, n) == Some(dec[n]) || exists k :: 0 <= k < |g.edges| && Ask(g, dec, g.edges[k], n) == Some(dec[n])
  {
    var q := map n | n in dec && OptMax(Floor(ex, n), Asked(g, dec, g.edges, n)).Some? ::
               OptMax(Floor(ex, n), Asked(g, dec, g.edges, n)).value;
    forall n | n in q
      ensures AtMost(q[n], dec[n])
    {
      if Asked(g, dec, g.edges, n).Some? {
        AskedWithinClosed(g, dec, n);
      }
    }
    assert Seeded(ex, q);
    forall k | 0 <= k < |g.edges|
      ensures Satisfied(g, q, g.edges[k])
    {
      var e := g.edges[k];
      if e.dependency in q && Required(g, e, q[e.dependency]).Some? {
        assert EdgeConsistent(g, e);
        RequiredMonotone(g, e, q[e.dependency], dec[e.dependency]);
        assert Ask(g, dec, e, e.dependent) == Required(g, e, dec[e.dependency]);
        AskedBounds(g, dec, g.edges, e.dependent, k);
        assert Satisfied(g, dec, e);
      }
    }
    assert Closed(g, q);
    assert Below(dec, q);
    forall n | n in dec
      ensures OptMax(Floor(ex, n), Asked(g, dec, g.edges, n)) == Some(dec[n])
    {
      RankInjective(q[n], dec[n]);
    }
    forall n, k | n in dec && 0 <= k < |g.edges| && Ask(g, dec, g.edges[k], n).Some?
      ensures AtMost(Ask(g, dec, g.edges[k], n).value, dec[n])
    {
      AskedBounds(g, dec, g.edges, n, k);
    }
    forall n | n in dec && Floor(ex, n) != Some(dec[n])
      ensures exists k :: 0 <= k < |g.edges| && Ask(g, dec, g.edges[k], n) == Some(dec[n])
    {
      AskedAttained(g, dec, g.edges, n);
    }
  }

  /** A fixed point above the chosen releases that is also below the result is the result. */
  lemma ExactFixedPoint(g: Graph, ex: seq<Release>, dec: map<string, BumpType>, order: seq<string>, q: map<string, BumpType>)
    requires IsPropagation(g, ex, dec, order) && Consistent(g)
    requires Seeded(ex, q) && Closed(g, q) && Below(q, dec)
    ensures dec == q
  {
    assert Below(dec, q);
    forall n | n in dec
      ensures dec[n] == q[n]
    {
      RankInjective(dec[n], q[n]);
    }
  }

  /** Propagation is a function of the graph and the chosen releases: any two results
      release the same packages with the same bumps. */
  lemma PropagationUnique(g: Graph, ex: seq<Release>, d1: map<string, BumpType>, o1: seq<string>,
                          d2: map<string, BumpType>, o2: seq<string>)
    requires IsPropagation(g, ex, d1, o1) && IsPropagation(g, ex, d2, o2) && Consistent(g)
    ensures d1 == d2
  {
    assert Below(d1, d2);
    assert Below(d2, d1);
    forall n | n in d1
      ensures d1[n] == d2[n]
    {
      RankInjective(d1[n], d2[n]);
    }
  }

  /** Any two plans for the same graph and choices report the chosen releases alike. */
  lemma PlanReleasesUnique(g: Graph, ex: seq<Release>, p1: Plan, p2: Plan)
    requires IsReleasePlan(g, ex, p1) && IsReleasePlan(g, ex, p2) && Consistent(g)
    ensures p1.releases == p2.releases
  {
    var d1, o1 :| IsPropagation(g, ex, d1, o1) && p1 == Plan(ChosenReleases(ex, d1), Records(g, ex, d1, o1));
    var d2, o2 :| IsPropagation(g, ex, d2, o2) && p2 == Plan(ChosenReleases(ex, d2), Records(g, ex, d2, o2));
    PropagationUnique(g, ex, d1, o1, d2, o2);
  }

  /** Every propagated record names at least one released dependency: the one that
      triggered it. */
  lemma RecordsNameTheirTrigger(g: Graph, ex: seq<Release>, dec: map<string, BumpType>, order: seq<string>)
    requires IsPropagation(g, ex, dec, order)
    ensures forall i :: 0 <= i < |order| ==> |Records(g, ex, dec, order)[i].dependencies| > 0
  {
    forall i | 0 <= i < |order|
      ensures |Records(g, ex, dec, order)[i].dependencies| > 0
    {
      assert HasTrigger(g, ex, dec, order, i);
      var k :| TriggeredFrom(g, ex, dec, order, i, k);
      var p := g.edges[k].dependency;
      assert p in order + Names(ex);
      assert DependsOn(g, order[i], p);
      assert p in Records(g, ex, dec, order)[i].dependencies;
    }
  }

  lemma DistinctReleased(ex: seq<Release>, order: seq<string>)
    requires Distinct(order) && DistinctNames(ex)
    requires forall n :: n in order ==> n !in Names(ex)
    ensures Distinct(order + Names(ex))
  {
    var released := order + Names(ex);
    forall i, j | 0 <= i < j < |released|
      ensures released[i] != released[j]
    {
      if j < |order| {
        assert released[i] == order[i] && released[j] == order[j];
      } else if i < |order| {
        assert released[j] == Names(ex)[j - |order|] && released[j] in Names(ex);
        assert released[i] == order[i] && order[i] in order;
      } else {
        assert released[i] == ex[i - |order|].name && released[j] == ex[j - |order|].name;
      }
    }
  }

  /** Every record lists its released dependencies in release-listing order (propagated
      packages in discovery order, then the chosen ones in the order chosen), and, the
      chosen names being distinct, none twice. */
  lemma RecordDependenciesInReleaseOrder(g: Graph, ex: seq<Release>, dec: map<string, BumpType>, order: seq<string>)
    requires IsPropagation(g, ex, dec, order)
    ensures forall i :: 0 <= i < |order| ==>
              IsSubsequence(Records(g, ex, dec, order)[i].dependencies, order + Names(ex))
    ensures DistinctNames(ex) ==>
              forall i :: 0 <= i < |order| ==> Distinct(Records(g, ex, dec, order)[i].dependencies)
  {
    if DistinctNames(ex) {
      DistinctReleased(ex, order);
    }
  }

  /** A plan reports every chosen release, in the order chosen, never below the bump it was
      chosen with; each propagated package appears once among the dependents and never
      among the chosen releases. */
  lemma PlanSeparatesChosen(g: Graph, ex: seq<Release>, plan: Plan)
    requires IsReleasePlan(g, ex, plan)
    ensures |plan.releases| == |ex|
    ensures forall i :: 0 <= i < |ex| ==> plan.releases[i].name == ex[i].name && AtMost(ex[i].bump, plan.releases[i].bump)
    ensures forall i :: 0 <= i < |plan.dependents| ==> plan.dependents[i].name !in Names(ex)
    ensures forall i, j :: 0 <= i < j < |plan.dependents| ==> plan.dependents[i].name != plan.dependents[j].name
  {
    var dec, order :| IsPropagation(g, ex, dec, order) && plan == Plan(ChosenReleases(ex, dec), Records(g, ex, dec, order));
    forall i | 0 <= i < |plan.dependents|
      ensures plan.dependents[i].name !in Names(ex)
    {
      assert plan.dependents[i].name == order[i] && order[i] in order;
    }
  }
}
