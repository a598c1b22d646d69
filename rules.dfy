/** The bump rule table: what one dependency edge requires of its dependent when the
    dependency is released. */
module BumpRules {
  import opened Outcome
  import opened SemVer
  import opened Ranges
  import opened DepGraph

  /** Keyed by edge kind, upstream severity and range: a minor or major release of a peer
      dependency forces a major release of the dependent whatever the range; otherwise the
      dependent is patched exactly when the dependency's next version leaves the range. */
  function Rule(kind: DepKind, upstream: BumpType, range: Range, next: Version): Option<BumpType>
  {
    if kind == Peer && upstream != Patch then Some(Major)
    else if Admits(range, next) then None
    else Some(Patch)
  }

  /** The release `e` asks of its dependent when its dependency is released with `upstream`,
      computed from the dependency's current version. */
  function Required(g: Graph, e: Edge, upstream: BumpType): Option<BumpType>
  {
    if e.dependency in g.versions then
      Rule(e.kind, upstream, e.range, Bump(g.versions[e.dependency], upstream))
    else None
  }

  /** Some bump no more severe than `cur` makes `e` ask for a release. */
  predicate TriggeredUpTo(g: Graph, e: Edge, cur: BumpType)
  {
    Required(g, e, Patch).Some?
    || (Rank(cur) >= 1 && Required(g, e, Minor).Some?)
    || (cur == Major && Required(g, e, Major).Some?)
  }

  /** On a range that admits the current version, a more severe upstream bump never asks
      less of the dependent. */
  lemma RequiredMonotone(g: Graph, e: Edge, a: BumpType, b: BumpType)
    requires EdgeConsistent(g, e)
    requires AtMost(a, b)
    requires Required(g, e, a).Some?
    ensures Required(g, e, b).Some?
    ensures AtMost(Required(g, e, a).value, Required(g, e, b).value)
  {
    var v := g.versions[e.dependency];
    if !(e.kind == Peer && b != Patch) {
      assert !(e.kind == Peer && a != Patch);
      assert !Admits(e.range, Bump(v, a));
      LeavingIsMonotone(e.range, v, a, b);
    }
  }

  lemma TriggeredUpToGrows(g: Graph, e: Edge, a: BumpType, b: BumpType)
    requires AtMost(a, b)
    requires TriggeredUpTo(g, e, a)
    ensures TriggeredUpTo(g, e, b)
  {
  }

  lemma RequiredTriggers(g: Graph, e: Edge, t: BumpType)
    requires Required(g, e, t).Some?
    ensures TriggeredUpTo(g, e, t)
  {
  }

  /** The peer-dependency table for a dependency at `v` (major at least 1), the dependent's
      range anchored at `v`: pinned+patch patches; tilde or caret+patch asks nothing; every
      minor or major bump asks for a major release, whatever the shape. */
  lemma PeerRuleTable(v: Version)
    requires v.major >= 1
    ensures Rule(Peer, Patch, Pinned(v), Bump(v, Patch)) == Some(Patch)
    ensures Rule(Peer, Patch, Tilde(v), Bump(v, Patch)) == None
    ensures Rule(Peer, Patch, Caret(v), Bump(v, Patch)) == None
    ensures forall r: Range, t: BumpType :: t != Patch ==> Rule(Peer, t, r, Bump(v, t)) == Some(Major)
  {
  }

  /** The ordinary table on the same anchored ranges: a patch release of the dependent exactly
      when the dependency's next version leaves the range, so a caret range survives a minor
      bump and a tilde range does not. */
  lemma NormalRuleTable(v: Version)
    requires v.major >= 1
    ensures forall t: BumpType :: Rule(Normal, t, Pinned(v), Bump(v, t)) == Some(Patch)
    ensures Rule(Normal, Patch, Tilde(v), Bump(v, Patch)) == None
    ensures Rule(Normal, Minor, Tilde(v), Bump(v, Minor)) == Some(Patch)
    ensures Rule(Normal, Major, Tilde(v), Bump(v, Major)) == Some(Patch)
    ensures Rule(Normal, Patch, Caret(v), Bump(v, Patch)) == None
    ensures Rule(Normal, Minor, Caret(v), Bump(v, Minor)) == None
    ensures Rule(Normal, Major, Caret(v), Bump(v, Major)) == Some(Patch)
  {
  }
}
