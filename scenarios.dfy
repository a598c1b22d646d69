/** The peer-dependency scenarios of the add command's tests: for each workspace and chosen
    release, every plan the engine may return is the expected one. */
module PeerDepScenarios {
  import opened Outcome
  import opened SemVer
  import opened Ranges
  import opened DepGraph
  import opened BumpRules
  import opened Releases
  import opened Propagation
  import opened PlanProperties

  datatype Shape = PinnedShape | TildeShape | CaretShape

  /** A range of the given shape written at version `v` (`v`, `~v` or `^v`). */
  function Anchor(shape: Shape, v: Version): Range
  {
    match shape
    case PinnedShape => Pinned(v)
    case TildeShape => Tilde(v)
    case CaretShape => Caret(v)
  }

  /** The `simple-pinned-peer-dep`, `simple-tilde-peer-dep` and `simple-caret-peer-dep`
      workspaces: `has-peer-dep` declares `depended-upon`, at version `v`, as a peer dependency. */
  function SimpleWorkspace(shape: Shape, v: Version): Graph
  {
    Graph(map["depended-upon" := v, "has-peer-dep" := v],
          [Edge("has-peer-dep", "depended-upon", Peer, Anchor(shape, v))])
  }

  /** The `previously-checked-transitive-peer-dependent` workspace: `pkg-b` has caret
      dependencies on `pkg-c` and `pkg-a`; `pkg-c` has a caret peer dependency on `pkg-a`. */
  function TransitiveWorkspace(v: Version): Graph
  {
    Graph(map["pkg-a" := v, "pkg-b" := v, "pkg-c" := v],
          [Edge("pkg-b", "pkg-a", Normal, Caret(v)),
           Edge("pkg-b", "pkg-c", Normal, Caret(v)),
           Edge("pkg-c", "pkg-a", Peer, Caret(v))])
  }

  /** A workspace where `pkg-c` has a caret peer dependency on `pkg-a`. */
  function PeerPairWorkspace(v: Version): Graph
  {
    Graph(map["pkg-a" := v, "pkg-c" := v], [Edge("pkg-c", "pkg-a", Peer, Caret(v))])
  }

  lemma SingleOrder(order: seq<string>, x: string)
    ensures ((forall i, j :: 0 <= i < j < |order| ==> order[i] != order[j])
             && (forall n :: n in order <==> n == x)) ==> order == [x]
  {
    if |order| >= 2 {
      assert order[0] in order && order[1] in order;
    } else if |order| == 1 {
      assert order[0] in order;
    } else {
      assert x !in order;
    }
  }

  lemma PairOrder(order: seq<string>, a: string, b: string)
    ensures ((forall i, j :: 0 <= i < j < |order| ==> order[i] != order[j])
             && (forall n :: n in order <==> n == a || n == b) && a != b) ==> |order| == 2
  {
    if |order| >= 3 {
      assert order[0] in order && order[1] in order && order[2] in order;
    } else if |order| == 1 {
      assert a in order ==> order[0] == a;
      assert b in order ==> order[0] == b;
    } else if |order| == 0 {
      assert a !in order;
    }
  }

  /** The bump `has-peer-dep` is asked for in a simple workspace, if any. */
  lemma SimpleRequired(shape: Shape, t: BumpType, v: Version)
    requires v.major >= 1
    ensures var e := SimpleWorkspace(shape, v).edges[0];
      Required(SimpleWorkspace(shape, v), e, t) ==
        if t != Patch then Some(Major) else if shape == PinnedShape then Some(Patch) else None
  {
    PeerRuleTable(v);
  }

  lemma SimpleFacts(shape: Shape, t: BumpType, v: Version)
    ensures Consistent(SimpleWorkspace(shape, v))
    ensures ChosenBumps([Release("depended-upon", t)]) == map["depended-upon" := t]
    ensures Names([Release("depended-upon", t)]) == ["depended-upon"]
  {
    var ex := [Release("depended-upon", t)];
    assert Names(ex) == ["depended-upon"];
    assert ChosenBumps(ex).Keys == {"depended-upon"};
  }

  /** Where the peer rule or the pinned range asks for a release, `has-peer-dep` is the one
      package propagated, with the bump asked for; the chosen bump stays as it was. */
  lemma SimpleReleased(shape: Shape, t: BumpType, v: Version, dec: map<string, BumpType>, order: seq<string>)
    requires v.major >= 1 && (shape == PinnedShape || t != Patch)
    requires IsPropagation(SimpleWorkspace(shape, v), [Release("depended-upon", t)], dec, order)
    ensures dec == map["depended-upon" := t, "has-peer-dep" := if t == Patch then Patch else Major]
    ensures order == ["has-peer-dep"]
  {
    var g, ex := SimpleWorkspace(shape, v), [Release("depended-upon", t)];
    var s := if t == Patch then Patch else Major;
    SimpleRequired(shape, t, v);
    SimpleFacts(shape, t, v);
    var q := map["depended-upon" := t, "has-peer-dep" := s];
    assert Satisfied(g, q, g.edges[0]);
    assert Closed(g, q);
    assert Seeded(ex, q);
    assert Below(dec, q);
    assert "depended-upon" in dec;
    assert Satisfied(g, dec, g.edges[0]);
    assert dec.Keys == q.Keys;
    SingleOrder(order, "has-peer-dep");
  }

  lemma SimpleRecords(shape: Shape, t: BumpType, v: Version, s: BumpType)
    ensures Records(SimpleWorkspace(shape, v), [Release("depended-upon", t)],
                    map["depended-upon" := t, "has-peer-dep" := s], ["has-peer-dep"])
            == [Dependent("has-peer-dep", s, ["depended-upon"])]
  {
    var g := SimpleWorkspace(shape, v);
    SimpleFacts(shape, t, v);
    assert !DependsOn(g, "has-peer-dep", "has-peer-dep");
    assert g.edges[0].dependent == "has-peer-dep" && g.edges[0].dependency == "depended-upon";
    assert DependsOn(g, "has-peer-dep", "depended-upon");
    assert ReleasedDependencies(g, "has-peer-dep", ["depended-upon"]) == ["depended-upon"];
    assert ReleasedDependencies(g, "has-peer-dep", ["has-peer-dep", "depended-upon"]) == ["depended-upon"];
    assert ["has-peer-dep"] + ["depended-upon"] == ["has-peer-dep", "depended-upon"];
  }

  /** The seven single-edge tests: a pinned peer dependency bumped by patch patches the
      dependent; a tilde or caret one bumped by patch releases nothing more; any shape bumped
      by minor or major gives the dependent a major release. The chosen release is reported
      unchanged, and the dependent names `depended-upon` as its dependency. */
  lemma SimplePeerDep(shape: Shape, t: BumpType, v: Version, plan: Plan)
    requires v.major >= 1
    requires IsReleasePlan(SimpleWorkspace(shape, v), [Release("depended-upon", t)], plan)
    ensures plan.releases == [Release("depended-upon", t)]
    ensures shape == PinnedShape || t != Patch ==>
      plan.dependents == [Dependent("has-peer-dep", if t == Patch then Patch else Major, ["depended-upon"])]
    ensures shape != PinnedShape && t == Patch ==> plan.dependents == []
  {
    var g, ex := SimpleWorkspace(shape, v), [Release("depended-upon", t)];
    var dec, order :| IsPropagation(g, ex, dec, order)
      && plan == Plan(ChosenReleases(ex, dec), Records(g, ex, dec, order));
    SimpleFacts(shape, t, v);
    if shape == PinnedShape || t != Patch {
      SimpleReleased(shape, t, v, dec, order);
      SimpleRecords(shape, t, v, if t == Patch then Patch else Major);
    } else {
      SimpleRequired(shape, t, v);
      NoSpuriousPropagation(g, ex, dec, order);
    }
  }

  lemma TransitiveFacts(v: Version)
    requires v.major >= 1
    ensures var g, ex := TransitiveWorkspace(v), [Release("pkg-a", Minor)];
      Consistent(g)
      && ChosenBumps(ex) == map["pkg-a" := Minor]
      && Names(ex) == ["pkg-a"]
      && Required(g, g.edges[0], Patch) == None
      && Required(g, g.edges[0], Minor) == None
      && Required(g, g.edges[1], Major) == Some(Patch)
      && Required(g, g.edges[2], Minor) == Some(Major)
  {
    var ex := [Release("pkg-a", Minor)];
    assert Names(ex) == ["pkg-a"];
    assert ChosenBumps(ex).Keys == {"pkg-a"};
    PeerRuleTable(v);
    NormalRuleTable(v);
  }

  /** `pkg-c` and `pkg-b` are released, major and patch; `pkg-a` keeps its chosen minor
      bump. */
  lemma TransitiveDecisions(v: Version, dec: map<string, BumpType>, order: seq<string>)
    requires v.major >= 1
    requires IsPropagation(TransitiveWorkspace(v), [Release("pkg-a", Minor)], dec, order)
    ensures dec == map["pkg-a" := Minor, "pkg-c" := Major, "pkg-b" := Patch]
  {
    var g, ex := TransitiveWorkspace(v), [Release("pkg-a", Minor)];
    TransitiveFacts(v);
    var q := map["pkg-a" := Minor, "pkg-c" := Major, "pkg-b" := Patch];
    assert Satisfied(g, q, g.edges[0]);
    assert Satisfied(g, q, g.edges[1]);
    assert Satisfied(g, q, g.edges[2]);
    assert Closed(g, q);
    assert Seeded(ex, q);
    assert "pkg-a" in ChosenBumps(ex);
    assert "pkg-a" in dec && AtMost(Minor, dec["pkg-a"]);
    assert Satisfied(g, dec, g.edges[2]);
    assert Satisfied(g, dec, g.edges[1]);
    assert Below(q, dec);
    ExactFixedPoint(g, ex, dec, order, q);
  }

  /** `pkg-c` is discovered first: `pkg-b` is triggered only through `pkg-c`. */
  lemma TransitiveOrder(v: Version, dec: map<string, BumpType>, order: seq<string>)
    requires v.major >= 1
    requires IsPropagation(TransitiveWorkspace(v), [Release("pkg-a", Minor)], dec, order)
    requires dec == map["pkg-a" := Minor, "pkg-c" := Major, "pkg-b" := Patch]
    ensures order == ["pkg-c", "pkg-b"]
  {
    var g, ex := TransitiveWorkspace(v), [Release("pkg-a", Minor)];
    TransitiveFacts(v);
    PairOrder(order, "pkg-c", "pkg-b");
    var jb :| 0 <= jb < |order| && order[jb] == "pkg-b";
    assert HasTrigger(g, ex, dec, order, jb);
    var k :| TriggeredFrom(g, ex, dec, order, jb, k);
    assert !TriggeredUpTo(g, g.edges[0], Minor);
    assert k == 1;
    assert "pkg-c" in order[..jb];
    assert order[0] in order;
  }

  lemma TransitiveRecords(v: Version)
    ensures Records(TransitiveWorkspace(v), [Release("pkg-a", Minor)],
                    map["pkg-a" := Minor, "pkg-c" := Major, "pkg-b" := Patch], ["pkg-c", "pkg-b"])
            == [Dependent("pkg-c", Major, ["pkg-a"]), Dependent("pkg-b", Patch, ["pkg-c", "pkg-a"])]
  {
    var g, ex := TransitiveWorkspace(v), [Release("pkg-a", Minor)];
    assert Names(ex) == ["pkg-a"];
    assert ["pkg-c", "pkg-b"] + Names(ex) == ["pkg-c", "pkg-b", "pkg-a"];
    assert g.edges[0].dependent == "pkg-b" && g.edges[0].dependency == "pkg-a";
    assert g.edges[1].dependent == "pkg-b" && g.edges[1].dependency == "pkg-c";
    assert g.edges[2].dependent == "pkg-c" && g.edges[2].dependency == "pkg-a";
    assert DependsOn(g, "pkg-c", "pkg-a");
    assert !DependsOn(g, "pkg-c", "pkg-b");
    assert !DependsOn(g, "pkg-c", "pkg-c");
    assert DependsOn(g, "pkg-b", "pkg-a");
    assert DependsOn(g, "pkg-b", "pkg-c");
    assert !DependsOn(g, "pkg-b", "pkg-b");
    assert ReleasedDependencies(g, "pkg-c", ["pkg-a"]) == ["pkg-a"];
    assert ReleasedDependencies(g, "pkg-c", ["pkg-b", "pkg-a"]) == ["pkg-a"];
    assert ReleasedDependencies(g, "pkg-c", ["pkg-c", "pkg-b", "pkg-a"]) == ["pkg-a"];
    assert ReleasedDependencies(g, "pkg-b", ["pkg-a"]) == ["pkg-a"];
    assert ReleasedDependencies(g, "pkg-b", ["pkg-b", "pkg-a"]) == ["pkg-a"];
    assert ReleasedDependencies(g, "pkg-b", ["pkg-c", "pkg-b", "pkg-a"]) == ["pkg-c", "pkg-a"];
  }

  /** The transitive test: choosing a minor release of `pkg-a` gives `pkg-c` a major release
      (peer escalation), which takes `pkg-b` out of its caret range on `pkg-c`, so `pkg-b` is
      patched; `pkg-b`'s own caret range on `pkg-a` survives the minor bump. `pkg-c` is listed
      first, and `pkg-b` names both of its released dependencies, `pkg-c` then `pkg-a`. */
  lemma TransitivePeerDependent(v: Version, plan: Plan)
    requires v.major >= 1
    requires IsReleasePlan(TransitiveWorkspace(v), [Release("pkg-a", Minor)], plan)
    ensures Required(TransitiveWorkspace(v), TransitiveWorkspace(v).edges[0], Minor) == None
    ensures plan == Plan([Release("pkg-a", Minor)],
                         [Dependent("pkg-c", Major, ["pkg-a"]),
                          Dependent("pkg-b", Patch, ["pkg-c", "pkg-a"])])
  {
    var g, ex := TransitiveWorkspace(v), [Release("pkg-a", Minor)];
    var dec, order :| IsPropagation(g, ex, dec, order)
      && plan == Plan(ChosenReleases(ex, dec), Records(g, ex, dec, order));
    TransitiveFacts(v);
    TransitiveDecisions(v, dec, order);
    TransitiveOrder(v, dec, order);
    TransitiveRecords(v);
  }

  lemma PeerPairFacts(v: Version)
    requires v.major >= 1
    ensures var g, ex := PeerPairWorkspace(v), [Release("pkg-a", Minor), Release("pkg-c", Patch)];
      Consistent(g)
      && ChosenBumps(ex) == map["pkg-a" := Minor, "pkg-c" := Patch]
      && Names(ex) == ["pkg-a", "pkg-c"]
      && Required(g, g.edges[0], Minor) == Some(Major)
      && Required(g, g.edges[0], Major) == Some(Major)
  {
    var ex := [Release("pkg-a", Minor), Release("pkg-c", Patch)];
    assert Names(ex) == ["pkg-a", "pkg-c"];
    assert ChosenBumps(ex).Keys == {"pkg-a", "pkg-c"};
    assert ChosenBumps(ex)["pkg-c"] == Patch;
    PeerRuleTable(v);
  }

  lemma PeerPairDecisions(v: Version, dec: map<string, BumpType>, order: seq<string>)
    requires v.major >= 1
    requires IsPropagation(PeerPairWorkspace(v), [Release("pkg-a", Minor), Release("pkg-c", Patch)], dec, order)
    ensures dec == map["pkg-a" := Minor, "pkg-c" := Major]
    ensures order == []
  {
    var g, ex := PeerPairWorkspace(v), [Release("pkg-a", Minor), Release("pkg-c", Patch)];
    PeerPairFacts(v);
    var q := map["pkg-a" := Minor, "pkg-c" := Major];
    assert Satisfied(g, q, g.edges[0]);
    assert Closed(g, q);
    assert Seeded(ex, q);
    assert "pkg-a" in ChosenBumps(ex) && "pkg-c" in ChosenBumps(ex);
    assert "pkg-a" in dec && AtMost(Minor, dec["pkg-a"]);
    assert Satisfied(g, dec, g.edges[0]);
    assert Below(q, dec);
    ExactFixedPoint(g, ex, dec, order, q);
    assert forall n :: n !in order;
    EmptyWithoutMembers(order);
  }

  /** A chosen package is still a dependent: choosing a minor release of `pkg-a` and a patch
      release of its peer dependent `pkg-c` reports `pkg-c` with a major release, among the
      chosen releases; nothing else is propagated. */
  lemma ChosenPeerDependent(v: Version, plan: Plan)
    requires v.major >= 1
    requires IsReleasePlan(PeerPairWorkspace(v), [Release("pkg-a", Minor), Release("pkg-c", Patch)], plan)
    ensures plan == Plan([Release("pkg-a", Minor), Release("pkg-c", Major)], [])
  {
    var g, ex := PeerPairWorkspace(v), [Release("pkg-a", Minor), Release("pkg-c", Patch)];
    var dec, order :| IsPropagation(g, ex, dec, order)
      && plan == Plan(ChosenReleases(ex, dec), Records(g, ex, dec, order));
    PeerPairDecisions(v, dec, order);
  }
}
