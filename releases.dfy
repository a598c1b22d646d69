/** Explicit, user-chosen releases: package name to bump type, in the order they were chosen. */
module Releases {
  import opened SemVer

  /** The JavaScript record field `type` is called `bump` here (`type` is a keyword). */
  datatype Release = Release(name: string, bump: BumpType)

  function Names(rs: seq<Release>): seq<string>
  {
    seq(|rs|, i requires 0 <= i < |rs| => rs[i].name)
  }

  /** No package is chosen twice (the chosen releases are the keys of one object). */
  predicate DistinctNames(rs: seq<Release>)
  {
    forall i, j :: 0 <= i < j < |rs| ==> rs[i].name != rs[j].name
  }

  /** The chosen releases as a decision map: every chosen package with the most severe bump
      it was chosen with. */
  function ChosenBumps(rs: seq<Release>): (m: map<string, BumpType>)
    ensures forall n :: n in m <==> n in Names(rs)
    ensures forall i :: 0 <= i < |rs| ==> rs[i].name in m && AtMost(rs[i].bump, m[rs[i].name])
    ensures forall n :: n in m ==> exists i :: 0 <= i < |rs| && rs[i].name == n && rs[i].bump == m[n]
  {
    if rs == [] then map[]
    else
      var rest := ChosenBumps(rs[1..]);
      var n := rs[0].name;
      var m := rest[n := if n in rest then MaxBump(rs[0].bump, rest[n]) else rs[0].bump];
      ChosenBumpsStep(rs, rest, m);
      m
  }

  /** Adding the first release to the map of the others keeps the map's three promises. */
  lemma ChosenBumpsStep(rs: seq<Release>, rest: map<string, BumpType>, m: map<string, BumpType>)
    requires rs != []
    requires forall n :: n in rest <==> n in Names(rs[1..])
    requires forall i :: 0 <= i < |rs[1..]| ==> rs[1..][i].name in rest && AtMost(rs[1..][i].bump, rest[rs[1..][i].name])
    requires forall n :: n in rest ==> exists i :: 0 <= i < |rs[1..]| && rs[1..][i].name == n && rs[1..][i].bump == rest[n]
    requires m == rest[rs[0].name := if rs[0].name in rest then MaxBump(rs[0].bump, rest[rs[0].name]) else rs[0].bump]
    ensures forall n :: n in m <==> n in Names(rs)
    ensures forall i :: 0 <= i < |rs| ==> rs[i].name in m && AtMost(rs[i].bump, m[rs[i].name])
    ensures forall n :: n in m ==> exists i :: 0 <= i < |rs| && rs[i].name == n && rs[i].bump == m[n]
  {
    assert Names(rs) == [rs[0].name] + Names(rs[1..]);
    forall i | 0 <= i < |rs|
      ensures rs[i].name in m && AtMost(rs[i].bump, m[rs[i].name])
    {
      if i > 0 {
        assert rs[i] == rs[1..][i - 1];
      }
    }
    forall n | n in m
      ensures exists i :: 0 <= i < |rs| && rs[i].name == n && rs[i].bump == m[n]
    {
      if n == rs[0].name && m[n] == rs[0].bump {
        assert rs[0].name == n && rs[0].bump == m[n];
      } else {
        var i :| 0 <= i < |rs[1..]| && rs[1..][i].name == n && rs[1..][i].bump == rest[n];
        assert rs[i + 1].name == n && rs[i + 1].bump == m[n];
      }
    }
  }

  /** With distinct names, every chosen package has exactly the bump it was listed with. */
  lemma ChosenBumpOfMember(rs: seq<Release>, i: nat)
    requires DistinctNames(rs)
    requires i < |rs|
    ensures ChosenBumps(rs)[rs[i].name] == rs[i].bump
  {
    forall j | 0 <= j < |rs| && j != i
      ensures rs[j].name != rs[i].name
    {
      if j < i {
        assert rs[j].name != rs[i].name;
      } else {
        assert rs[i].name != rs[j].name;
      }
    }
    var j :| 0 <= j < |rs| && rs[j].name == rs[i].name && rs[j].bump == ChosenBumps(rs)[rs[i].name];
    assert j == i;
  }
}
