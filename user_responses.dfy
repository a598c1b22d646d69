/** The tests' canned prompt answers: the chosen releases split by bump, a checkbox prompt
    that gives three answers in turn and then fails, and a confirmation prompt that knows
    one question. */
module UserResponses {
  import opened Outcome
  import opened SemVer
  import opened Sequences
  import opened Releases

  /** The names of the releases chosen with bump `t`, in the order they were chosen. */
  function NamesOfType(rs: seq<Release>, t: BumpType): seq<string>
  {
    if rs == [] then []
    else (if rs[0].bump == t then [rs[0].name] else []) + NamesOfType(rs[1..], t)
  }

  /** Adding a release at the end adds its name at the end of its bump's list. */
  lemma {:induction false} NamesOfTypeAppend(rs: seq<Release>, r: Release, t: BumpType)
    ensures NamesOfType(rs + [r], t) == NamesOfType(rs, t) + (if r.bump == t then [r.name] else [])
  {
    if rs == [] {
      assert rs + [r] == [r];
    } else {
      assert (rs + [r])[1..] == rs[1..] + [r];
      NamesOfTypeAppend(rs[1..], r, t);
    }
  }

  /** Splits the chosen releases into the names to answer the "major" and "minor" prompts
      with; a patch release lands in neither list. */
  method PartitionReleases(rs: seq<Release>) returns (majors: seq<string>, minors: seq<string>)
    ensures majors == NamesOfType(rs, Major)
    ensures minors == NamesOfType(rs, Minor)
  {
    majors, minors := [], [];
    var i := 0;
    while i < |rs|
      invariant 0 <= i <= |rs|
      invariant majors == NamesOfType(rs[..i], Major)
      invariant minors == NamesOfType(rs[..i], Minor)
    {
      assert rs[..i + 1] == rs[..i] + [rs[i]];
      NamesOfTypeAppend(rs[..i], rs[i], Major);
      NamesOfTypeAppend(rs[..i], rs[i], Minor);
      if rs[i].bump == Major {
        majors := majors + [rs[i].name];
      } else if rs[i].bump == Minor {
        minors := minors + [rs[i].name];
      }
      i := i + 1;
    }
    assert rs[..|rs|] == rs;
  }

  /** A name is in the list for `t` exactly when it was chosen with bump `t`. */
  lemma {:induction false} NamesOfTypeMembership(rs: seq<Release>, t: BumpType, n: string)
    ensures n in NamesOfType(rs, t) <==> Release(n, t) in rs
  {
    if rs != [] {
      NamesOfTypeMembership(rs[1..], t, n);
      assert rs == [rs[0]] + rs[1..];
    }
  }

  /** With distinct names, a package is chosen with bump `t` exactly when its one listed
      release has bump `t`. */
  lemma ChosenOnce(rs: seq<Release>, i: nat, t: BumpType)
    requires DistinctNames(rs) && i < |rs|
    ensures Release(rs[i].name, t) in rs <==> rs[i].bump == t
  {
    forall j | 0 <= j < |rs| && j != i
      ensures rs[j].name != rs[i].name
    {
      if j < i {
        assert rs[j].name != rs[i].name;
      } else {
        assert rs[i].name != rs[j].name;
      }
    }
  }

  /** With distinct names, a patch release is in neither the major nor the minor list. */
  lemma PatchInNeither(rs: seq<Release>, i: nat)
    requires DistinctNames(rs) && i < |rs| && rs[i].bump == Patch
    ensures rs[i].name !in NamesOfType(rs, Major)
    ensures rs[i].name !in NamesOfType(rs, Minor)
  {
    NamesOfTypeMembership(rs, Major, rs[i].name);
    NamesOfTypeMembership(rs, Minor, rs[i].name);
    ChosenOnce(rs, i, Major);
    ChosenOnce(rs, i, Minor);
  }

  /** Each list keeps the order in which the releases were chosen. */
  lemma {:induction false} NamesOfTypeKeepsOrder(rs: seq<Release>, t: BumpType)
    ensures IsSubsequence(NamesOfType(rs, t), Names(rs))
  {
    if rs != [] {
      NamesOfTypeKeepsOrder(rs[1..], t);
      assert Names(rs)[1..] == Names(rs[1..]);
      assert |Names(rs)| > 0 && Names(rs)[0] == rs[0].name;
      if rs[0].bump == t {
        assert NamesOfType(rs, t)[1..] == NamesOfType(rs[1..], t);
      } else {
        assert NamesOfType(rs, t) == NamesOfType(rs[1..], t);
      }
    }
  }

  /** How the three checkbox answers determine the chosen releases: every name picked in the
      first answer is major if picked in the second, else minor if picked in the third, else
      patch. */
  function ReleasesFromAnswers(chosen: seq<string>, majors: seq<string>, minors: seq<string>): (rs: seq<Release>)
    ensures Names(rs) == chosen
  {
    seq(|chosen|, i requires 0 <= i < |chosen| =>
      Release(chosen[i], if chosen[i] in majors then Major else if chosen[i] in minors then Minor else Patch))
  }

  /** The canned answers round-trip: reading them back gives the chosen releases, in order. */
  lemma AnswersRebuildReleases(rs: seq<Release>)
    requires DistinctNames(rs)
    ensures ReleasesFromAnswers(Names(rs), NamesOfType(rs, Major), NamesOfType(rs, Minor)) == rs
  {
    var back := ReleasesFromAnswers(Names(rs), NamesOfType(rs, Major), NamesOfType(rs, Minor));
    forall i | 0 <= i < |rs|
      ensures back[i] == rs[i]
    {
      var n := rs[i].name;
      NamesOfTypeMembership(rs, Major, n);
      NamesOfTypeMembership(rs, Minor, n);
      ChosenOnce(rs, i, Major);
      ChosenOnce(rs, i, Minor);
    }
  }

  const UnexpectedCheckboxCall := "There was an unexpected call to askCheckboxPlus"

  /** The mocked checkbox prompt: its answers, and how many times it has been asked. */
  class CheckboxMock {
    const returnValues: seq<seq<string>>
    var callCount: nat

    predicate Valid()
      reads this
    {
      callCount <= |returnValues|
    }

    constructor (rs: seq<Release>)
      ensures Valid() && callCount == 0
      ensures returnValues == [Names(rs), NamesOfType(rs, Major), NamesOfType(rs, Minor)]
    {
      var majors, minors := PartitionReleases(rs);
      returnValues := [Names(rs), majors, minors];
      callCount := 0;
    }

    /** Gives the next canned answer, or fails once all of them have been given. */
    method Ask() returns (r: Result<seq<string>, string>)
      requires Valid()
      modifies this
      ensures Valid()
      ensures old(callCount) == |returnValues| ==> r == Err(UnexpectedCheckboxCall) && callCount == old(callCount)
      ensures old(callCount) < |returnValues| ==>
        r == Ok(returnValues[old(callCount)]) && callCount == old(callCount) + 1
    {
      if callCount == |returnValues| {
        return Err(UnexpectedCheckboxCall);
      }
      r := Ok(returnValues[callCount]);
      callCount := callCount + 1;
    }
  }

  /** Asking a fresh mock four times: all chosen names, the majors, the minors, then a failure. */
  method AskFourTimes(rs: seq<Release>) returns (first: Result<seq<string>, string>, second: Result<seq<string>, string>,
                                                  third: Result<seq<string>, string>, fourth: Result<seq<string>, string>)
    ensures first == Ok(Names(rs))
    ensures second == Ok(NamesOfType(rs, Major))
    ensures third == Ok(NamesOfType(rs, Minor))
    ensures fourth == Err(UnexpectedCheckboxCall)
  {
    var mock := new CheckboxMock(rs);
    first := mock.Ask();
    second := mock.Ask();
    third := mock.Ask();
    fourth := mock.Ask();
  }

  const DesiredChangesetQuestion := "Is this your desired changeset?"

  /** The canned confirmations, by question. */
  const ConfirmAnswers: map<string, bool> := map[DesiredChangesetQuestion := true]

  /** The mocked confirmation prompt: a question with a truthy canned answer gets it; any
      other question fails. Questions are taken as already free of terminal colour codes. */
  function AskConfirm(question: string): (r: Result<bool, string>)
    ensures r.Ok? <==> question == DesiredChangesetQuestion
    ensures r.Ok? ==> r.value
    ensures r.Err? ==> r.error == "An answer could not be found for " + question
  {
    if question in ConfirmAnswers && ConfirmAnswers[question] then Ok(ConfirmAnswers[question])
    else Err("An answer could not be found for " + question)
  }
}
