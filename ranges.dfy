/** Declared version ranges, by shape, and which versions they admit. */
module Ranges {
  import opened SemVer

  /** The shape of a declared range, anchored at the version written in it:
      `1.2.3` (pinned), `~1.2.3` (tilde) or `^1.2.3` (caret). */
  datatype Range = Pinned(base: Version) | Tilde(base: Version) | Caret(base: Version)

  /** The least version above everything the range admits, following node-semver's
      desugaring: `~M.m.p` is `<M.(m+1).0`; `^M.m.p` is `<(M+1).0.0`, except that
      `^0.m.p` is `<0.(m+1).0` and `^0.0.p` is `<0.0.(p+1)`. */
  function Ceiling(r: Range): Version
  {
    var b := r.base;
    match r
    case Pinned(_) => Version(b.major, b.minor, b.patch + 1)
    case Tilde(_) => Version(b.major, b.minor + 1, 0)
    case Caret(_) =>
      if b.major > 0 then Version(b.major + 1, 0, 0)
      else if b.minor > 0 then Version(0, b.minor + 1, 0)
      else Version(0, 0, b.patch + 1)
  }

  /** The range admits `v`: `v` lies in the half-open interval [base, Ceiling). */
  predicate Admits(r: Range, v: Version)
  {
    !Less(v, r.base) && Less(v, Ceiling(r))
  }

  /** A pinned range admits exactly its own version. */
  lemma PinnedAdmitsOnlyBase(b: Version, v: Version)
    ensures Admits(Pinned(b), v) <==> v == b
  {
  }

  /** Once a bump leaves a range that admits the current version, every more severe bump
      leaves it too. */
  lemma LeavingIsMonotone(r: Range, v: Version, a: BumpType, b: BumpType)
    requires Admits(r, v)
    requires AtMost(a, b)
    requires !Admits(r, Bump(v, a))
    ensures !Admits(r, Bump(v, b))
  {
    assert !Less(Bump(v, a), r.base) by {
      if Less(Bump(v, a), r.base) {
        LessTransitive(v, Bump(v, a), r.base);
      }
    }
    assert !Less(Bump(v, a), Ceiling(r));
    if Rank(a) < Rank(b) {
      BumpOrdered(v, a, b);
      if Less(Bump(v, b), Ceiling(r)) {
        LessTransitive(Bump(v, a), Bump(v, b), Ceiling(r));
      }
    }
  }
}
