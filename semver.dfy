/** Bump severities and release versions as Semantic Versioning 2.0.0 defines them. */
module SemVer {

  /** The three severities a package can be released with, ordered patch < minor < major. */
  datatype BumpType = Patch | Minor | Major

  function Rank(t: BumpType): nat
  {
    match t
    case Patch => 0
    case Minor => 1
    case Major => 2
  }

  predicate AtMost(a: BumpType, b: BumpType)
  {
    Rank(a) <= Rank(b)
  }

  /** The more severe of two bumps: the one a package is released with when both are asked for. */
  function MaxBump(a: BumpType, b: BumpType): (r: BumpType)
    ensures AtMost(a, r) && AtMost(b, r)
    ensures r == a || r == b
  {
    if Rank(a) <= Rank(b) then b else a
  }

  /** A release version MAJOR.MINOR.PATCH (pre-release and build metadata are not modelled). */
  datatype Version = Version(major: nat, minor: nat, patch: nat)

  /** Precedence of release versions (section 11 of Semantic Versioning 2.0.0). */
  predicate Less(v: Version, w: Version)
  {
    v.major < w.major
    || (v.major == w.major && v.minor < w.minor)
    || (v.major == w.major && v.minor == w.minor && v.patch < w.patch)
  }

  /** The version a package reaches when released with bump `t` (items 6, 7 and 8 of
      Semantic Versioning 2.0.0: increment one component, reset the lower ones to 0). */
  function Bump(v: Version, t: BumpType): (r: Version)
    ensures Less(v, r)
    ensures t != Major ==> r.major == v.major
    ensures t == Patch ==> r.minor == v.minor
  {
    match t
    case Patch => Version(v.major, v.minor, v.patch + 1)
    case Minor => Version(v.major, v.minor + 1, 0)
    case Major => Version(v.major + 1, 0, 0)
  }

  lemma LessTransitive(u: Version, v: Version, w: Version)
    requires Less(u, v) && Less(v, w)
    ensures Less(u, w)
  {
  }

  /** A more severe bump never reaches a lower version than a less severe one. */
  lemma BumpOrdered(v: Version, a: BumpType, b: BumpType)
    requires Rank(a) < Rank(b)
    ensures Less(Bump(v, a), Bump(v, b))
  {
  }
}
