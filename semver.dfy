/**
 * Version triples, their precedence and the three kinds of increment,
 * following the numbering rules of Semantic Versioning 2.0.0.
 */
module SemVer {

  /** A normal version number MAJOR.MINOR.PATCH (items 2 and 6-8). */
  datatype Version = Version(major: nat, minor: nat, patch: nat)

  /** Which component an increment raises. */
  datatype BumpType = Major | Minor | Patch

  /**
   * Precedence of Semantic Versioning 2.0.0, item 11: major, minor and
   * patch are compared numerically, in that order.
   */
  predicate Less(v: Version, w: Version)
  {
    v.major < w.major
    || (v.major == w.major && v.minor < w.minor)
    || (v.major == w.major && v.minor == w.minor && v.patch < w.patch)
  }

  predicate LessEq(v: Version, w: Version)
  {
    v == w || Less(v, w)
  }

  /**
   * w lies above v at level k: it has a larger major (Major), a larger
   * major.minor prefix (Minor), or a higher precedence (Patch). These are
   * the versions an increment of kind k may produce.
   */
  predicate Above(v: Version, w: Version, k: BumpType)
  {
    match k
    case Major => v.major < w.major
    case Minor => v.major < w.major || (v.major == w.major && v.minor < w.minor)
    case Patch => Less(v, w)
  }

  /**
   * The increment of kind k: the least version above v at level k, so the
   * components below the raised one restart at zero (items 6, 7 and 8).
   */
  function Bump(v: Version, k: BumpType): (r: Version)
    ensures Above(v, r, k)
    ensures forall w :: Above(v, w, k) ==> LessEq(r, w)
  {
    match k
    case Major => Version(v.major + 1, 0, 0)
    case Minor => Version(v.major, v.minor + 1, 0)
    case Patch => Version(v.major, v.minor, v.patch + 1)
  }

  /** Every increment raises precedence (item 11). */
  lemma BumpRaisesPrecedence(v: Version, k: BumpType)
    ensures Less(v, Bump(v, k))
  {
  }

  /**
   * The increment is the unique least version above v at level k: a
   * definition of Bump that does not mention its components.
   */
  lemma BumpIsUniqueLeast(v: Version, k: BumpType, w: Version)
    ensures Bump(v, k) == w <==> (Above(v, w, k) && forall u :: Above(v, u, k) ==> LessEq(w, u))
  {
  }

  /** Increments of one kind preserve the order of their inputs. */
  lemma BumpMonotone(v: Version, w: Version, k: BumpType)
    requires LessEq(v, w)
    ensures LessEq(Bump(v, k), Bump(w, k))
  {
  }
}
