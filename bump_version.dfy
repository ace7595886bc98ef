/**
 * The version bump script: dispatch on the bump type, the in-place
 * increment of the parsed components, the string-to-string bump and the
 * command's check of its argument.
 */
module BumpScript {
  import opened Wrappers
  import opened SemVer
  import opened VersionText

  /** The message the command reports for a bump type it does not accept. */
  const UsageError: string := "Error: Version bump type must be major, minor, or patch"

  /** The command-line spelling of each bump type. */
  function TypeName(k: BumpType): string
  {
    match k
    case Major => "major"
    case Minor => "minor"
    case Patch => "patch"
  }

  /**
   * How the bump function dispatches on its type argument: None is the
   * omitted argument, whose default is the patch bump; "major" and "minor"
   * select their branch and every other string falls through to patch.
   */
  function Kind(t: Option<string>): (k: BumpType)
    ensures k == Major <==> t == Some("major")
    ensures k == Minor <==> t == Some("minor")
    ensures k == Patch <==> t != Some("major") && t != Some("minor")
  {
    match t
    case None => Patch
    case Some(name) =>
      if name == "major" then Major
      else if name == "minor" then Minor
      else Patch
  }

  /** The command's bump type: a missing or empty argument means "patch". */
  function EffectiveType(arg: Option<string>): (name: string)
    ensures arg == None || arg == Some("") ==> name == "patch"
    ensures arg != None && arg != Some("") ==> Some(name) == arg
  {
    if arg.None? || arg.value == "" then "patch" else arg.value
  }

  /**
   * The command's argument check: only the three names (or nothing, which
   * means patch) pass; the accepted name dispatches to the same bump.
   */
  function ValidateArgument(arg: Option<string>): (r: Result<BumpType, string>)
    ensures r.Success? <==> arg in {None, Some(""), Some("major"), Some("minor"), Some("patch")}
    ensures r.Success? ==> TypeName(r.value) == EffectiveType(arg)
    ensures r.Success? ==> r.value == Kind(Some(EffectiveType(arg)))
    ensures r.Failure? ==> r.error == UsageError
  {
    var name := EffectiveType(arg);
    if name == "major" then Success(Major)
    else if name == "minor" then Success(Minor)
    else if name == "patch" then Success(Patch)
    else Failure(UsageError)
  }

  /**
   * The switch reads only components that exist or that an earlier
   * assignment of the same branch created: a major bump needs one
   * component, a minor bump two, a patch bump three. With fewer, the
   * script increments a missing component.
   */
  predicate HasComponentsFor(count: nat, k: BumpType)
  {
    match k
    case Major => count >= 1
    case Minor => count >= 2
    case Patch => count >= 3
  }

  /** A version string a bump of kind k can handle: dotted numerals, enough of them. */
  predicate CanBump(version: string, k: BumpType)
  {
    var parts := Parse(version);
    parts.Some? && HasComponentsFor(|parts.value|, k)
  }

  /** A version string every kind of bump can handle: at least three dotted numerals. */
  predicate WellFormed(version: string)
  {
    CanBump(version, Patch)
  }

  /** The first three components as a version triple. */
  function ToVersion(parts: seq<nat>): Version
    requires |parts| >= 3
  {
    Version(parts[0], parts[1], parts[2])
  }

  /**
   * The components with the array grown to three cells, as assigning
   * parts[1] and parts[2] grows it; the new cells read as zero.
   */
  function Grown(parts: seq<nat>): (r: seq<nat>)
    ensures |r| == if |parts| < 3 then 3 else |parts|
    ensures r[..|parts|] == parts
    ensures forall i :: |parts| <= i < |r| ==> r[i] == 0
  {
    if |parts| < 3 then parts + seq(3 - |parts|, _ => 0) else parts
  }

  /**
   * The components after a bump of kind k: the first three become the
   * bumped triple, the array has at least three cells, any further
   * components are kept, and precedence rises.
   */
  function BumpedParts(parts: seq<nat>, k: BumpType): (r: seq<nat>)
    requires HasComponentsFor(|parts|, k)
    ensures |r| == if |parts| < 3 then 3 else |parts|
    ensures |parts| >= 3 ==> r[3..] == parts[3..]
    ensures ToVersion(r) == Bump(ToVersion(Grown(parts)), k)
    ensures Less(ToVersion(Grown(parts)), ToVersion(r))
  {
    var full := Grown(parts);
    var v := Bump(ToVersion(full), k);
    BumpRaisesPrecedence(ToVersion(full), k);
    [v.major, v.minor, v.patch] + full[3..]
  }

  /** The version string that bumping version with type t yields. */
  function BumpedText(version: string, t: Option<string>): string
    requires CanBump(version, Kind(t))
  {
    Print(BumpedParts(Parse(version).value, Kind(t)))
  }

  /**
   * The switch of the bump function, applied in place to the parsed
   * components: major increments the first and zeroes the next two, minor
   * increments the second and zeroes the third, patch increments the third.
   */
  method BumpParts(parts: array<nat>, k: BumpType)
    requires parts.Length >= 3
    modifies parts
    ensures k == Major ==> parts[0] == old(parts[0]) + 1 && parts[1] == 0 && parts[2] == 0
    ensures k == Minor ==> parts[0] == old(parts[0]) && parts[1] == old(parts[1]) + 1 && parts[2] == 0
    ensures k == Patch ==> parts[0] == old(parts[0]) && parts[1] == old(parts[1]) && parts[2] == old(parts[2]) + 1
    ensures parts[3..] == old(parts[3..])
    ensures parts[..] == BumpedParts(old(parts[..]), k)
  {
    match k
    case Major =>
      parts[0] := parts[0] + 1;
      parts[1] := 0;
      parts[2] := 0;
    case Minor =>
      parts[1] := parts[1] + 1;
      parts[2] := 0;
    case Patch =>
      parts[2] := parts[2] + 1;
  }

  /** Parses the version, bumps its components in place and joins them back. */
  method BumpVersion(version: string, t: Option<string>) returns (r: string)
    requires CanBump(version, Kind(t))
    ensures r == BumpedText(version, t)
  {
    var values := Parse(version).value;
    var n := if |values| < 3 then 3 else |values|;
    var parts := new nat[n](i requires 0 <= i < n => if i < |values| then values[i] else 0);
    assert parts[..] == Grown(values);
    BumpParts(parts, Kind(t));
    assert Grown(Grown(values)) == Grown(values);
    r := Print(parts[..]);
  }

  /**
   * The command without its file and console I/O: an unaccepted argument
   * fails before any version is computed; otherwise the current version is
   * bumped with the effective type.
   */
  method UpdateVersion(current: string, arg: Option<string>) returns (r: Result<string, string>)
    requires ValidateArgument(arg).Success? ==> CanBump(current, ValidateArgument(arg).value)
    ensures r.Failure? <==> ValidateArgument(arg).Failure?
    ensures r.Failure? ==> r.error == UsageError
    ensures r.Success? ==> r.value == BumpedText(current, Some(TypeName(ValidateArgument(arg).value)))
  {
    var bumpType := EffectiveType(arg);
    if bumpType !in ["major", "minor", "patch"] {
      return Failure(UsageError);
    }
    var next := BumpVersion(current, Some(bumpType));
    r := Success(next);
  }

  /**
   * The bumped string parses back to exactly the bumped components, so it
   * is well-formed again and bumps compose.
   */
  lemma BumpedTextParses(version: string, t: Option<string>)
    requires CanBump(version, Kind(t))
    ensures Parse(BumpedText(version, t)) == Some(BumpedParts(Parse(version).value, Kind(t)))
    ensures WellFormed(BumpedText(version, t))
  {
    var bumped := BumpedParts(Parse(version).value, Kind(t));
    assert Parse(Print(bumped)) == Some(bumped);
  }

  /** Every bump of a version string raises its precedence. */
  lemma BumpedTextRaisesPrecedence(version: string, t: Option<string>)
    requires CanBump(version, Kind(t))
    ensures WellFormed(BumpedText(version, t))
    ensures Less(ToVersion(Grown(Parse(version).value)), ToVersion(Parse(BumpedText(version, t)).value))
  {
    BumpedTextParses(version, t);
  }

  /**
   * A version with fewer than three components grows to three: a major
   * bump of "X" or "X.Y" gives (X+1).0.0, a minor bump of "X.Y" gives
   * X.(Y+1).0, and a patch bump never applies.
   */
  lemma ShortVersionGrowsToThree(version: string, t: Option<string>)
    requires CanBump(version, Kind(t))
    requires |Parse(version).value| < 3
    ensures Kind(t) != Patch
    ensures Kind(t) == Major ==> Parse(BumpedText(version, t)) == Some([Parse(version).value[0] + 1, 0, 0])
    ensures Kind(t) == Minor ==> Parse(BumpedText(version, t)) == Some([Parse(version).value[0], Parse(version).value[1] + 1, 0])
  {
    BumpedTextParses(version, t);
    var p := Parse(version).value;
    var r := BumpedParts(p, Kind(t));
    assert Grown(p)[0] == p[0] && (|p| == 2 ==> Grown(p)[1] == p[1]);
    assert r == [r[0], r[1], r[2]];
  }

  /** The bumped string is written with canonical numerals: no leading zeros. */
  lemma BumpedTextIsCanonical(version: string, t: Option<string>)
    requires CanBump(version, Kind(t))
    ensures forall i :: 0 <= i < |Split(BumpedText(version, t))| ==> IsCanonical(Split(BumpedText(version, t))[i])
  {
    var parts := BumpedParts(Parse(version).value, Kind(t));
    BumpedTextParses(version, t);
    PrintParse(BumpedText(version, t), parts);
  }

  /** Two patch bumps in a row add two to the patch component. */
  lemma PatchTwice(version: string)
    requires WellFormed(version)
    ensures WellFormed(BumpedText(version, None))
    ensures WellFormed(BumpedText(BumpedText(version, None), None))
    ensures var v := ToVersion(Parse(version).value);
            var once := BumpedText(version, None);
            ToVersion(Parse(BumpedText(once, None)).value) == Version(v.major, v.minor, v.patch + 2)
  {
    var once := BumpedText(version, None);
    BumpedTextParses(version, None);
    BumpedTextParses(once, None);
  }

  /**
   * A leading zero on the major component changes nothing: the components
   * are read as numbers, so the bumped string is the same and carries no
   * leading zero.
   */
  lemma LeadingZeroDropped(version: string, t: Option<string>)
    requires CanBump(version, Kind(t))
    ensures CanBump("0" + version, Kind(t))
    ensures BumpedText("0" + version, t) == BumpedText(version, t)
  {
    ParseIgnoresLeadingZero(version);
  }
}
