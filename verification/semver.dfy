/**
 * The version object: three integer fields that `SetVersion` and `Bump` update in
 * place, a string rendering, and six comparators that compare renderings.
 */
module SemverModel {
  import opened Wrappers
  import opened Text
  import opened Versions

  class Semver {
    var major: int
    var minor: int
    var patch: int

    /** The version the fields hold. */
    function Value(): Version
      reads this
    {
      Version(major, minor, patch)
    }

    /** The field initialisers: an object starts out as 0.1.0. */
    constructor ()
      ensures Value() == Version(0, 1, 0)
    {
      major, minor, patch := 0, 1, 0;
    }

    /**
     * Creating an object from an optional version string: the given string, or the
     * default "0.1.0" when there is none, is set on a fresh object; a string with
     * fewer than three parts makes creation fail.
     */
    static method New(version: Option<string> := None) returns (r: Result<Semver, ParseError>)
      ensures r.Success? <==> Parse(version.GetOr(DEFAULT_VERSION)).Success?
      ensures r.Success? ==> fresh(r.value) && Success(r.value.Value()) == Parse(version.GetOr(DEFAULT_VERSION))
      ensures version.None? ==> r.Success? && r.value.Value() == Version(0, 1, 0)
    {
      var s := new Semver();
      var outcome := s.SetVersion(version.GetOr(DEFAULT_VERSION));
      if outcome.Failure? {
        return Failure(outcome.error);
      }
      DefaultVersion();
      return Success(s);
    }

    /** The rendering "major.minor.patch"; for natural segments it parses back to the fields. */
    function ToString(): (s: string)
      reads this
      ensures Split(s) == [IntToString(major), IntToString(minor), IntToString(patch)]
      ensures CountDots(s) == 2
      ensures Natural(Value()) ==> Parse(s) == Success(Value())
    {
      assert Natural(Value()) ==> Parse(Render(Value())) == Success(Value()) by {
        if Natural(Value()) {
          ParseRender(Value());
        }
      }
      Render(Value())
    }

    /**
     * Add `increment` (1 when absent) to each segment selected in the bit mask
     * `segments` (MAJOR when absent); returns the object itself for chaining.
     */
    method Bump(segments: int := MAJOR, increment: Option<int> := None) returns (self: Semver)
      modifies this
      ensures self == this
      ensures Value() == Bumped(old(Value()), segments, increment.GetOr(DEFAULT_MODIFIER))
    {
      var modifier := increment.GetOr(DEFAULT_MODIFIER);
      if HasFlag(segments, MAJOR) {
        major := major + modifier;
      }
      if HasFlag(segments, MINOR) {
        minor := minor + modifier;
      }
      if HasFlag(segments, PATCH) {
        patch := patch + modifier;
      }
      return this;
    }

    /**
     * Split on '.', fail without touching the fields when there are fewer than three
     * parts, otherwise assign the casts of the first three parts in order.
     */
    method SetVersion(version: string) returns (r: Result<Semver, ParseError>)
      modifies this
      ensures Parse(version).Failure? ==> r == Failure(InvalidSemver) && Value() == old(Value())
      ensures Parse(version).Success? ==> r == Success(this) && Value() == Parse(version).value
    {
      var parts := Split(version);
      SplitLength(version);
      if |parts| < 3 {
        return Failure(InvalidSemver);
      }
      ghost var all := parts;
      major := ToInt(parts[0]);
      parts := parts[1..];
      minor := ToInt(parts[0]);
      parts := parts[1..];
      patch := ToInt(parts[0]);
      assert patch == ToInt(all[2]);
      return Success(this);
    }

    /** The major segment: the first part of the rendering. */
    function GetMajor(): (m: int)
      reads this
      ensures Split(ToString())[0] == IntToString(m)
    {
      major
    }

    /** The minor segment: the second part of the rendering. */
    function GetMinor(): (m: int)
      reads this
      ensures Split(ToString())[1] == IntToString(m)
    {
      minor
    }

    /** The patch segment: the third part of the rendering. */
    function GetPatch(): (p: int)
      reads this
      ensures Split(ToString())[2] == IntToString(p)
    {
      patch
    }

    /** This object's version is greater than `other`'s. */
    function Gt(other: Semver): (b: bool)
      reads this, other
      ensures Natural(Value()) && Natural(other.Value()) ==> (b <==> Less(other.Value(), Value()))
    {
      VersionCompareRendered(Value(), other.Value());
      CmpIsLexicographic(Value(), other.Value());
      Compare(other.ToString(), ">")
    }

    /** This object's version is greater than or equal to `other`'s. */
    function Ge(other: Semver): (b: bool)
      reads this, other
      ensures Natural(Value()) && Natural(other.Value()) ==> (b <==> !Less(Value(), other.Value()))
    {
      VersionCompareRendered(Value(), other.Value());
      CmpIsLexicographic(Value(), other.Value());
      Compare(other.ToString(), ">=")
    }

    /** This object's version is less than `other`'s. */
    function Lt(other: Semver): (b: bool)
      reads this, other
      ensures Natural(Value()) && Natural(other.Value()) ==> (b <==> Less(Value(), other.Value()))
    {
      VersionCompareRendered(Value(), other.Value());
      CmpIsLexicographic(Value(), other.Value());
      Compare(other.ToString(), "<")
    }

    /** This object's version is less than or equal to `other`'s. */
    function Le(other: Semver): (b: bool)
      reads this, other
      ensures Natural(Value()) && Natural(other.Value()) ==> (b <==> !Less(other.Value(), Value()))
    {
      VersionCompareRendered(Value(), other.Value());
      CmpIsLexicographic(Value(), other.Value());
      Compare(other.ToString(), "<=")
    }

    /** The two versions are equal: all three segments agree. */
    function Eq(other: Semver): (b: bool)
      reads this, other
      ensures Natural(Value()) && Natural(other.Value()) ==> (b <==> Value() == other.Value())
    {
      VersionCompareRendered(Value(), other.Value());
      CmpIsLexicographic(Value(), other.Value());
      Compare(other.ToString(), "==")
    }

    /** The two versions differ in some segment. */
    function Ne(other: Semver): (b: bool)
      reads this, other
      ensures Natural(Value()) && Natural(other.Value()) ==> (b <==> Value() != other.Value())
    {
      VersionCompareRendered(Value(), other.Value());
      CmpIsLexicographic(Value(), other.Value());
      Compare(other.ToString(), "<>")
    }

    /**
     * Compare this object's rendering with `version` under `operator`, this object on
     * the left; an operator other than the six the comparators use never holds.
     */
    function Compare(version: string, operator: string := "=="): (b: bool)
      reads this
      ensures b ==> operator in OPERATORS
      ensures Natural(Value()) && IsCanonical(version) ==>
                Parse(version).Success? &&
                (b <==> OpHolds(operator, Cmp(Value(), Parse(version).value)))
    {
      assert Natural(Value()) && IsCanonical(version) ==>
               Parse(version).Success? &&
               VersionCompare(ToString(), version) == Cmp(Value(), Parse(version).value) by {
        if Natural(Value()) && IsCanonical(version) {
          VersionCompareCanonical(Value(), version);
        }
      }
      OpHolds(operator, VersionCompare(ToString(), version))
    }
  }

  /** How the six comparators relate, whatever the segments. */
  lemma ComparatorRelations(a: Semver, b: Semver)
    ensures a.Ne(b) == !a.Eq(b)
    ensures a.Ge(b) == (a.Gt(b) || a.Eq(b))
    ensures a.Le(b) == (a.Lt(b) || a.Eq(b))
    ensures (a.Lt(b) && !a.Eq(b) && !a.Gt(b))
         || (!a.Lt(b) && a.Eq(b) && !a.Gt(b))
         || (!a.Lt(b) && !a.Eq(b) && a.Gt(b))
  {
    var c := VersionCompare(a.ToString(), b.ToString());
    OperatorRelations(c);
    assert a.Gt(b) == OpHolds(">", c) && a.Ge(b) == OpHolds(">=", c);
    assert a.Lt(b) == OpHolds("<", c) && a.Le(b) == OpHolds("<=", c);
    assert a.Eq(b) == OpHolds("==", c) && a.Ne(b) == OpHolds("<>", c);
  }

  /** Swapping the operands swaps greater and less. */
  lemma ComparatorsSwap(a: Semver, b: Semver)
    ensures a.Gt(b) == b.Lt(a)
    ensures a.Ge(b) == b.Le(a)
    ensures a.Eq(b) == b.Eq(a)
  {
    var c := VersionCompare(a.ToString(), b.ToString());
    VersionCompareSwap(a.ToString(), b.ToString());
    assert a.Gt(b) == OpHolds(">", c) && b.Lt(a) == OpHolds("<", -c);
    assert a.Ge(b) == OpHolds(">=", c) && b.Le(a) == OpHolds("<=", -c);
    assert a.Eq(b) == OpHolds("==", c) && b.Eq(a) == OpHolds("==", -c);
  }

  /** 1.0.0 is greater than 0.1.0 and 0.0.999999, and not greater than 1.0.1. */
  lemma GreaterThanExamples(a: Semver, d: Semver, n: Semver, p: Semver)
    requires a.Value() == Version(1, 0, 0)
    requires d.Value() == Version(0, 1, 0)
    requires n.Value() == Version(0, 0, 999999)
    requires p.Value() == Version(1, 0, 1)
    ensures a.Gt(d) && a.Gt(n) && !a.Gt(p)
  {
    assert Natural(a.Value()) && Natural(d.Value()) && Natural(n.Value()) && Natural(p.Value());
    assert Less(d.Value(), a.Value()) && Less(n.Value(), a.Value()) && !Less(p.Value(), a.Value());
  }

  /** 1.0.0 is at least 0.1.0, 0.0.999999 and itself, and not at least 1.0.1. */
  lemma GreaterOrEqualExamples(a: Semver, d: Semver, n: Semver, p: Semver)
    requires a.Value() == Version(1, 0, 0)
    requires d.Value() == Version(0, 1, 0)
    requires n.Value() == Version(0, 0, 999999)
    requires p.Value() == Version(1, 0, 1)
    ensures a.Ge(d) && a.Ge(n) && a.Ge(a) && !a.Ge(p)
  {
    assert Natural(a.Value()) && Natural(d.Value()) && Natural(n.Value()) && Natural(p.Value());
    assert !Less(a.Value(), d.Value()) && !Less(a.Value(), n.Value()) && !Less(a.Value(), a.Value());
    assert Less(a.Value(), p.Value());
  }

  /** 1.0.0 is less than 1.0.1 only. */
  lemma LessThanExamples(a: Semver, d: Semver, n: Semver, p: Semver)
    requires a.Value() == Version(1, 0, 0)
    requires d.Value() == Version(0, 1, 0)
    requires n.Value() == Version(0, 0, 999999)
    requires p.Value() == Version(1, 0, 1)
    ensures !a.Lt(d) && !a.Lt(n) && a.Lt(p)
  {
    assert Natural(a.Value()) && Natural(d.Value()) && Natural(n.Value()) && Natural(p.Value());
    assert !Less(a.Value(), d.Value()) && !Less(a.Value(), n.Value()) && Less(a.Value(), p.Value());
  }

  /** 1.0.0 is at most itself and 1.0.1 only. */
  lemma LessOrEqualExamples(a: Semver, d: Semver, n: Semver, p: Semver)
    requires a.Value() == Version(1, 0, 0)
    requires d.Value() == Version(0, 1, 0)
    requires n.Value() == Version(0, 0, 999999)
    requires p.Value() == Version(1, 0, 1)
    ensures !a.Le(d) && !a.Le(n) && a.Le(a) && a.Le(p)
  {
    assert Natural(a.Value()) && Natural(d.Value()) && Natural(n.Value()) && Natural(p.Value());
    assert Less(d.Value(), a.Value()) && Less(n.Value(), a.Value());
    assert !Less(a.Value(), a.Value()) && !Less(p.Value(), a.Value());
  }

  /** 1.0.0 equals itself only. */
  lemma EqualExamples(a: Semver, d: Semver, n: Semver, p: Semver)
    requires a.Value() == Version(1, 0, 0)
    requires d.Value() == Version(0, 1, 0)
    requires n.Value() == Version(0, 0, 999999)
    requires p.Value() == Version(1, 0, 1)
    ensures a.Eq(a) && !a.Eq(d) && !a.Eq(n) && !a.Eq(p)
  {
    assert Natural(a.Value()) && Natural(d.Value()) && Natural(n.Value()) && Natural(p.Value());
    assert a.Value() != d.Value() && a.Value() != n.Value() && a.Value() != p.Value();
  }

  /** 1.0.0 differs from everything but itself. */
  lemma NotEqualExamples(a: Semver, d: Semver, n: Semver, p: Semver)
    requires a.Value() == Version(1, 0, 0)
    requires d.Value() == Version(0, 1, 0)
    requires n.Value() == Version(0, 0, 999999)
    requires p.Value() == Version(1, 0, 1)
    ensures !a.Ne(a) && a.Ne(d) && a.Ne(n) && a.Ne(p)
  {
    assert Natural(a.Value()) && Natural(d.Value()) && Natural(n.Value()) && Natural(p.Value());
    assert a.Value() != d.Value() && a.Value() != n.Value() && a.Value() != p.Value();
  }
}
