/**
 * The value behind a semantic version object: three integer segments, their
 * rendering as "major.minor.patch", the lenient parse of that form, the
 * bit-mask driven bump, and the ordering the comparators use.
 */
module Versions {
  import opened Wrappers
  import opened Text

  /** The version a new object holds when no version string is given. */
  const DEFAULT_VERSION: string := "0.1.0"
  /** The increment `bump` applies when none is given. */
  const DEFAULT_MODIFIER: int := 1
  /** Segment flags, combined with bitwise or into a selection mask. */
  const MAJOR: int := 1
  const MINOR: int := 2
  const PATCH: int := 4

  datatype Version = Version(major: int, minor: int, patch: int)

  /** The one failure of parsing: fewer than three dot-separated parts. */
  datatype ParseError = InvalidSemver

  /** No segment is negative: every parsed version, and every version only bumped upward. */
  predicate Natural(v: Version) {
    v.major >= 0 && v.minor >= 0 && v.patch >= 0
  }

  function Segments(v: Version): seq<int> {
    [v.major, v.minor, v.patch]
  }

  // ---- rendering and parsing ----

  /** "major.minor.patch": the three segments joined by '.'. */
  function Render(v: Version): (s: string)
    ensures Split(s) == [IntToString(v.major), IntToString(v.minor), IntToString(v.patch)]
    ensures CountDots(s) == 2
  {
    var parts := [IntToString(v.major), IntToString(v.minor), IntToString(v.patch)];
    SplitJoin(parts);
    SplitLength(Join(parts));
    Join(parts)
  }

  /**
   * Split on '.', fail when there are fewer than three parts, otherwise cast the
   * first three parts to integers; later parts are ignored.
   */
  function Parse(s: string): (r: Result<Version, ParseError>)
    ensures r.Failure? <==> CountDots(s) < 2
    ensures r.Success? ==> Natural(r.value)
  {
    SplitLength(s);
    var parts := Split(s);
    if |parts| < 3 then Failure(InvalidSemver)
    else Success(Version(ToInt(parts[0]), ToInt(parts[1]), ToInt(parts[2])))
  }

  /** A string in canonical form: three canonical numerals joined by dots. */
  predicate IsCanonical(s: string) {
    var parts := Split(s);
    |parts| == 3 && IsNumeral(parts[0]) && IsNumeral(parts[1]) && IsNumeral(parts[2])
  }

  /** The default version string parses to (0, 1, 0), which renders back to it. */
  lemma DefaultVersion()
    ensures Parse(DEFAULT_VERSION) == Success(Version(0, 1, 0))
    ensures Render(Version(0, 1, 0)) == DEFAULT_VERSION
  {
    JoinThree("0", "1", "0");
    ParseRender(Version(0, 1, 0));
  }

  /** Parsing the rendering of a version with natural segments restores it. */
  lemma ParseRender(v: Version)
    requires Natural(v)
    ensures Parse(Render(v)) == Success(v)
  {
    ToIntOfNatToString(v.major);
    ToIntOfNatToString(v.minor);
    ToIntOfNatToString(v.patch);
  }

  /** Rendering the parse of a canonical string gives the string back. */
  lemma RenderParse(s: string)
    requires IsCanonical(s)
    ensures Parse(s).Success? && Render(Parse(s).value) == s
  {
    var parts := Split(s);
    forall i | 0 <= i < 3
      ensures IntToString(ToInt(parts[i])) == parts[i]
    {
      LeadingDigitsOfDigits(parts[i]);
      NatToStringOfNumeral(parts[i]);
    }
    JoinSplit(s);
    assert Render(Parse(s).value) == Join([parts[0], parts[1], parts[2]]);
    assert parts == [parts[0], parts[1], parts[2]];
  }

  /** Parts after the third one have no effect on the parse. */
  lemma ParseIgnoresTail(a: string, b: string, c: string, tail: string)
    requires '.' !in a && '.' !in b && '.' !in c
    ensures Parse(a + "." + b + "." + c + "." + tail) == Parse(a + "." + b + "." + c)
  {
    var s := a + "." + b + "." + c + "." + tail;
    var t := a + "." + b + "." + c;
    assert s == a + "." + (b + "." + (c + "." + tail));
    assert t == a + "." + (b + "." + c);
    SplitDotFreeHead(a, b + "." + (c + "." + tail));
    SplitDotFreeHead(b, c + "." + tail);
    SplitDotFreeHead(c, tail);
    SplitDotFreeHead(a, b + "." + c);
    SplitDotFreeHead(b, c);
    SplitDotFree(c);
  }

  /**
   * Three dot-free parts parse to their casts, in order: the lenient parse of any
   * string with exactly two dots.
   */
  lemma ParseParts(a: string, b: string, c: string)
    requires '.' !in a && '.' !in b && '.' !in c
    ensures Parse(a + "." + b + "." + c) == Success(Version(ToInt(a), ToInt(b), ToInt(c)))
  {
    SplitJoin([a, b, c]);
    JoinThree(a, b, c);
  }

  /** A zero in front of the patch part is dropped: "1.0.01" parses like "1.0.1". */
  lemma ParseDropsLeadingZero(a: string, b: string, c: string)
    requires '.' !in a && '.' !in b && '.' !in c
    ensures Parse(a + "." + b + "." + ("0" + c)) == Parse(a + "." + b + "." + c)
  {
    assert '.' !in "0" + c;
    SplitJoin([a, b, "0" + c]);
    SplitJoin([a, b, c]);
    JoinThree(a, b, "0" + c);
    JoinThree(a, b, c);
    ToIntLeadingZero(c);
  }

  /** A canonical string parses to its numbers: "69.69.69" gives (69, 69, 69). */
  lemma ParseCanonicalExample()
    ensures Parse("69.69.69") == Success(Version(69, 69, 69))
  {
    assert NatToString(69) == "69";
    JoinThree("69", "69", "69");
    ParseRender(Version(69, 69, 69));
  }

  /** "1.0.01" gives (1, 0, 1). */
  lemma ParseLeadingZeroExample()
    ensures Parse("1.0.01") == Success(Version(1, 0, 1))
  {
    ParseDropsLeadingZero("1", "0", "1");
    assert "1" + "." + "0" + "." + ("0" + "1") == "1.0.01";
    assert "1" + "." + "0" + "." + "1" == "1.0.1";
    JoinThree("1", "0", "1");
    ParseRender(Version(1, 0, 1));
  }

  /** Non-numeric parts cast to 0: "a.b.c" gives (0, 0, 0). */
  lemma ParseNonNumericExample()
    ensures Parse("a.b.c") == Success(Version(0, 0, 0))
  {
  }

  /** A fourth part is ignored: "1.2.3.4" gives (1, 2, 3). */
  lemma ParseExtraPartExample()
    ensures Parse("1.2.3.4") == Success(Version(1, 2, 3))
  {
    ParseIgnoresTail("1", "2", "3", "4");
    assert "1" + "." + "2" + "." + "3" + "." + "4" == "1.2.3.4";
    JoinThree("1", "2", "3");
    ParseRender(Version(1, 2, 3));
  }

  /** Two parts are too few: "1.2" fails. */
  lemma ParseTooFewExample()
    ensures Parse("1.2") == Failure(InvalidSemver)
  {
  }

  // ---- bumping ----

  /** The bitwise reading of `segments & flag`, on the three low bits of the mask. */
  predicate FlagBit(segments: int, flag: bv8) {
    ((segments % 8) as bv8) & flag != 0
  }

  /**
   * `segments & flag` is non-zero, for a one-bit flag, computed arithmetically
   * (two's complement, so negative masks too).
   */
  predicate HasFlag(segments: int, flag: int)
    requires flag > 0
    ensures flag == MAJOR || flag == MINOR || flag == PATCH ==>
              (HasFlag(segments, flag) <==> FlagBit(segments, flag as bv8))
  {
    assert flag == MAJOR || flag == MINOR || flag == PATCH ==>
             ((segments / flag) % 2 == 1 <==> FlagBit(segments, flag as bv8)) by {
      if flag == MAJOR || flag == MINOR || flag == PATCH {
        FlagBitOfQuotient(segments, flag);
      }
    }
    (segments / flag) % 2 == 1
  }

  /** Add `increment` to every segment whose flag is set in `segments`; the others are kept. */
  function Bumped(v: Version, segments: int, increment: int): (w: Version)
    ensures w.major == v.major + (if FlagBit(segments, MAJOR as bv8) then increment else 0)
    ensures w.minor == v.minor + (if FlagBit(segments, MINOR as bv8) then increment else 0)
    ensures w.patch == v.patch + (if FlagBit(segments, PATCH as bv8) then increment else 0)
  {
    Version(
      if HasFlag(segments, MAJOR) then v.major + increment else v.major,
      if HasFlag(segments, MINOR) then v.minor + increment else v.minor,
      if HasFlag(segments, PATCH) then v.patch + increment else v.patch)
  }

  /** The arithmetic bit test agrees with the bitwise one on each of the three flags. */
  lemma FlagBitOfQuotient(segments: int, flag: int)
    requires flag == MAJOR || flag == MINOR || flag == PATCH
    ensures ((segments / flag) % 2 == 1) <==> FlagBit(segments, flag as bv8)
  {
    var r := segments % 8;
    if flag == 1 {
      Bit0OfMod8(segments);
    } else if flag == 2 {
      Bit1OfMod8(segments);
    } else {
      Bit2OfMod8(segments);
    }
    assert (r / flag) % 2 == 1 <==> (segments / flag) % 2 == 1;
    LowBits(r, flag);
  }

  lemma LowBits(r: int, flag: int)
    requires 0 <= r < 8
    requires flag == MAJOR || flag == MINOR || flag == PATCH
    ensures ((r / flag) % 2 == 1) <==> (r as bv8) & (flag as bv8) != 0
  {
    if r == 0 {
    } else if r == 1 {
    } else if r == 2 {
    } else if r == 3 {
    } else if r == 4 {
    } else if r == 5 {
    } else if r == 6 {
    } else {
      assert r == 7;
    }
  }

  /** Only the three low bits of the mask are read. */
  lemma FlagIgnoresHighBits(segments: int, flag: int)
    requires flag == MAJOR || flag == MINOR || flag == PATCH
    ensures HasFlag(segments % 8, flag) == HasFlag(segments, flag)
  {
    if flag == 1 {
      Bit0OfMod8(segments);
    } else if flag == 2 {
      Bit1OfMod8(segments);
    } else {
      Bit2OfMod8(segments);
    }
  }

  lemma Bit0OfMod8(s: int)
    ensures (s % 8) % 2 == s % 2
  {
    var q, r := s / 8, s % 8;
    assert s == 8 * q + r && 0 <= r < 8;
    var t, u := r / 2, r % 2;
    assert r == 2 * t + u && 0 <= u < 2;
    assert s == 2 * (4 * q + t) + u;
    assert s % 2 == u;
  }

  lemma Bit1OfMod8(s: int)
    ensures ((s % 8) / 2) % 2 == (s / 2) % 2
  {
    var q, r := s / 8, s % 8;
    assert s == 8 * q + r && 0 <= r < 8;
    var t, u := r / 2, r % 2;
    assert r == 2 * t + u && 0 <= u < 2;
    assert s == 2 * (4 * q + t) + u;
    assert s / 2 == 4 * q + t;
    assert (4 * q + t) % 2 == t % 2;
  }

  lemma Bit2OfMod8(s: int)
    ensures ((s % 8) / 4) % 2 == (s / 4) % 2
  {
    var q, r := s / 8, s % 8;
    assert s == 8 * q + r && 0 <= r < 8;
    var t, u := r / 4, r % 4;
    assert r == 4 * t + u && 0 <= u < 4;
    assert s == 4 * (2 * q + t) + u;
    assert s / 4 == 2 * q + t;
    assert (2 * q + t) % 2 == t % 2;
  }

  /** Bits outside MAJOR | MINOR | PATCH have no effect on a bump. */
  lemma BumpedIgnoresHighBits(v: Version, segments: int, increment: int)
    ensures Bumped(v, segments % 8, increment) == Bumped(v, segments, increment)
  {
    FlagIgnoresHighBits(segments, MAJOR);
    FlagIgnoresHighBits(segments, MINOR);
    FlagIgnoresHighBits(segments, PATCH);
  }

  /** Bumping by k and then by -k restores the version: a decrement undoes an increment. */
  lemma BumpedInverse(v: Version, segments: int, increment: int)
    ensures Bumped(Bumped(v, segments, increment), segments, -increment) == v
  {
  }

  /** Two bumps of the same segments add up. */
  lemma BumpedAdds(v: Version, segments: int, a: int, b: int)
    ensures Bumped(Bumped(v, segments, a), segments, b) == Bumped(v, segments, a + b)
  {
  }

  /** A mask with at least one of the three flags set selects some segment. */
  lemma SomeFlagSet(segments: int)
    requires segments % 8 != 0
    ensures HasFlag(segments, MAJOR) || HasFlag(segments, MINOR) || HasFlag(segments, PATCH)
  {
  }

  /** A positive bump of a non-empty selection yields a strictly greater version. */
  lemma BumpedIncreases(v: Version, segments: int, increment: int)
    requires increment > 0 && segments % 8 != 0
    ensures Cmp(Bumped(v, segments, increment), v) == 1
  {
    SomeFlagSet(segments);
    CmpIsLexicographic(Bumped(v, segments, increment), v);
  }

  /**
   * The bumps the test suite makes on the default version 0.1.0. Lower segments
   * are not reset: a major bump gives 1.1.0, not 1.0.0.
   */
  lemma BumpExamples()
    ensures Bumped(Version(0, 1, 0), MAJOR, DEFAULT_MODIFIER) == Version(1, 1, 0)
    ensures Bumped(Version(0, 1, 0), MINOR, 1) == Version(0, 2, 0)
    ensures Bumped(Version(0, 1, 0), PATCH, 1) == Version(0, 1, 1)
    ensures Bumped(Version(0, 1, 0), MAJOR + MINOR, 1) == Version(1, 2, 0)
    ensures Bumped(Version(0, 1, 0), MINOR + PATCH, 1) == Version(0, 2, 1)
    ensures Bumped(Version(0, 1, 0), MAJOR + PATCH, 1) == Version(1, 1, 1)
    ensures Bumped(Version(0, 1, 0), MAJOR + MINOR + PATCH, 1) == Version(1, 2, 1)
  {
  }

  /** The default major bump renders as "1.1.0". */
  lemma BumpMajorRendering()
    ensures Render(Bumped(Version(0, 1, 0), MAJOR, DEFAULT_MODIFIER)) == "1.1.0"
  {
    assert Bumped(Version(0, 1, 0), MAJOR, DEFAULT_MODIFIER) == Version(1, 1, 0);
    RenderDigits(1, 1, 0);
  }

  /** A version of single-digit segments renders as five characters. */
  lemma RenderDigits(x: nat, y: nat, z: nat)
    requires x < 10 && y < 10 && z < 10
    ensures Render(Version(x, y, z)) == [DigitChar(x), '.', DigitChar(y), '.', DigitChar(z)]
  {
    JoinThree([DigitChar(x)], [DigitChar(y)], [DigitChar(z)]);
  }

  // ---- ordering ----

  function CmpInt(a: int, b: int): int {
    if a < b then -1 else if a > b then 1 else 0
  }

  /** Element-wise comparison of number sequences; a proper prefix compares smaller. */
  function CmpSeq(a: seq<int>, b: seq<int>): (c: int)
    ensures -1 <= c <= 1
    ensures c == 0 <==> a == b
    decreases |a|
  {
    if a == [] && b == [] then 0
    else if a == [] then -1
    else if b == [] then 1
    else if a[0] != b[0] then CmpInt(a[0], b[0])
    else
      assert a == [a[0]] + a[1..] && b == [b[0]] + b[1..];
      CmpSeq(a[1..], b[1..])
  }

  /** The ordering of versions: their segments compared major first, then minor, then patch. */
  function Cmp(v: Version, w: Version): int {
    CmpSeq(Segments(v), Segments(w))
  }

  /** Reference definition of "v precedes w", written out segment by segment. */
  predicate Less(v: Version, w: Version) {
    || v.major < w.major
    || (v.major == w.major && v.minor < w.minor)
    || (v.major == w.major && v.minor == w.minor && v.patch < w.patch)
  }

  /** Swapping the operands negates the comparison. */
  lemma {:induction false} CmpSeqAntisymmetric(a: seq<int>, b: seq<int>)
    ensures CmpSeq(a, b) == -CmpSeq(b, a)
    decreases |a|
  {
    if a != [] && b != [] && a[0] == b[0] {
      CmpSeqAntisymmetric(a[1..], b[1..]);
    }
  }

  /** Cmp is -1, 0 or 1 exactly when v precedes, equals or follows w. */
  lemma CmpIsLexicographic(v: Version, w: Version)
    ensures Cmp(v, w) == -1 <==> Less(v, w)
    ensures Cmp(v, w) == 0 <==> v == w
    ensures Cmp(v, w) == 1 <==> Less(w, v)
  {
    var a, b := Segments(v), Segments(w);
    if v.major != w.major {
      assert Cmp(v, w) == CmpInt(v.major, w.major);
    } else {
      assert a[1..] == [v.minor, v.patch] && b[1..] == [w.minor, w.patch];
      assert Cmp(v, w) == CmpSeq([v.minor, v.patch], [w.minor, w.patch]);
      if v.minor != w.minor {
        assert Cmp(v, w) == CmpInt(v.minor, w.minor);
      } else {
        assert [v.minor, v.patch][1..] == [v.patch] && [w.minor, w.patch][1..] == [w.patch];
        assert Cmp(v, w) == CmpSeq([v.patch], [w.patch]);
        if v.patch != w.patch {
          assert Cmp(v, w) == CmpInt(v.patch, w.patch);
        } else {
          assert v == w;
        }
      }
    }
  }

  /** Less is a strict total order. */
  lemma LessIsStrictTotalOrder(u: Version, v: Version, w: Version)
    ensures !Less(v, v)
    ensures Less(u, v) && Less(v, w) ==> Less(u, w)
    ensures Less(v, w) || v == w || Less(w, v)
    ensures !(Less(v, w) && Less(w, v))
  {
  }

  // ---- the comparison primitive ----

  /** The integer cast of every part. */
  function Numbers(parts: seq<string>): seq<int> {
    seq(|parts|, i requires 0 <= i < |parts| => ToInt(parts[i]))
  }

  /**
   * The string comparison the comparators call: both strings split on '.', each part
   * cast to an integer, and the number sequences compared element by element.
   */
  function VersionCompare(a: string, b: string): (c: int)
    ensures -1 <= c <= 1
    ensures c == 0 <==> Numbers(Split(a)) == Numbers(Split(b))
  {
    CmpSeq(Numbers(Split(a)), Numbers(Split(b)))
  }

  /** Swapping the two strings negates the comparison. */
  lemma VersionCompareSwap(a: string, b: string)
    ensures VersionCompare(a, b) == -VersionCompare(b, a)
  {
    CmpSeqAntisymmetric(Numbers(Split(a)), Numbers(Split(b)));
  }

  lemma NumbersOfRender(v: Version)
    requires Natural(v)
    ensures Numbers(Split(Render(v))) == Segments(v)
  {
    ToIntOfNatToString(v.major);
    ToIntOfNatToString(v.minor);
    ToIntOfNatToString(v.patch);
  }

  /**
   * On renderings of natural versions the string comparison is the numeric ordering
   * of the segments, not a comparison of the characters.
   */
  lemma VersionCompareRendered(v: Version, w: Version)
    ensures Natural(v) && Natural(w) ==> VersionCompare(Render(v), Render(w)) == Cmp(v, w)
  {
    if Natural(v) && Natural(w) {
      NumbersOfRender(v);
      NumbersOfRender(w);
    }
  }

  /**
   * Against a canonical string the rendering of a natural version compares as the
   * version compares with the parse of that string.
   */
  lemma VersionCompareCanonical(v: Version, s: string)
    requires Natural(v) && IsCanonical(s)
    ensures Parse(s).Success?
    ensures VersionCompare(Render(v), s) == Cmp(v, Parse(s).value)
  {
    RenderParse(s);
    VersionCompareRendered(v, Parse(s).value);
  }

  /** "0.10.0" follows "0.9.0" although '1' sorts before '9'. */
  lemma VersionCompareNumericExample()
    ensures VersionCompare("0.10.0", "0.9.0") == 1
  {
    var v, w := Version(0, 10, 0), Version(0, 9, 0);
    RenderTen();
    RenderDigits(0, 9, 0);
    VersionCompareRendered(v, w);
    assert Cmp(v, w) == 1 by {
      CmpIsLexicographic(v, w);
    }
  }

  lemma RenderTen()
    ensures Render(Version(0, 10, 0)) == "0.10.0"
  {
    assert NatToString(10) == NatToString(1) + [DigitChar(0)] == "10";
    JoinThree("0", "10", "0");
  }

  /** The string comparison is decided by the first parts when their casts differ. */
  lemma VersionCompareFirstPart(a: string, b: string)
    requires ToInt(Split(a)[0]) != ToInt(Split(b)[0])
    ensures VersionCompare(a, b) == CmpInt(ToInt(Split(a)[0]), ToInt(Split(b)[0]))
  {
  }

  /** "1.0.0" follows "0.0.999999": the major segment decides. */
  lemma VersionCompareMajorExample()
    ensures VersionCompare("1.0.0", "0.0.999999") == 1
  {
    SplitDotFreeHead("1", "0.0");
    SplitDotFreeHead("0", "0.999999");
    assert "1" + "." + "0.0" == "1.0.0";
    assert "0" + "." + "0.999999" == "0.0.999999";
    assert ToInt("1") == 1 && ToInt("0") == 0;
    VersionCompareFirstPart("1.0.0", "0.0.999999");
  }

  /** The operators the comparators pass. */
  const OPERATORS: set<string> := {">", ">=", "<", "<=", "==", "<>"}

  /** Whether a comparison outcome satisfies an operator; an unknown operator never holds. */
  function OpHolds(operator: string, c: int): (b: bool)
    ensures b ==> operator in OPERATORS
  {
    if operator == ">" then c > 0
    else if operator == ">=" then c >= 0
    else if operator == "<" then c < 0
    else if operator == "<=" then c <= 0
    else if operator == "==" then c == 0
    else if operator == "<>" then c != 0
    else false
  }

  /** How the six operators relate on one comparison outcome. */
  lemma OperatorRelations(c: int)
    ensures OpHolds("<>", c) == !OpHolds("==", c)
    ensures OpHolds(">=", c) == (OpHolds(">", c) || OpHolds("==", c))
    ensures OpHolds("<=", c) == (OpHolds("<", c) || OpHolds("==", c))
    ensures (OpHolds("<", c) && !OpHolds("==", c) && !OpHolds(">", c))
         || (!OpHolds("<", c) && OpHolds("==", c) && !OpHolds(">", c))
         || (!OpHolds("<", c) && !OpHolds("==", c) && OpHolds(">", c))
  {
  }
}
