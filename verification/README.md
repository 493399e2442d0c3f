# Semver value object — a Dafny model

This project models `Semver`, a PHP class for a simplified semantic version:
three integer segments `major.minor.patch`, no pre-release or build metadata.
The class offers five operations:

- It parses a dotted string. This is lenient: only the first three parts are read, each
  with PHP's integer cast, so a non-numeric part becomes 0 and parts after the third are
  ignored.
- It renders the version as `major.minor.patch`.
- It bumps segments: an increment is added to every segment whose flag
  (MAJOR = 1, MINOR = 2, PATCH = 4) is set in a bit mask.
- It has six comparators (`gt`, `ge`, `lt`, `le`, `eq`, `ne`). Each compares this
  object's rendering with the other object's rendering through PHP's `version_compare`.
- Creating an object with no string gives `0.1.0`.

Layout:

- `wrappers.dfy` (`Wrappers`): `Option` stands for PHP's `null` defaults. `Result` stands
  for the exception thrown on an invalid string.
- `text.dfy` (`Text`): the string primitives the class relies on.
  - `Split` and `Join` are `explode('.', …)` and `implode('.', …)`, and are proved to be inverses.
  - `ToInt` is the `(int)` cast: the longest leading run of decimal digits, or 0 when
    there is none.
  - `IntToString` is the rendering of an integer.
- `versions.dfy` (`Versions`): the value behind an object and the specification functions.
  - the `Version` datatype;
  - `Render`, `Parse`, `Bumped`;
  - the ordering `Cmp` and its segment-by-segment reference definition `Less`;
  - `VersionCompare`, the string comparison primitive;
  - the lemmas about all of these.
- `semver.dfy` (`SemverModel`): the class `Semver` with its three mutable `int` fields.
  - `SetVersion` and `Bump` update the fields in place, and their postconditions tie the
    new state to `Parse` and `Bumped`.
  - The getters, `ToString` and the comparators are functions that read the fields.

Where the code departs from Semantic Versioning 2.0.0 or from its own doc comments, the
model follows the code:

- Item 2 of Semantic Versioning 2.0.0 makes every segment a non-negative integer. The
  bump adds the increment without clamping, so a negative increment can drive a segment
  below zero, and the model does not impose non-negative segments.
- The comparators compute `this OP other`. Their doc comments at src/Semver.php:165,
  :176, :187 and :198 describe the reverse direction ("the given semver is greater than
  the current instance"). The tests (tests/SemverTest.php:149-217) agree with the code.
- The comparators compare the renderings of both objects as strings, through
  `version_compare`. The model keeps that route and proves that, on natural segments,
  this string comparison is the numeric order of the segments (`VersionCompareRendered`).
- Bumping MAJOR does not reset the lower segments (`0.1.0` bumps to `1.1.0`), unlike
  items 7 and 8 of Semantic Versioning 2.0.0.

## Model

| member | source | states |
|---|---|---|
| `Text.ToInt` | src/Semver.php:127-129 | the integer cast of a part is 0 when the part is empty or does not start with a digit |
| `Text.LeadingDigits` | src/Semver.php:127-129 | the cast reads the longest digit prefix: all digits, a prefix of the part, followed by a non-digit or the end |
| `Text.ToIntOfNatToString` | src/Semver.php:127-129 | casting the rendering of a natural number gives the number back |
| `Text.NatToStringOfNumeral` | src/Semver.php:79-83 | rendering the value of a canonical numeral reproduces the numeral |
| `Text.ToIntLeadingZero` | src/Semver.php:127-129 | a leading zero does not change the cast ("01" casts like "1") |
| `Text.ToIntStopsAtNonDigit` | src/Semver.php:127-129 | the cast of digits followed by a non-digit is the value of the digits |
| `Text.NatToString` | src/Semver.php:79-83 | a natural number renders as a canonical numeral that starts with '0' only for 0 |
| `Text.IntToString` | src/Semver.php:79-83 | an integer renders without any '.'; a non-negative one as a canonical numeral that casts back to it, a negative one as '-' followed by the canonical numeral of its absolute value |
| `Text.Split` | src/Semver.php:121 | exploding on '.' gives at least one part, and no part contains a '.' |
| `Text.Join` | src/Semver.php:79 | imploding at least one dot-free part puts exactly one dot between neighbours: the result has one dot fewer than there are parts |
| `Text.SplitLength` | src/Semver.php:121-123 | the number of parts is the number of dots plus one |
| `Text.JoinSplit` | src/Semver.php:121 | imploding the exploded parts gives the original string |
| `Text.SplitJoin` | src/Semver.php:121 | exploding the implosion of dot-free parts gives the parts back |
| `Text.JoinThree` | src/Semver.php:79-83 | three parts are joined with exactly two dots, in order |
| `Versions.Render` | src/Semver.php:77-84 | the rendering splits into the three segment renderings, in order, and has exactly two dots |
| `Versions.Parse` | src/Semver.php:119-129 | parsing fails exactly when the string has fewer than two dots (fewer than three parts); a successful parse has natural segments |
| `Versions.DefaultVersion` | src/Semver.php:20 | the default string parses to (0, 1, 0), which renders back to "0.1.0" |
| `Versions.ParseRender` | src/Semver.php:119-129 | parsing the rendering of a version with natural segments restores it |
| `Versions.RenderParse` | src/Semver.php:119-129 | a string of three canonical numerals parses, and its parse renders back to the same string |
| `Versions.ParseParts` | src/Semver.php:121-129 | a string of three dot-free parts parses to the casts of the parts, in order (with `ParseIgnoresTail`, this fixes the value of every successful parse) |
| `Versions.ParseIgnoresTail` | src/Semver.php:127-129 | parts after the third have no effect on the parse |
| `Versions.ParseDropsLeadingZero` | src/Semver.php:127-129 | a zero in front of the patch part changes nothing |
| `Versions.ParseCanonicalExample` | tests/SemverTest.php:59-75 | "69.69.69" parses to (69, 69, 69) |
| `Versions.ParseLeadingZeroExample` | tests/SemverTest.php:156 | "1.0.01" parses to (1, 0, 1) |
| `Versions.ParseNonNumericExample` | src/Semver.php:127-129 | "a.b.c" parses to (0, 0, 0) |
| `Versions.ParseExtraPartExample` | src/Semver.php:127-129 | "1.2.3.4" parses to (1, 2, 3) |
| `Versions.ParseTooFewExample` | src/Semver.php:123-125 | "1.2" is rejected |
| `Versions.HasFlag` | src/Semver.php:97 | for MAJOR, MINOR and PATCH the arithmetic bit test agrees with `FlagBit`, a bitwise `&` of the mask's three low bits (two's complement for a negative mask) with the flag |
| `Versions.FlagBitOfQuotient` | src/Semver.php:97-105 | for each of the three flags, bit k of the mask read as `(segments / 2^k) % 2` is set exactly when the bitwise `&` with the flag is non-zero |
| `Versions.Bumped` | src/Semver.php:97-107 | each segment gains the increment exactly when the bitwise `segments & flag` for its flag is non-zero, and is kept otherwise |
| `Versions.FlagIgnoresHighBits` | src/Semver.php:97-105 | whether a flag is set depends only on the three low bits of the mask |
| `Versions.BumpedIgnoresHighBits` | src/Semver.php:93-110 | bits outside MAJOR, MINOR and PATCH have no effect on a bump |
| `Versions.BumpedInverse` | src/Semver.php:93-110 | bumping by k and then by -k restores the version |
| `Versions.BumpedAdds` | src/Semver.php:93-110 | two bumps of the same segments add their increments |
| `Versions.SomeFlagSet` | src/Semver.php:30-40 | a mask whose three low bits are not all clear selects at least one segment |
| `Versions.BumpedIncreases` | src/Semver.php:93-110 | a positive bump of a non-empty selection yields a strictly greater version |
| `Versions.BumpExamples` | tests/SemverTest.php:78-147 | from 0.1.0 every flag combination gives the tested result; a major bump keeps the lower segments |
| `Versions.BumpMajorRendering` | tests/SemverTest.php:81-84 | the default bump of 0.1.0 renders as "1.1.0" |
| `Versions.CmpSeq` | src/Semver.php:239 | element-wise comparison yields -1, 0 or 1, and 0 exactly for equal sequences |
| `Versions.CmpSeqAntisymmetric` | src/Semver.php:239 | swapping the operands negates the comparison |
| `Versions.CmpIsLexicographic` | src/Semver.php:239 | the ordering is -1, 0 or 1 exactly when one version precedes, equals or follows the other, segment by segment, major first |
| `Versions.LessIsStrictTotalOrder` | src/Semver.php:170-228 | the order on versions is irreflexive, transitive and total |
| `Versions.VersionCompare` | src/Semver.php:239 | the string comparison yields -1, 0 or 1, and 0 exactly when both strings cast to the same number sequence |
| `Versions.VersionCompareSwap` | src/Semver.php:239 | swapping the two strings negates the comparison |
| `Versions.VersionCompareCanonical` | src/Semver.php:239 | against a string of three canonical numerals, the rendering of a natural version compares as the version compares with the parse of that string |
| `Versions.VersionCompareRendered` | src/Semver.php:237-240 | on renderings of natural versions, the string comparison is the numeric order of the segments |
| `Versions.VersionCompareNumericExample` | src/Semver.php:239 | "0.10.0" follows "0.9.0": parts compare as numbers, not as characters |
| `Versions.VersionCompareMajorExample` | tests/SemverTest.php:154 | "1.0.0" follows "0.0.999999" |
| `Versions.OpHolds` | src/Semver.php:170-228 | an operator outside the six the comparators pass never holds |
| `Versions.OperatorRelations` | src/Semver.php:170-228 | on one comparison outcome: `<>` is the negation of `==`, `>=` is `>` or `==`, `<=` is `<` or `==`, and exactly one of `<`, `==`, `>` holds |
| `SemverModel.Semver.constructor` | src/Semver.php:45-55 | a fresh object holds 0.1.0 |
| `SemverModel.Semver.New` | src/Semver.php:67-70 | creation succeeds exactly when the given string, or "0.1.0" when none is given, parses; the new object holds that parse; with no string it holds 0.1.0 |
| `SemverModel.Semver.ToString` | src/Semver.php:77-84 | the rendering splits into the renderings of major, minor and patch, in that order; it has two dots and, for natural segments, parses back to the object's version |
| `SemverModel.Semver.Bump` | src/Semver.php:93-110 | the new version is the old one bumped by the mask (MAJOR when absent) and the increment (1 when absent); returns the object itself |
| `SemverModel.Semver.SetVersion` | src/Semver.php:119-132 | on fewer than three parts it fails and the fields are unchanged; otherwise the fields become the parse of the string and the object is returned |
| `SemverModel.Semver.GetMajor` | src/Semver.php:139-142 | the major segment is what the first part of the rendering shows |
| `SemverModel.Semver.GetMinor` | src/Semver.php:149-152 | the minor segment is what the second part of the rendering shows |
| `SemverModel.Semver.GetPatch` | src/Semver.php:159-162 | the patch segment is what the third part of the rendering shows |
| `SemverModel.Semver.Gt` | src/Semver.php:170-173 | for natural segments: holds exactly when the other version precedes this one |
| `SemverModel.Semver.Ge` | src/Semver.php:181-184 | for natural segments: holds exactly when this version does not precede the other |
| `SemverModel.Semver.Lt` | src/Semver.php:192-195 | for natural segments: holds exactly when this version precedes the other |
| `SemverModel.Semver.Le` | src/Semver.php:203-206 | for natural segments: holds exactly when the other version does not precede this one |
| `SemverModel.Semver.Eq` | src/Semver.php:214-217 | for natural segments: holds exactly when all three segments are equal |
| `SemverModel.Semver.Ne` | src/Semver.php:225-228 | for natural segments: holds exactly when some segment differs |
| `SemverModel.Semver.Compare` | src/Semver.php:237-240 | the comparison holds only for one of the six operators the comparators pass; for natural segments and a string of three canonical numerals it holds exactly when the operator holds between this version and the parse of the string |
| `SemverModel.ComparatorRelations` | src/Semver.php:170-228 | for any segments: ne is not eq, ge is gt or eq, le is lt or eq, and exactly one of lt, eq, gt holds |
| `SemverModel.ComparatorsSwap` | src/Semver.php:170-228 | swapping the operands turns gt into lt and ge into le, and leaves eq as it is |
| `SemverModel.GreaterThanExamples` | tests/SemverTest.php:149-158 | 1.0.0 is greater than 0.1.0 and 0.0.999999, and not greater than 1.0.1 |
| `SemverModel.GreaterOrEqualExamples` | tests/SemverTest.php:160-170 | 1.0.0 is greater than or equal to 0.1.0, 0.0.999999 and itself, and not to 1.0.1 |
| `SemverModel.LessThanExamples` | tests/SemverTest.php:172-181 | 1.0.0 is less than 1.0.1, and not less than 0.1.0 or 0.0.999999 |
| `SemverModel.LessOrEqualExamples` | tests/SemverTest.php:183-193 | 1.0.0 is less than or equal to itself and 1.0.1, and not to 0.1.0 or 0.0.999999 |
| `SemverModel.EqualExamples` | tests/SemverTest.php:195-205 | 1.0.0 equals itself and none of 0.1.0, 0.0.999999 and 1.0.1 |
| `SemverModel.NotEqualExamples` | tests/SemverTest.php:207-217 | 1.0.0 differs from 0.1.0, 0.0.999999 and 1.0.1, and not from itself |

## Left out

- `Text.ToInt`: models PHP's integer cast only as "leading digits, else 0". Leading whitespace, a sign, exponent notation such as `1e3` and saturation at `PHP_INT_MAX` are not modelled.
- `Versions.ParseRender`: stated for natural segments only. PHP's `(int)` cast reads a leading '-', but the model's `ToInt` does not, so in the model the rendering of a negative segment does not parse back to it.
- `Versions.VersionCompare` models PHP's `version_compare`, a builtin whose code is not part of this model, only for strings whose dot-separated parts are non-empty numerals. On such strings it splits on '.', casts each part and compares the numbers in order; a shorter sequence that is a prefix of the other is smaller. On a string with consecutive dots, the builtin may collapse them into one, whereas the model reads the empty part between them as 0. The builtin's special handling of `-`, `+`, `_` and of words such as `dev`, `alpha` and `RC` is not modelled. Once a bump makes a segment negative, the rendering contains `-` and the builtin no longer compares numerically.
- `SemverModel.Semver.Gt`: the link to the segment order is stated for natural segments only, for the reason given under `Versions.VersionCompare`.
- `SemverModel.Semver.Ge`: stated for natural segments only, as for `Gt`.
- `SemverModel.Semver.Lt`: stated for natural segments only, as for `Gt`.
- `SemverModel.Semver.Le`: stated for natural segments only, as for `Gt`.
- `SemverModel.Semver.Eq`: stated for natural segments only, as for `Gt`.
- `SemverModel.Semver.Ne`: stated for natural segments only, as for `Gt`.
- `SemverModel.Semver.Compare`: the link to the segment order is stated for natural segments and strings of three canonical numerals only, for the reason given under `Versions.VersionCompare`.
- `Versions.OpHolds`: covers the six operators the class passes. The builtin's other spellings (`lt`, `gt`, `eq`, `ne`, `!=`, `=`, …) are never used by the class.
- `SemverModel.Semver.Bump`: segments are unbounded integers. PHP turns an integer that overflows `PHP_INT_MAX` into a float; that is not modelled.
- The factory function `semver()` in src/helper.php only calls the constructor; `SemverModel.Semver.New` covers it.
- PHP's runtime type checks under `strict_types`: Dafny's types enforce the same argument types statically.
- Object identity (`assertSame` / `assertNotSame` in the tests) is a matter of PHP references, not of version behaviour.
- Prefix, pre-release and build metadata are not implemented by the class either (TODO comments and skipped tests only).
