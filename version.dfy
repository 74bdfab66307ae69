/**
 * The application's version constants and the semantic-version triple
 * derived from them with `APP_VERSION.split('.').map(Number)`.
 */
module Version {
  import opened Text

  /** `APP_VERSION`, the single source of the version number. */
  const AppVersion: string := "1.0.0"
  /** `BUILD_DATE`, an ISO 8601 timestamp written at build time. */
  const BuildDate: string := "2025-11-05T04:00:13.224Z"

  /** The JavaScript values a destructured field of `split('.').map(Number)` can take. */
  datatype JsNumber = Num(value: nat) | NaN | Undefined

  /**
   * `Number(field)` for a field of a version string: a string of decimal
   * digits is its value (`Number("")` is 0, leading zeros are ignored);
   * anything else is NaN here.
   */
  function ToNumber(field: string): (r: JsNumber)
    ensures r != Undefined
    ensures r.Num? <==> AllDigits(field)
  {
    if AllDigits(field) then Num(DigitsValue(field)) else NaN
  }

  /** Element `i` of an array read by destructuring: `undefined` past its end. */
  function FieldAt(fields: seq<string>, i: nat): (r: JsNumber)
    ensures r == Undefined <==> i >= |fields|
  {
    if i < |fields| then ToNumber(fields[i]) else Undefined
  }

  datatype VersionInfo = VersionInfo(major: JsNumber, minor: JsNumber, patch: JsNumber, full: string, buildDate: string)

  /** `VERSION_INFO` for a version string and a build date. */
  function ParseVersionInfo(version: string, buildDate: string): (r: VersionInfo)
    ensures r.full == version && r.buildDate == buildDate
    ensures r.major != Undefined
  {
    var fields := Split(version, '.');
    VersionInfo(FieldAt(fields, 0), FieldAt(fields, 1), FieldAt(fields, 2), version, buildDate)
  }

  /** The application's `VERSION_INFO`. */
  function AppVersionInfo(): VersionInfo {
    ParseVersionInfo(AppVersion, BuildDate)
  }

  /** `getVersionString()`: the version prefixed with `v`. */
  function VersionString(version: string): (r: string)
    ensures |r| == |version| + 1 && r[0] == 'v' && r[1..] == version
  {
    "v" + version
  }

  /**
   * Joining three or more dot-free fields with '.' and parsing again gives
   * the numeric values of the first three; fields after the third are ignored.
   */
  lemma FirstThreeFields(fields: seq<string>, buildDate: string)
    requires |fields| >= 3
    requires forall k :: 0 <= k < |fields| ==> '.' !in fields[k]
    ensures var info := ParseVersionInfo(Join(fields, '.'), buildDate);
      info.major == ToNumber(fields[0]) && info.minor == ToNumber(fields[1]) && info.patch == ToNumber(fields[2])
  {
    SplitJoin(fields, '.');
  }

  /** The canonical numerals of a triple, joined with '.'. */
  function TripleString(major: nat, minor: nat, patch: nat): string {
    Join([NatToString(major), NatToString(minor), NatToString(patch)], '.')
  }

  /** The version string of a triple parses back to that triple. */
  lemma TripleRoundTrip(major: nat, minor: nat, patch: nat, buildDate: string)
    ensures var info := ParseVersionInfo(TripleString(major, minor, patch), buildDate);
      info.major == Num(major) && info.minor == Num(minor) && info.patch == Num(patch)
  {
    var fields := [NatToString(major), NatToString(minor), NatToString(patch)];
    forall k | 0 <= k < 3 ensures '.' !in fields[k] {
      assert AllDigits(fields[k]);
    }
    FirstThreeFields(fields, buildDate);
    DigitsValueOfNatToString(major);
    DigitsValueOfNatToString(minor);
    DigitsValueOfNatToString(patch);
  }

  /**
   * `APP_VERSION` is the canonical string of (1, 0, 0), so `VERSION_INFO`
   * is (1, 0, 0) with the version and build date verbatim, and the display
   * string is `"v1.0.0"`.
   */
  lemma AppVersionTriple()
    ensures TripleString(1, 0, 0) == AppVersion
    ensures AppVersionInfo() == VersionInfo(Num(1), Num(0), Num(0), AppVersion, BuildDate)
    ensures VersionString(AppVersion) == "v1.0.0"
  {
    assert TripleString(1, 0, 0) == AppVersion by {
      assert NatToString(1) == "1" && NatToString(0) == "0";
      assert Join(["1", "0", "0"], '.') == "1" + "." + Join(["0", "0"], '.');
      assert Join(["0", "0"], '.') == "0" + "." + Join(["0"], '.');
    }
    TripleRoundTrip(1, 0, 0, BuildDate);
  }
}
