/**
 * The Java version marker of the analyzer: a major version number read from
 * the `sonar.java.source` setting, or the "unset" sentinel -1, with the
 * feature gates and renderings derived from it.
 */
module JavaVersionImpl {
  import opened Wrappers
  import opened JavaInteger

  const JAVA_6: Int32 := 6
  const JAVA_7: Int32 := 7
  const JAVA_8: Int32 := 8
  const JAVA_9: Int32 := 9
  const JAVA_10: Int32 := 10
  const JAVA_12: Int32 := 12
  const JAVA_14: Int32 := 14
  const JAVA_15: Int32 := 15
  const JAVA_16: Int32 := 16
  const JAVA_17: Int32 := 17
  /** The newest version the analyzer knows; assumed when none is configured. */
  const MAX_SUPPORTED: Int32 := JAVA_17

  /** The sentinel stored when no version was configured. */
  const NOT_SET: Int32 := -1

  /** An immutable marker; `JavaVersion(n)` is the constructor taking an int. */
  datatype JavaVersion = JavaVersion(javaVersion: Int32) {

    function AsInt(): (r: Int32)
      ensures r == NOT_SET <==> IsNotSet()
    {
      javaVersion
    }

    predicate IsSet()
      ensures IsSet() <==> !IsNotSet()
    {
      javaVersion != NOT_SET
    }

    /** Exactly one marker is unset: the one holding the sentinel. */
    predicate IsNotSet()
      ensures IsNotSet() <==> this == JavaVersion(NOT_SET)
    {
      javaVersion == NOT_SET
    }

    /** The legacy policy: an unset marker satisfies the gate. */
    predicate NotSetOrAtLeast(requiredJavaVersion: Int32)
      ensures IsNotSet() ==> NotSetOrAtLeast(requiredJavaVersion)
      ensures IsSet() ==> (NotSetOrAtLeast(requiredJavaVersion) <==> requiredJavaVersion <= AsInt())
    {
      IsNotSet() || requiredJavaVersion <= javaVersion
    }

    predicate IsJava6Compatible()
      ensures IsJava6Compatible() <==> PolicyAdmits(this, JAVA_6)
      ensures IsNotSet() ==> IsJava6Compatible()
    {
      NotSetOrAtLeast(JAVA_6)
    }

    predicate IsJava7Compatible()
      ensures IsJava7Compatible() <==> PolicyAdmits(this, JAVA_7)
      ensures IsNotSet() ==> IsJava7Compatible()
    {
      NotSetOrAtLeast(JAVA_7)
    }

    predicate IsJava8Compatible()
      ensures IsJava8Compatible() <==> PolicyAdmits(this, JAVA_8)
      ensures IsNotSet() ==> IsJava8Compatible()
    {
      NotSetOrAtLeast(JAVA_8)
    }

    // The modern gates compare the raw value, so the sentinel -1 fails them.

    predicate IsJava9Compatible()
      ensures IsJava9Compatible() <==> PolicyAdmits(this, JAVA_9)
      ensures IsJava9Compatible() ==> IsSet()
    {
      JAVA_9 <= javaVersion
    }

    predicate IsJava10Compatible()
      ensures IsJava10Compatible() <==> PolicyAdmits(this, JAVA_10)
      ensures IsJava10Compatible() ==> IsSet()
    {
      JAVA_10 <= javaVersion
    }

    predicate IsJava12Compatible()
      ensures IsJava12Compatible() <==> PolicyAdmits(this, JAVA_12)
      ensures IsJava12Compatible() ==> IsSet()
    {
      JAVA_12 <= javaVersion
    }

    predicate IsJava14Compatible()
      ensures IsJava14Compatible() <==> PolicyAdmits(this, JAVA_14)
      ensures IsJava14Compatible() ==> IsSet()
    {
      JAVA_14 <= javaVersion
    }

    predicate IsJava15Compatible()
      ensures IsJava15Compatible() <==> PolicyAdmits(this, JAVA_15)
      ensures IsJava15Compatible() ==> IsSet()
    {
      JAVA_15 <= javaVersion
    }

    predicate IsJava16Compatible()
      ensures IsJava16Compatible() <==> PolicyAdmits(this, JAVA_16)
      ensures IsJava16Compatible() ==> IsSet()
    {
      JAVA_16 <= javaVersion
    }

    /**
     * Empty when a version is configured; otherwise an advisory that names
     * the version the analyzer assumes instead.
     */
    function CompatibilityMessage(expected: Int32): (r: string)
      ensures r == "" <==> IsSet()
      ensures AdvisedVersion(r) == if IsNotSet() then Some(expected) else None
    {
      if IsNotSet() then Advisory(expected) else
        ""
    }

    function Java6CompatibilityMessage(): (r: string)
      ensures r == "" <==> IsSet()
      ensures AdvisedVersion(r) == if IsNotSet() then Some(6) else None
      ensures IsNotSet() ==> r == " (sonar.java.source not set. Assuming 6 or greater.)"
    {
      CompatibilityMessage(JAVA_6)
    }

    function Java7CompatibilityMessage(): (r: string)
      ensures r == "" <==> IsSet()
      ensures AdvisedVersion(r) == if IsNotSet() then Some(7) else None
      ensures IsNotSet() ==> r == " (sonar.java.source not set. Assuming 7 or greater.)"
    {
      CompatibilityMessage(JAVA_7)
    }

    function Java8CompatibilityMessage(): (r: string)
      ensures r == "" <==> IsSet()
      ensures AdvisedVersion(r) == if IsNotSet() then Some(8) else None
      ensures IsNotSet() ==> r == " (sonar.java.source not set. Assuming 8 or greater.)"
    {
      CompatibilityMessage(JAVA_8)
    }

    /** The configured version as text, or MAX_SUPPORTED's when unset. */
    function EffectiveJavaVersionAsString(): (r: string)
      ensures ParseInt(r) == Some(if IsNotSet() then MAX_SUPPORTED else javaVersion)
      ensures AllDigits(r) <==> IsNotSet() || javaVersion >= 0
    {
      if IsNotSet() then
        ParseToDecimal(MAX_SUPPORTED);
        ToDecimal(MAX_SUPPORTED)
      else
        ParseToDecimal(javaVersion);
        ToDecimal(javaVersion)
    }

    /** "none" when unset, otherwise the configured version as text. */
    function ToString(): (r: string)
      ensures r == "none" <==> IsNotSet()
      ensures IsSet() ==> ParseInt(r) == Some(javaVersion)
    {
      if IsNotSet() then
        assert ParseInt("none") == None;
        "none"
      else
        ParseToDecimal(javaVersion);
        ToDecimal(javaVersion)
    }
  }

  /** The no-argument constructor: a marker with no configured version. */
  function Unset(): (v: JavaVersion)
    ensures v.IsNotSet() && v.AsInt() == -1
  {
    JavaVersion(NOT_SET)
  }

  const ADVISORY_PREFIX: string := " (sonar.java.source not set. Assuming "
  const ADVISORY_SUFFIX: string := " or greater.)"

  /**
   * Reads back the version an advisory names, spelled as toString spells it;
   * `None` for any other text.
   */
  function AdvisedVersion(msg: string): Option<Int32> {
    if |msg| >= |ADVISORY_PREFIX| + |ADVISORY_SUFFIX|
       && msg[..|ADVISORY_PREFIX|] == ADVISORY_PREFIX
       && msg[|msg| - |ADVISORY_SUFFIX|..] == ADVISORY_SUFFIX
    then
      var middle := msg[|ADVISORY_PREFIX|..|msg| - |ADVISORY_SUFFIX|];
      match ParseInt(middle)
      case Some(e) => if ToDecimal(e) == middle then Some(e) else None
      case None => None
    else None
  }

  /** Only one text reads back as `e`: the advisory for `e`. */
  lemma AdvisedVersionDeterminesText(msg: string, e: Int32)
    requires AdvisedVersion(msg) == Some(e)
    ensures msg == Advisory(e)
  {
    var middle := msg[|ADVISORY_PREFIX|..|msg| - |ADVISORY_SUFFIX|];
    assert middle == ToDecimal(e);
    assert msg == msg[..|ADVISORY_PREFIX|] + middle + msg[|msg| - |ADVISORY_SUFFIX|..];
  }

  /** The advisory shown when no version is configured and `expected` is assumed. */
  function Advisory(expected: Int32): (msg: string)
    ensures msg != ""
    ensures AdvisedVersion(msg) == Some(expected)
  {
    var d := ToDecimal(expected);
    var msg := ADVISORY_PREFIX + d + ADVISORY_SUFFIX;
    assert msg[..|ADVISORY_PREFIX|] == ADVISORY_PREFIX;
    assert msg[|msg| - |ADVISORY_SUFFIX|..] == ADVISORY_SUFFIX;
    assert msg[|ADVISORY_PREFIX|..|msg| - |ADVISORY_SUFFIX|] == d;
    ParseToDecimal(expected);
    msg
  }

  const WARNING_HEAD: string := "Invalid java version (got \""
  const WARNING_TAIL: string :=
    "\"). The version will be ignored. Accepted formats are \"1.X\", or simply \"X\" "
    + "(for instance: \"1.5\" or \"5\", \"1.6\" or \"6\", \"1.7\" or \"7\", etc.)"

  /** What a failed parse writes to the log: the rejected text, quoted verbatim. */
  function InvalidVersionWarning(s: string): (msg: string)
    ensures |msg| == |WARNING_HEAD| + |s| + |WARNING_TAIL|
    ensures msg[|WARNING_HEAD|..|WARNING_HEAD| + |s|] == s
  {
    WARNING_HEAD + s + WARNING_TAIL
  }

  /** Different rejected inputs give different warnings. */
  lemma WarningNamesInput(s: string, t: string)
    requires InvalidVersionWarning(s) == InvalidVersionWarning(t)
    ensures s == t
  {
  }

  /** The legacy "1.X" spelling loses its "1." prefix, once. */
  function StripLegacyPrefix(s: string): (r: string)
    ensures r == s || s == "1." + r
    ensures |s| >= 2 && s[0] == '1' && s[1] == '.' ==> |r| == |s| - 2
  {
    if |s| >= 2 && s[..2] == "1." then s[2..] else s
  }

  /** A parsed marker, with the warning logged when the text was not a number. */
  datatype Parsed = Parsed(version: JavaVersion, warning: Option<string>)

  /** `fromString`: never fails; malformed text gives an unset marker and a warning. */
  function FromString(s: string): (r: Parsed)
    ensures r.warning.Some? <==> ParseInt(StripLegacyPrefix(s)).None?
    ensures r.warning.Some? ==> r.version.IsNotSet() && r.warning.value == InvalidVersionWarning(s)
    ensures r.warning.None? ==> ParseInt(StripLegacyPrefix(s)) == Some(r.version.AsInt())
  {
    match ParseInt(StripLegacyPrefix(s))
    case Some(versionAsInt) => Parsed(JavaVersion(versionAsInt), None)
    case None => Parsed(Unset(), Some(InvalidVersionWarning(s)))
  }

  // Properties of parsing.

  /** Every Java int survives a render-and-parse round trip, the sentinel included. */
  lemma FromStringRoundTrip(n: Int32)
    ensures FromString(ToDecimal(n)) == Parsed(JavaVersion(n), None)
  {
    var s := ToDecimal(n);
    assert StripLegacyPrefix(s) == s by {
      if |s| >= 2 {
        assert s[1] != '.';
        assert s[..2] != "1.";
      }
    }
    ParseToDecimal(n);
  }

  /** The legacy "1.X" spelling reads as X. */
  lemma FromStringLegacyRoundTrip(n: Int32)
    ensures FromString("1." + ToDecimal(n)) == Parsed(JavaVersion(n), None)
  {
    var s := "1." + ToDecimal(n);
    assert s[..2] == "1." && s[2..] == ToDecimal(n);
    ParseToDecimal(n);
  }

  /** For a non-negative version both spellings give a set marker holding it. */
  lemma NonNegativeRoundTrip(n: Int32)
    requires n >= 0
    ensures FromString(ToDecimal(n)).version.AsInt() == n
    ensures FromString("1." + ToDecimal(n)).version.AsInt() == n
    ensures FromString(ToDecimal(n)).version.IsSet()
    ensures FromString("1." + ToDecimal(n)).version.IsSet()
  {
    FromStringRoundTrip(n);
    FromStringLegacyRoundTrip(n);
  }

  /** Only one "1." is stripped: "1.1.X" is malformed whatever X is. */
  lemma PrefixStrippedOnce(tail: string)
    ensures FromString("1.1." + tail).version.IsNotSet()
    ensures FromString("1.1." + tail).warning.Some?
  {
    var s := "1.1." + tail;
    assert s[..2] == "1.";
    var rest := StripLegacyPrefix(s);
    assert rest == "1." + tail && rest[1] == '.';
    assert rest[1..][0] == '.';
    assert !AllDigits(rest[1..]);
  }

  /** Empty text, a bare "1." and a word are malformed. */
  lemma MalformedExamples()
    ensures FromString("") == Parsed(Unset(), Some(InvalidVersionWarning("")))
    ensures FromString("1.") == Parsed(Unset(), Some(InvalidVersionWarning("1.")))
    ensures FromString("abc") == Parsed(Unset(), Some(InvalidVersionWarning("abc")))
  {
  }

  /**
   * "-1" and "1.-1" parse to the sentinel itself: the result cannot be told
   * apart from an unset marker, although nothing is logged.
   */
  lemma MinusOneLooksUnset()
    ensures FromString("-1") == Parsed(Unset(), None)
    ensures FromString("1.-1") == Parsed(Unset(), None)
  {
    FromStringRoundTrip(-1);
    FromStringLegacyRoundTrip(-1);
    assert ToDecimal(-1) == "-1" by { assert NatDigits(1) == "1"; }
  }

  /** A parsed marker is unset exactly when the text was malformed or spelled -1. */
  lemma FromStringUnsetExactly(s: string)
    ensures FromString(s).version.IsNotSet()
            <==> ParseInt(StripLegacyPrefix(s)) in {None, Some(NOT_SET)}
  {
  }

  /** isSet and isNotSet are complementary; the default constructor is unset. */
  lemma SetNotSetComplement(v: JavaVersion)
    ensures v.IsSet() <==> !v.IsNotSet()
    ensures v.IsNotSet() <==> v.AsInt() == -1
    ensures v.IsNotSet() <==> v == Unset()
    ensures Unset().IsNotSet() && !Unset().IsSet()
  {
  }

  // Properties of the gates.

  const LEGACY_THRESHOLDS: set<Int32> := {JAVA_6, JAVA_7, JAVA_8}
  const MODERN_THRESHOLDS: set<Int32> := {JAVA_9, JAVA_10, JAVA_12, JAVA_14, JAVA_15, JAVA_16}

  /** The gate the marker exposes for threshold `t`. */
  function Gate(v: JavaVersion, t: Int32): bool
    requires t in LEGACY_THRESHOLDS + MODERN_THRESHOLDS
  {
    if t == JAVA_6 then v.IsJava6Compatible()
    else if t == JAVA_7 then v.IsJava7Compatible()
    else if t == JAVA_8 then v.IsJava8Compatible()
    else if t == JAVA_9 then v.IsJava9Compatible()
    else if t == JAVA_10 then v.IsJava10Compatible()
    else if t == JAVA_12 then v.IsJava12Compatible()
    else if t == JAVA_14 then v.IsJava14Compatible()
    else if t == JAVA_15 then v.IsJava15Compatible()
    else v.IsJava16Compatible()
  }

  /** The two policies as a table: only legacy thresholds admit an unset marker. */
  ghost predicate PolicyAdmits(v: JavaVersion, t: Int32) {
    if t in LEGACY_THRESHOLDS then v.IsNotSet() || t <= v.AsInt() else t <= v.AsInt()
  }

  lemma GateFollowsPolicy(v: JavaVersion, t: Int32)
    requires t in LEGACY_THRESHOLDS + MODERN_THRESHOLDS
    ensures Gate(v, t) <==> PolicyAdmits(v, t)
  {
  }

  /** An unset marker passes every legacy gate and no modern one. */
  lemma UnsetGates(v: JavaVersion)
    requires v.IsNotSet()
    ensures v.IsJava6Compatible() && v.IsJava7Compatible() && v.IsJava8Compatible()
    ensures !v.IsJava9Compatible() && !v.IsJava10Compatible() && !v.IsJava12Compatible()
    ensures !v.IsJava14Compatible() && !v.IsJava15Compatible() && !v.IsJava16Compatible()
  {
  }

  /** On a set marker every gate is the plain comparison with the threshold. */
  lemma SetGates(v: JavaVersion, t: Int32)
    requires t in LEGACY_THRESHOLDS + MODERN_THRESHOLDS
    requires v.IsSet()
    ensures Gate(v, t) <==> t <= v.AsInt()
  {
  }

  /** Passing a gate means passing every gate with a smaller threshold. */
  lemma GatesMonotone(v: JavaVersion, lo: Int32, hi: Int32)
    requires lo in LEGACY_THRESHOLDS + MODERN_THRESHOLDS
    requires hi in LEGACY_THRESHOLDS + MODERN_THRESHOLDS
    requires lo <= hi
    ensures Gate(v, hi) ==> Gate(v, lo)
  {
  }

  // Properties of the renderings.

  lemma RenderingExamples()
    ensures Unset().EffectiveJavaVersionAsString() == "17"
    ensures JavaVersion(11).EffectiveJavaVersionAsString() == "11"
    ensures Unset().ToString() == "none"
    ensures JavaVersion(8).ToString() == "8"
  {
  }

  /** The two renderings agree on a set marker and differ on an unset one. */
  /** Both renderings are the canonical decimal toString gives. */
  lemma RenderingsAreCanonical(v: JavaVersion)
    ensures v.EffectiveJavaVersionAsString()
            == ToDecimal(if v.IsNotSet() then MAX_SUPPORTED else v.AsInt())
    ensures v.IsSet() ==> v.ToString() == ToDecimal(v.AsInt())
  {
  }

  lemma RenderingsAgreeWhenSet(v: JavaVersion)
    ensures v.IsSet() ==> v.ToString() == v.EffectiveJavaVersionAsString()
    ensures v.IsNotSet() ==> v.ToString() != v.EffectiveJavaVersionAsString()
  {
  }

  /** Rendering a parsed number gives back its canonical spelling, or "none" for -1. */
  lemma ParseThenRender(n: Int32)
    ensures FromString(ToDecimal(n)).version.ToString()
            == if n == NOT_SET then "none" else ToDecimal(n)
  {
    FromStringRoundTrip(n);
  }
}
