# Java version marker

A model of `JavaVersionImpl`, the value the SonarQube Java analyzer builds
from the `sonar.java.source` setting. It stores one Java `int`: a major Java
version, or the sentinel -1 for "not set".

It is a pure value type. `JavaVersionImpl.JavaVersion` is an immutable
datatype, and every Java method is a function on it:

- **Parse.** `FromString` strips one leading `"1."` and reads the rest with
  `Integer.parseInt`. If the text is malformed, the result is the unset marker
  plus the warning text the Java code would log. `Integer.parseInt` and
  `Integer.toString` are modelled in module `JavaInteger`: `ParseInt` accepts
  an optional `+`/`-`, at least one ASCII digit and a value within 32 bits;
  `ToDecimal` gives the canonical decimal spelling.
- **Gate.** `IsJava6Compatible` through `IsJava16Compatible`. The 6, 7 and 8
  gates go through `NotSetOrAtLeast`, so an unset marker passes them. The 9,
  10, 12, 14, 15 and 16 gates compare the raw value, so the sentinel -1 fails
  them. `Gate` dispatches a threshold to its predicate. `PolicyAdmits` states
  the two policies as a table, and the lemmas relate the two.
- **Render.** `EffectiveJavaVersionAsString` falls back to `MAX_SUPPORTED`
  (17). `ToString` falls back to `"none"`. `CompatibilityMessage` and its
  6/7/8 wrappers return the advisory text. `AdvisedVersion` is their inverse.
  It accepts only the canonical spelling of the number, so reading a
  message back determines the message completely.

The warning logged for malformed text names the accepted formats as "1.X"
and "X" (`JavaVersionImpl.java:58-60`). The code, however, hands the text to
`Integer.parseInt`, which also accepts a sign and leading zeros, and the model
follows the code. So `"+8"`, `"1.08"` and `"-5"` are accepted. `"-5"` gives a
*set* marker holding -5, which fails every gate. `"-1"` and `"1.-1"` give the
sentinel itself: that marker looks unset, but nothing is logged
(`MinusOneLooksUnset`).

The Java int constructor is the datatype constructor `JavaVersion(n)`. Like
the Java one, it takes any 32-bit value unchecked. The no-argument
constructor is `Unset()`.

## Model

| member | source | states |
|---|---|---|
| `JavaInteger.ParseInt` | java-frontend/src/main/java/org/sonar/java/model/JavaVersionImpl.java:55 | a string of an optional sign and at least one digit is accepted iff the number it spells lies in the 32-bit range, and the result is that number. Every other string is rejected. A negative result needs a leading '-'. |
| `JavaInteger.ToDecimal` | java-frontend/src/main/java/org/sonar/java/model/JavaVersionImpl.java:151-153 | the rendering starts with '-' exactly for negative numbers. The rest is all digits, with a leading zero only for 0. |
| `JavaInteger.NatDigits` | java-frontend/src/main/java/org/sonar/java/model/JavaVersionImpl.java:153 | the digits of a natural number are non-empty, all ASCII digits, and have no leading zero unless the number is 0 |
| `JavaInteger.NatDigitsValue` | java-frontend/src/main/java/org/sonar/java/model/JavaVersionImpl.java:153 | the digits `toString` writes denote the number they were made from |
| `JavaInteger.ParseToDecimal` | java-frontend/src/main/java/org/sonar/java/model/JavaVersionImpl.java:55 | `parseInt(toString(n)) == n` for every 32-bit int, negatives included |
| `JavaInteger.ParseAcceptsPlusAndZeros` | java-frontend/src/main/java/org/sonar/java/model/JavaVersionImpl.java:55 | `parseInt` also accepts a leading '+' and a leading zero, with the same value |
| `JavaInteger.NatDigitsOfValue` | java-frontend/src/main/java/org/sonar/java/model/JavaVersionImpl.java:153 | a digit string without a leading zero is exactly how `toString` spells the number it denotes |
| `JavaInteger.ParseIntCanonical` | java-frontend/src/main/java/org/sonar/java/model/JavaVersionImpl.java:55 | whatever spelling `parseInt` accepts, `toString` of the result is that spelling without '+', leading zeros or the sign of zero |
| `JavaInteger.ParseExamples` | java-frontend/src/main/java/org/sonar/java/model/JavaVersionImpl.java:55 | "-05" reads as -5, "+0012" as 12, "0008" as 8 and "-0" as 0. "", "+", "-", "1.8" and "8 " are rejected. |
| `JavaInteger.ParseRange` | java-frontend/src/main/java/org/sonar/java/model/JavaVersionImpl.java:55 | 2^31 is rejected as out of range; -2^31 is accepted |
| `JavaVersionImpl.Unset` | java-frontend/src/main/java/org/sonar/java/model/JavaVersionImpl.java:44-46 | the default constructor gives a marker that is not set and whose int is -1 |
| `JavaVersionImpl.JavaVersion.AsInt` | java-frontend/src/main/java/org/sonar/java/model/JavaVersionImpl.java:133-136 | the raw int is -1 exactly when the marker is not set |
| `JavaVersionImpl.JavaVersion.IsSet` | java-frontend/src/main/java/org/sonar/java/model/JavaVersionImpl.java:138-141 | `isSet` is the negation of `isNotSet` |
| `JavaVersionImpl.JavaVersion.IsNotSet` | java-frontend/src/main/java/org/sonar/java/model/JavaVersionImpl.java:143-146 | exactly one marker is unset: the one holding the sentinel -1 |
| `JavaVersionImpl.SetNotSetComplement` | java-frontend/src/main/java/org/sonar/java/model/JavaVersionImpl.java:138-146 | `isSet` is the negation of `isNotSet`, which holds iff the value is -1, that is iff the marker equals the default one. The default marker is unset. |
| `JavaVersionImpl.StripLegacyPrefix` | java-frontend/src/main/java/org/sonar/java/model/JavaVersionImpl.java:54 | the result is the input, or the input with one "1." removed; the prefix is removed whenever it is there |
| `JavaVersionImpl.FromString` | java-frontend/src/main/java/org/sonar/java/model/JavaVersionImpl.java:52-63 | a warning is produced iff the stripped text does not parse. The warning's result is unset and carries the fixed message naming the input. Otherwise the marker holds the parsed int. |
| `JavaVersionImpl.FromStringRoundTrip` | java-frontend/src/main/java/org/sonar/java/model/JavaVersionImpl.java:52-56 | the decimal text of any int parses, without a warning, to a marker holding that int |
| `JavaVersionImpl.FromStringLegacyRoundTrip` | java-frontend/src/main/java/org/sonar/java/model/JavaVersionImpl.java:54-56 | "1." followed by the decimal text of any int parses to a marker holding that int |
| `JavaVersionImpl.NonNegativeRoundTrip` | java-frontend/src/main/java/org/sonar/java/model/JavaVersionImpl.java:54-56 | for n >= 0, both "n" and "1.n" give a set marker with `asInt() == n` |
| `JavaVersionImpl.PrefixStrippedOnce` | java-frontend/src/main/java/org/sonar/java/model/JavaVersionImpl.java:54-55 | "1.1." followed by anything is malformed: only one prefix is stripped |
| `JavaVersionImpl.InvalidVersionWarning` | java-frontend/src/main/java/org/sonar/java/model/JavaVersionImpl.java:58-60 | the warning quotes the rejected text verbatim at a fixed position |
| `JavaVersionImpl.WarningNamesInput` | java-frontend/src/main/java/org/sonar/java/model/JavaVersionImpl.java:58-60 | two rejected inputs with the same warning are the same input |
| `JavaVersionImpl.MalformedExamples` | java-frontend/src/main/java/org/sonar/java/model/JavaVersionImpl.java:57-61 | "", "1." and "abc" give the unset marker and a warning |
| `JavaVersionImpl.MinusOneLooksUnset` | java-frontend/src/main/java/org/sonar/java/model/JavaVersionImpl.java:44-56 | "-1" and "1.-1" give a marker equal to the unset one, without a warning |
| `JavaVersionImpl.FromStringUnsetExactly` | java-frontend/src/main/java/org/sonar/java/model/JavaVersionImpl.java:52-62 | a parsed marker is unset iff the stripped text is malformed or parses to -1 |
| `JavaVersionImpl.JavaVersion.NotSetOrAtLeast` | java-frontend/src/main/java/org/sonar/java/model/JavaVersionImpl.java:110-112 | an unset marker always passes; a set one passes iff the required version is at most its value |
| `JavaVersionImpl.JavaVersion.IsJava6Compatible` | java-frontend/src/main/java/org/sonar/java/model/JavaVersionImpl.java:65-68 | agrees with the policy table for 6; an unset marker passes |
| `JavaVersionImpl.JavaVersion.IsJava7Compatible` | java-frontend/src/main/java/org/sonar/java/model/JavaVersionImpl.java:70-73 | agrees with the policy table for 7; an unset marker passes |
| `JavaVersionImpl.JavaVersion.IsJava8Compatible` | java-frontend/src/main/java/org/sonar/java/model/JavaVersionImpl.java:75-78 | agrees with the policy table for 8; an unset marker passes |
| `JavaVersionImpl.JavaVersion.IsJava9Compatible` | java-frontend/src/main/java/org/sonar/java/model/JavaVersionImpl.java:80-83 | agrees with the policy table for 9; only a set marker can pass |
| `JavaVersionImpl.JavaVersion.IsJava10Compatible` | java-frontend/src/main/java/org/sonar/java/model/JavaVersionImpl.java:85-88 | agrees with the policy table for 10; only a set marker can pass |
| `JavaVersionImpl.JavaVersion.IsJava12Compatible` | java-frontend/src/main/java/org/sonar/java/model/JavaVersionImpl.java:90-93 | agrees with the policy table for 12; only a set marker can pass |
| `JavaVersionImpl.JavaVersion.IsJava14Compatible` | java-frontend/src/main/java/org/sonar/java/model/JavaVersionImpl.java:95-98 | agrees with the policy table for 14; only a set marker can pass |
| `JavaVersionImpl.JavaVersion.IsJava15Compatible` | java-frontend/src/main/java/org/sonar/java/model/JavaVersionImpl.java:100-103 | agrees with the policy table for 15; only a set marker can pass |
| `JavaVersionImpl.JavaVersion.IsJava16Compatible` | java-frontend/src/main/java/org/sonar/java/model/JavaVersionImpl.java:105-108 | agrees with the policy table for 16; only a set marker can pass |
| `JavaVersionImpl.GateFollowsPolicy` | java-frontend/src/main/java/org/sonar/java/model/JavaVersionImpl.java:65-112 | each of the nine gates agrees with the two-policy table: 6, 7 and 8 mean "unset or at least T"; 9 to 16 mean "at least T" |
| `JavaVersionImpl.UnsetGates` | java-frontend/src/main/java/org/sonar/java/model/JavaVersionImpl.java:65-112 | an unset marker passes the 6, 7 and 8 gates and fails the 9, 10, 12, 14, 15 and 16 gates |
| `JavaVersionImpl.SetGates` | java-frontend/src/main/java/org/sonar/java/model/JavaVersionImpl.java:65-112 | on a set marker every gate is exactly `T <= value` |
| `JavaVersionImpl.GatesMonotone` | java-frontend/src/main/java/org/sonar/java/model/JavaVersionImpl.java:65-112 | passing a gate implies passing every gate with a smaller threshold |
| `JavaVersionImpl.JavaVersion.CompatibilityMessage` | java-frontend/src/main/java/org/sonar/java/model/JavaVersionImpl.java:129-131 | the message is empty iff the marker is set. When unset, the message reads back as exactly `expected`; by `AdvisedVersionDeterminesText`, that makes it the advisory with `expected` in its `toString` spelling. |
| `JavaVersionImpl.Advisory` | java-frontend/src/main/java/org/sonar/java/model/JavaVersionImpl.java:130 | the advisory is non-empty and reads back as exactly the expected version, spelled canonically |
| `JavaVersionImpl.AdvisedVersionDeterminesText` | java-frontend/src/main/java/org/sonar/java/model/JavaVersionImpl.java:130 | a text that reads back as `e` is the advisory for `e`, so the prefix, the canonical decimal of `e` and the suffix fix the message completely |
| `JavaVersionImpl.JavaVersion.Java6CompatibilityMessage` | java-frontend/src/main/java/org/sonar/java/model/JavaVersionImpl.java:114-117 | empty iff set; when unset, exactly " (sonar.java.source not set. Assuming 6 or greater.)" |
| `JavaVersionImpl.JavaVersion.Java7CompatibilityMessage` | java-frontend/src/main/java/org/sonar/java/model/JavaVersionImpl.java:119-122 | empty iff set; when unset, exactly " (sonar.java.source not set. Assuming 7 or greater.)" |
| `JavaVersionImpl.JavaVersion.Java8CompatibilityMessage` | java-frontend/src/main/java/org/sonar/java/model/JavaVersionImpl.java:124-127 | empty iff set; when unset, exactly " (sonar.java.source not set. Assuming 8 or greater.)" |
| `JavaVersionImpl.JavaVersion.EffectiveJavaVersionAsString` | java-frontend/src/main/java/org/sonar/java/model/JavaVersionImpl.java:148-154 | the text parses back to MAX_SUPPORTED (17) when unset, and to the stored value otherwise. It is all digits iff it does not render a negative stored value. |
| `JavaVersionImpl.JavaVersion.ToString` | java-frontend/src/main/java/org/sonar/java/model/JavaVersionImpl.java:156-159 | the text is "none" iff the marker is unset; otherwise it parses back to the stored value |
| `JavaVersionImpl.RenderingExamples` | java-frontend/src/main/java/org/sonar/java/model/JavaVersionImpl.java:148-159 | unset renders "17" and "none"; 11 renders "11"; 8 renders "8" |
| `JavaVersionImpl.RenderingsAreCanonical` | java-frontend/src/main/java/org/sonar/java/model/JavaVersionImpl.java:148-159 | both renderings are the canonical `Integer.toString` text: of 17 when unset for the effective version, of the stored value when set |
| `JavaVersionImpl.RenderingsAgreeWhenSet` | java-frontend/src/main/java/org/sonar/java/model/JavaVersionImpl.java:148-159 | the two renderings agree on a set marker and differ on an unset one |
| `JavaVersionImpl.ParseThenRender` | java-frontend/src/main/java/org/sonar/java/model/JavaVersionImpl.java:156-159 | parsing the decimal text of n and printing the marker gives that text back, or "none" when n is -1 |

## Left out

- The logger (`Loggers.get`, `LOG.warn`): `FromString` returns the warning text it would log as an optional value instead of writing it.
- A null input string and its NullPointerException: a Dafny string is never null.
- The `JavaVersion` interface and the `@Override` annotations: only the concrete behaviour is modelled.
- `JavaInteger.ParseInt`: only the ASCII grammar of `Integer.parseInt` is modelled. Non-ASCII Unicode decimal digits, which the JDK also accepts, are not.
