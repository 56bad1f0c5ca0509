/** The coarse version parser and the gate that decides whether a server is recent enough. */
module Compatibility {
  import opened Common
  import opened FieldCasing

  type Version = (nat, nat, nat)

  // ---- version strings ------------------------------------------------------------------------

  predicate AllDigits(s: string) {
    forall i | 0 <= i < |s| :: IsDigit(s[i])
  }

  predicate NoDigits(s: string) {
    forall i | 0 <= i < |s| :: !IsDigit(s[i])
  }

  predicate DigitFirst(s: string) {
    s != "" && IsDigit(s[0])
  }

  function DigitRun(s: string): (n: nat)
    ensures n <= |s| && AllDigits(s[..n])
    ensures !DigitFirst(s[n..])
  {
    if !DigitFirst(s) then 0
    else
      var n := DigitRun(s[1..]);
      assert s[1..][n..] == s[n + 1..] && s[..n + 1] == [s[0]] + s[1..][..n];
      1 + n
  }

  /** `re.findall(r"\d+", s)`. */
  function FindNumbers(s: string): seq<string>
    decreases |s|
  {
    if s == "" then []
    else if IsDigit(s[0]) then [s[..DigitRun(s)]] + FindNumbers(s[DigitRun(s)..])
    else FindNumbers(s[1..])
  }

  /** `int` of a string of digits. */
  function ToNat(s: string): nat
    requires AllDigits(s)
  {
    if s == "" then 0 else 10 * ToNat(s[..|s| - 1]) + (s[|s| - 1] - '0') as int
  }

  function Parsed(numbers: seq<string>): Option<Version>
    requires forall i | 0 <= i < |numbers| :: AllDigits(numbers[i])
  {
    if |numbers| < 3 then None else Some((ToNat(numbers[0]), ToNat(numbers[1]), ToNat(numbers[2])))
  }

  lemma {:induction false} NumbersAreDigits(s: string)
    ensures forall i | 0 <= i < |FindNumbers(s)| :: AllDigits(FindNumbers(s)[i]) && FindNumbers(s)[i] != ""
    decreases |s|
  {
    hide IsDigit;
    if s != "" {
      if IsDigit(s[0]) {
        NumbersAreDigits(s[DigitRun(s)..]);
      } else {
        NumbersAreDigits(s[1..]);
      }
    }
  }

  /** `_parse_version_components`. */
  function ParseVersion(version: Option<string>): Option<Version> {
    if version.None? || version.value == "" then None
    else
      NumbersAreDigits(version.value);
      Parsed(FindNumbers(version.value))
  }

  lemma {:induction false} SkipsText(text: string, rest: string)
    requires NoDigits(text)
    ensures FindNumbers(text + rest) == FindNumbers(rest)
  {
    if text == "" {
      assert text + rest == rest;
    } else {
      SkipsText(text[1..], rest);
      assert (text + rest)[1..] == text[1..] + rest;
    }
  }

  lemma {:induction false} RunOf(digits: string, rest: string)
    requires AllDigits(digits) && !DigitFirst(rest)
    ensures DigitRun(digits + rest) == |digits|
  {
    if digits == "" {
      assert digits + rest == rest;
    } else {
      RunOf(digits[1..], rest);
      assert (digits + rest)[1..] == digits[1..] + rest;
    }
  }

  lemma TakesRun(digits: string, rest: string)
    requires digits != "" && AllDigits(digits) && !DigitFirst(rest)
    ensures FindNumbers(digits + rest) == [digits] + FindNumbers(rest)
  {
    RunOf(digits, rest);
    assert (digits + rest)[..|digits|] == digits && (digits + rest)[|digits|..] == rest;
  }

  /** The first three runs of digits decide, whatever text stands before, between and after them. */
  lemma ThreeRunsDecide(before: string, a: string, p: string, b: string, q: string, c: string, suffix: string)
    requires NoDigits(before) && NoDigits(p) && NoDigits(q) && p != "" && q != ""
    requires AllDigits(a) && AllDigits(b) && AllDigits(c) && a != "" && b != "" && c != "" && !DigitFirst(suffix)
    ensures ParseVersion(Some(before + (a + (p + (b + (q + (c + suffix))))))) == Some((ToNat(a), ToNat(b), ToNat(c)))
  {
    var fromC := c + suffix;
    var fromB := b + (q + fromC);
    var fromA := a + (p + fromB);
    SkipsText(before, fromA);
    TakesRun(a, p + fromB);
    SkipsText(p, fromB);
    TakesRun(b, q + fromC);
    SkipsText(q, fromC);
    TakesRun(c, suffix);
    assert FindNumbers(before + fromA) == [a] + ([b] + ([c] + FindNumbers(suffix)));
    NumbersAreDigits(before + fromA);
  }

  /** The text up to the first number, and what follows the number. */
  lemma {:induction false} FirstRun(s: string) returns (before: string, rest: string)
    requires FindNumbers(s) != []
    ensures s == before + (FindNumbers(s)[0] + rest) && NoDigits(before) && !DigitFirst(rest)
    ensures FindNumbers(rest) == FindNumbers(s)[1..]
    decreases |s|
  {
    hide IsDigit;
    if IsDigit(s[0]) {
      before, rest := "", s[DigitRun(s)..];
    } else {
      var shorter;
      shorter, rest := FirstRun(s[1..]);
      before := [s[0]] + shorter;
    }
  }

  /** Every version the parser returns comes from three separate runs of digits, the first three there are. */
  lemma {:induction false} EveryVersionHasThreeRuns(version: string)
    returns (before: string, a: string, p: string, b: string, q: string, c: string, suffix: string)
    requires ParseVersion(Some(version)).Some?
    ensures version == before + (a + (p + (b + (q + (c + suffix)))))
    ensures NoDigits(before) && NoDigits(p) && NoDigits(q) && p != "" && q != ""
    ensures AllDigits(a) && AllDigits(b) && AllDigits(c) && a != "" && b != "" && c != "" && !DigitFirst(suffix)
    ensures ParseVersion(Some(version)) == Some((ToNat(a), ToNat(b), ToNat(c)))
  {
    hide FindNumbers, IsDigit, ToNat;
    var numbers := FindNumbers(version);
    assert |numbers| >= 3 by {
      TooFewNumbers(version);
    }
    NumbersAreDigits(version);
    a, b, c := numbers[0], numbers[1], numbers[2];
    var afterA, afterB;
    before, afterA := FirstRun(version);
    p, afterB := FirstRun(afterA);
    q, suffix := FirstRun(afterB);
    assert p == "" ==> afterA == b + afterB && DigitFirst(afterA);
    assert q == "" ==> afterB == c + suffix && DigitFirst(afterB);
  }

  /** Decimal notation. */
  function Decimal(n: nat): (s: string)
    ensures s != ""
  {
    var digit := ('0' as int + n % 10) as char;
    if n < 10 then [digit] else Decimal(n / 10) + [digit]
  }

  lemma {:induction false} DecimalReadsBack(n: nat)
    ensures AllDigits(Decimal(n)) && ToNat(Decimal(n)) == n
  {
    var digit := ('0' as int + n % 10) as char;
    if n < 10 {
      assert Decimal(n)[..0] == "";
    } else {
      DecimalReadsBack(n / 10);
      assert Decimal(n)[..|Decimal(n)| - 1] == Decimal(n / 10);
    }
  }

  /** `a.b.c` followed by anything but another digit parses to `(a, b, c)`. */
  lemma DottedVersionParses(a: nat, b: nat, c: nat, suffix: string)
    requires !DigitFirst(suffix)
    ensures ParseVersion(Some("" + (Decimal(a) + ("." + (Decimal(b) + ("." + (Decimal(c) + suffix)))))))
              == Some((a, b, c))
  {
    hide ParseVersion, Decimal, ToNat;
    DecimalReadsBack(a);
    DecimalReadsBack(b);
    DecimalReadsBack(c);
    ThreeRunsDecide("", Decimal(a), ".", Decimal(b), ".", Decimal(c), suffix);
  }

  /** Fewer than three numbers: no version. */
  lemma TooFewNumbers(version: string)
    ensures ParseVersion(Some(version)).None? <==> |FindNumbers(version)| < 3
  {
    NumbersAreDigits(version);
  }

  // ---- the gate -------------------------------------------------------------------------------

  datatype ControlPlane = ControlPlane(major: int, basePath: string, deprecated: bool)

  datatype Metadata = Metadata(serverVersion: Option<string>, releaseChannel: Option<string>,
                               controlPlane: ControlPlane)

  datatype Baseline = Baseline(minimumVersion: Option<string>, major: int, basePath: string,
                               minimumChannel: Option<string>)

  datatype Reason =
    | NoContract
    | VersionUnreadable
    | BaselineUnreadable
    | VersionBelow
    | MajorDiffers
    | BasePathDiffers
    | ChannelUnknown
    | ChannelBelow

  datatype Check = Check(supported: bool, reasons: seq<Reason>, deprecationWarned: bool)

  const DEFAULT_BASELINE := Baseline(Some("2026.1.0-0"), 1, "/api/v1/admin", Some("preview"))

  const CHANNELS := ["nightly", "dev", "alpha", "preview", "beta", "rc", "stable", "lts"]

  predicate Before(v: Version, w: Version) {
    v.0 < w.0 || (v.0 == w.0 && (v.1 < w.1 || (v.1 == w.1 && v.2 < w.2)))
  }

  function IndexOf(names: seq<string>, name: string): Option<nat> {
    if names == [] then None
    else if names[0] == name then Some(0)
    else match IndexOf(names[1..], name)
      case None => None
      case Some(i) => Some(i + 1)
  }

  /** `get_release_channel_rank`. */
  function ChannelRank(channel: Option<string>): Option<nat> {
    if channel.None? then None else IndexOf(CHANNELS, Lowered(channel.value))
  }

  predicate VersionAccepted(m: Metadata, b: Baseline) {
    var actual, minimum := ParseVersion(m.serverVersion), ParseVersion(b.minimumVersion);
    actual.Some? && minimum.Some? && !Before(actual.value, minimum.value)
  }

  predicate ChannelAccepted(m: Metadata, b: Baseline) {
    var actual, minimum := ChannelRank(m.releaseChannel), ChannelRank(b.minimumChannel);
    actual.Some? && minimum.Some? && actual.value >= minimum.value
  }

  predicate Supported(m: Metadata, b: Baseline) {
    && VersionAccepted(m, b)
    && m.controlPlane.major == b.major
    && m.controlPlane.basePath == b.basePath
    && ChannelAccepted(m, b)
  }

  /** What the version block, the control-plane blocks and the channel block each contribute. */
  function VersionReasons(actual: Option<Version>, minimum: Option<Version>): seq<Reason> {
    if actual.None? then [VersionUnreadable]
    else if minimum.None? then [BaselineUnreadable]
    else if Before(actual.value, minimum.value) then [VersionBelow]
    else []
  }

  function ControlPlaneReasons(c: ControlPlane, b: Baseline): seq<Reason> {
    (if c.major != b.major then [MajorDiffers] else []) + (if c.basePath != b.basePath then [BasePathDiffers] else [])
  }

  function ChannelReasons(actual: Option<nat>, minimum: Option<nat>): seq<Reason> {
    if actual.None? then [ChannelUnknown]
    else if minimum.None? || actual.value < minimum.value then [ChannelBelow]
    else []
  }

  function Reasons(m: Metadata, b: Baseline): seq<Reason> {
    VersionReasons(ParseVersion(m.serverVersion), ParseVersion(b.minimumVersion))
    + ControlPlaneReasons(m.controlPlane, b)
    + ChannelReasons(ChannelRank(m.releaseChannel), ChannelRank(b.minimumChannel))
  }

  /** The ranking of the channels, whatever the case a channel is spelled in. */
  lemma ChannelsRank(channel: string)
    ensures Lowered(channel) == "nightly" <==> ChannelRank(Some(channel)) == Some(0)
    ensures Lowered(channel) == "dev" <==> ChannelRank(Some(channel)) == Some(1)
    ensures Lowered(channel) == "alpha" <==> ChannelRank(Some(channel)) == Some(2)
    ensures Lowered(channel) == "preview" <==> ChannelRank(Some(channel)) == Some(3)
    ensures Lowered(channel) == "beta" <==> ChannelRank(Some(channel)) == Some(4)
    ensures Lowered(channel) == "rc" <==> ChannelRank(Some(channel)) == Some(5)
    ensures Lowered(channel) == "stable" <==> ChannelRank(Some(channel)) == Some(6)
    ensures Lowered(channel) == "lts" <==> ChannelRank(Some(channel)) == Some(7)
    ensures ChannelRank(Some(channel)).Some? <==>
              Lowered(channel) in {"nightly", "dev", "alpha", "preview", "beta", "rc", "stable", "lts"}
  {
    hide IndexOf;
    FirstIndex(CHANNELS, Lowered(channel));
  }

  lemma {:induction false} FirstIndex(names: seq<string>, name: string)
    ensures IndexOf(names, name).None? <==> name !in names
    ensures IndexOf(names, name).Some? ==>
              var i := IndexOf(names, name).value; i < |names| && names[i] == name && name !in names[..i]
  {
    if names != [] && names[0] != name {
      FirstIndex(names[1..], name);
      if IndexOf(names, name).Some? {
        var i := IndexOf(names[1..], name).value;
        assert names[..i + 1] == [names[0]] + names[1..][..i];
      }
    }
  }

  function Chosen(baseline: Option<Baseline>): Baseline {
    if baseline.Some? then baseline.value else DEFAULT_BASELINE
  }

  method EvaluateAdminCompatibility(compatibility: Option<Metadata>, baseline: Option<Baseline>) returns (check: Check)
    ensures baseline.None? ==>
              check.supported == (compatibility.Some? && Supported(compatibility.value, DEFAULT_BASELINE))
    ensures baseline.Some? ==>
              check.supported == (compatibility.Some? && Supported(compatibility.value, baseline.value))
    ensures check.supported <==> check.reasons == []
    ensures compatibility.None? ==> check.reasons == [NoContract] && !check.deprecationWarned
    ensures compatibility.Some? ==> check.deprecationWarned == compatibility.value.controlPlane.deprecated
    ensures compatibility.Some? ==>
      forall reason :: reason in check.reasons <==> Fails(compatibility.value, Chosen(baseline), reason)
  {
    hide ParseVersion, ChannelRank, Before, Fails, Supported;
    var b := Chosen(baseline);
    if compatibility.None? {
      return Check(false, [NoContract], false);
    }
    var m := compatibility.value;
    var reasons := [];
    var actualVersion, minimumVersion := ParseVersion(m.serverVersion), ParseVersion(b.minimumVersion);
    if actualVersion.None? {
      reasons := reasons + [VersionUnreadable];
    } else if minimumVersion.None? {
      reasons := reasons + [BaselineUnreadable];
    } else if Before(actualVersion.value, minimumVersion.value) {
      reasons := reasons + [VersionBelow];
    }
    assert reasons == VersionReasons(actualVersion, minimumVersion);
    if m.controlPlane.major != b.major {
      reasons := reasons + [MajorDiffers];
    }
    if m.controlPlane.basePath != b.basePath {
      reasons := reasons + [BasePathDiffers];
    }
    assert reasons == VersionReasons(actualVersion, minimumVersion) + ControlPlaneReasons(m.controlPlane, b);
    var actualRank, minimumRank := ChannelRank(m.releaseChannel), ChannelRank(b.minimumChannel);
    if actualRank.None? {
      reasons := reasons + [ChannelUnknown];
    } else if minimumRank.None? || actualRank.value < minimumRank.value {
      reasons := reasons + [ChannelBelow];
    }
    assert reasons == Reasons(m, b);
    SupportedIffNoReason(m, b);
    EachReasonIsOwed(m, b);
    check := Check(reasons == [], reasons, m.controlPlane.deprecated);
  }

  lemma SupportedIffNoReason(m: Metadata, b: Baseline)
    ensures Supported(m, b) <==> Reasons(m, b) == []
  {
    hide ParseVersion, ChannelRank, Before;
  }

  lemma EachReasonIsOwed(m: Metadata, b: Baseline)
    ensures forall reason :: reason in Reasons(m, b) <==> Fails(m, b, reason)
  {
    hide ParseVersion, ChannelRank, Before, Fails, VersionReasons, ControlPlaneReasons, ChannelReasons;
    forall reason ensures reason in Reasons(m, b) <==> Fails(m, b, reason) {
      OneReasonIsOwed(m, b, reason);
    }
  }

  lemma OneReasonIsOwed(m: Metadata, b: Baseline, reason: Reason)
    ensures reason in VersionReasons(ParseVersion(m.serverVersion), ParseVersion(b.minimumVersion))
      || reason in ControlPlaneReasons(m.controlPlane, b)
      || reason in ChannelReasons(ChannelRank(m.releaseChannel), ChannelRank(b.minimumChannel))
      <==> Fails(m, b, reason)
  {
    hide ParseVersion, ChannelRank, Before;
  }

  /** When each reason is owed. */
  predicate Fails(m: Metadata, b: Baseline, reason: Reason) {
    var actual, minimum := ParseVersion(m.serverVersion), ParseVersion(b.minimumVersion);
    match reason
    case NoContract => false
    case VersionUnreadable => actual.None?
    case BaselineUnreadable => actual.Some? && minimum.None?
    case VersionBelow => actual.Some? && minimum.Some? && Before(actual.value, minimum.value)
    case MajorDiffers => m.controlPlane.major != b.major
    case BasePathDiffers => m.controlPlane.basePath != b.basePath
    case ChannelUnknown => ChannelRank(m.releaseChannel).None?
    case ChannelBelow => ChannelRank(m.releaseChannel).Some? && !ChannelAccepted(m, b)
  }

  lemma VersionsAreOrdered(u: Version, v: Version, w: Version)
    ensures !Before(u, u)
    ensures Before(u, v) && Before(v, w) ==> Before(u, w)
    ensures Before(u, v) || u == v || Before(v, u)
  {
  }

  /**
   A later version on a higher channel with the same control plane is never refused where the earlier
   one was accepted.
   */
  lemma SupportIsMonotone(m: Metadata, later: Metadata, b: Baseline)
    requires Supported(m, b) && later.controlPlane.major == m.controlPlane.major
              && later.controlPlane.basePath == m.controlPlane.basePath
    requires ParseVersion(later.serverVersion).Some?
    requires !Before(ParseVersion(later.serverVersion).value, ParseVersion(m.serverVersion).value)
    requires ChannelRank(later.releaseChannel).Some?
    requires ChannelRank(later.releaseChannel).value >= ChannelRank(m.releaseChannel).value
    ensures Supported(later, b)
  {
    hide ParseVersion, ChannelRank, Before;
    VersionsAreOrdered(ParseVersion(later.serverVersion).value, ParseVersion(b.minimumVersion).value,
                       ParseVersion(m.serverVersion).value);
    VersionsAreOrdered(ParseVersion(m.serverVersion).value, ParseVersion(b.minimumVersion).value,
                       ParseVersion(later.serverVersion).value);
  }

  lemma OneDigit(c: char)
    requires IsDigit(c)
    ensures AllDigits([c]) && ToNat([c]) == (c - '0') as int
  {
    assert [c][..0] == "";
  }

  lemma OneDigitMore(s: string, c: char)
    requires IsDigit(c) && AllDigits(s)
    ensures AllDigits(s + [c]) && ToNat(s + [c]) == 10 * ToNat(s) + (c - '0') as int
  {
    assert (s + [c])[..|s|] == s;
  }

  lemma YearOfTheFloor()
    ensures AllDigits("2026") && ToNat("2026") == 2026
  {
    hide ToNat;
    assert "20" == "2" + ['0'] && "202" == "20" + ['2'] && "2026" == "202" + ['6'];
    OneDigit('2');
    OneDigitMore("2", '0');
    OneDigitMore("20", '2');
    OneDigitMore("202", '6');
  }

  lemma DefaultFloor()
    ensures ParseVersion(DEFAULT_BASELINE.minimumVersion) == Some((2026, 1, 0))
  {
    hide ParseVersion, ToNat, AllDigits;
    assert "2026.1.0-0" == "" + ("2026" + ("." + ("1" + ("." + ("0" + "-0")))));
    YearOfTheFloor();
    OneDigit('1');
    OneDigit('0');
    ThreeRunsDecide("", "2026", ".", "1", ".", "0", "-0");
  }

  /** A build from before the server's version identity, `1.0.0+<sha>`, is below the floor whatever its hash. */
  lemma EarlyBuildsAreRefused(sha: string, m: Metadata)
    requires m.serverVersion == Some("1.0.0+" + sha)
    ensures !Supported(m, DEFAULT_BASELINE)
  {
    hide ParseVersion, ToNat, AllDigits, ChannelAccepted;
    DefaultFloor();
    EarlyVersion(sha);
  }

  lemma EarlyVersion(sha: string)
    ensures ParseVersion(Some("1.0.0+" + sha)) == Some((1, 0, 0))
  {
    hide ParseVersion, ToNat, AllDigits;
    assert "1.0.0+" + sha == "" + ("1" + ("." + ("0" + ("." + ("0" + ("+" + sha))))));
    OneDigit('1');
    OneDigit('0');
    ThreeRunsDecide("", "1", ".", "0", ".", "0", "+" + sha);
  }
}
