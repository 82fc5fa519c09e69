/**
 * The diagnostic calls of the connector's `actindo` service: the clock
 * difference report of `get_time`, the revision split of
 * `get_connector_version` and the liveness answer of `ping`.
 * Wall clocks are inputs: the difference between local and UTC time is
 * passed in as seconds.
 */
module Diagnostics {
  import opened Wrappers
  import opened Strings

  // ---- get_time ----

  /** Hours, minutes and seconds of a non-negative second count (`floor` division). */
  datatype Clock = Clock(hours: nat, minutes: nat, seconds: nat)

  function Split(d: nat): (c: Clock)
    ensures c.minutes < 60 && c.seconds < 60
    ensures c.hours * 3600 + c.minutes * 60 + c.seconds == d
  {
    Clock(d / 3600, (d % 3600) / 60, d % 60)
  }

  function Abs(d: int): nat { if d < 0 then -d else d }

  /** `%02d:%02d:%02d` of a clock reading. */
  function Body(c: Clock): (s: string)
    requires c.minutes < 60 && c.seconds < 60
    ensures |s| >= 8 && IsDigit(s[0])
  {
    Pad2(c.hours) + ":" + Pad2(c.minutes) + ":" + Pad2(c.seconds)
  }

  /** The `diff` field: an optional '-' then `%02d:%02d:%02d` of the absolute difference. */
  function FormatDiff(diff: int): (s: string)
    ensures |s| >= 8
    ensures (s[0] == '-') <==> diff < 0
  {
    var body := Body(Split(Abs(diff)));
    if diff < 0 then "-" + body else body
  }

  /** Reads the unsigned `HH:MM:SS` part back into seconds. */
  function ParseBody(u: string): (r: Option<nat>)
  {
    if |u| < 8 || u[|u| - 6] != ':' || u[|u| - 3] != ':' then None
    else
      var h, m, sec := u[..|u| - 6], u[|u| - 5..|u| - 3], u[|u| - 2..];
      if !IsDigits(h) || !IsDigits(m) || !IsDigits(sec) then None
      else Some(ParseDecimal(h) * 3600 + ParseDecimal(m) * 60 + ParseDecimal(sec))
  }

  /** Reads a `diff` field back into a signed second count. */
  function ParseDiff(s: string): (r: Option<int>)
  {
    var neg := |s| > 0 && s[0] == '-';
    match ParseBody(if neg then s[1..] else s)
    case None => None
    case Some(a) => Some(if neg then 0 - a else a as int)
  }

  lemma BodyRoundTrip(c: Clock)
    requires c.minutes < 60 && c.seconds < 60
    ensures ParseBody(Body(c)) == Some(c.hours * 3600 + c.minutes * 60 + c.seconds)
  {
    var hh, mm, ss := Pad2(c.hours), Pad2(c.minutes), Pad2(c.seconds);
    var body := Body(c);
    var n := |body|;
    assert body == hh + ":" + mm + ":" + ss;
    assert body[..n - 6] == hh;
    assert body[n - 5..n - 3] == mm;
    assert body[n - 2..] == ss;
  }

  /** The formatted difference loses nothing: parsing it gives the signed seconds back. */
  lemma DiffRoundTrip(diff: int)
    ensures ParseDiff(FormatDiff(diff)) == Some(diff)
  {
    var c := Split(Abs(diff));
    BodyRoundTrip(c);
    if diff < 0 {
      assert FormatDiff(diff)[1..] == Body(c);
    }
  }

  /** The fields of the `get_time` answer that do not depend on the clocks' text form. */
  datatype TimeReport = TimeReport(diffSeconds: int, diff: string)

  function GetTime(localSeconds: int, utcSeconds: int): (r: TimeReport)
    ensures r.diffSeconds == localSeconds - utcSeconds
    ensures ParseDiff(r.diff) == Some(localSeconds - utcSeconds)
  {
    var d := localSeconds - utcSeconds;
    DiffRoundTrip(d);
    TimeReport(d, FormatDiff(d))
  }

  // ---- get_connector_version ----

  /** `p` is the dot-free piece of `v` that starts at `k` and runs to a dot or the end. */
  ghost predicate PieceAt(v: string, k: nat, p: string) {
    k + |p| <= |v| && v[k..k + |p|] == p && '.' !in p && (k + |p| == |v| || v[k + |p|] == '.')
  }

  /**
   * `list($version, $revision) = explode('.', v)`: the revision is the second
   * dot-separated piece, absent when the version has no dot.
   */
  function Revision(version: string): (r: Option<string>)
    ensures r.None? <==> '.' !in version
    ensures r.Some? ==> exists i :: 0 <= i < |version| && version[i] == '.' && '.' !in version[..i]
                                    && PieceAt(version, i + 1, r.value)
  {
    match IndexOf(version, '.')
    case None => None
    case Some(i) =>
      var rest := version[i + 1..];
      match IndexOf(rest, '.')
      case None =>
        assert PieceAt(version, i + 1, rest);
        Some(rest)
      case Some(k) =>
        assert rest[..k] == version[i + 1..i + 1 + k];
        assert PieceAt(version, i + 1, rest[..k]);
        Some(rest[..k])
  }

  /** Splitting "major.minor" yields the minor part. */
  lemma RevisionOfTwoPart(major: string, minor: string)
    requires '.' !in major && '.' !in minor
    ensures Revision(major + "." + minor) == Some(minor)
  {
    var v := major + "." + minor;
    assert v[|major|] == '.';
    var r := Revision(v);
    var i :| 0 <= i < |v| && v[i] == '.' && '.' !in v[..i] && PieceAt(v, i + 1, r.value);
    var p := r.value;
    var k := |major| + 1;
    assert v[k..] == minor;
  }

  datatype ConnectorVersion = ConnectorVersion(revision: Option<string>, protocolVersion: string, shopType: string, shopVersion: string)

  function GetConnectorVersion(pluginVersion: string, shopVersion: string): (r: ConnectorVersion)
    ensures r.protocolVersion == pluginVersion && r.shopType == "shopware4" && r.shopVersion == shopVersion
    ensures r.revision == Revision(pluginVersion)
  {
    ConnectorVersion(Revision(pluginVersion), pluginVersion, "shopware4", shopVersion)
  }

  // ---- ping ----

  datatype Pong = Pong(ok: bool, pong: string)

  /** `ping` always succeeds and answers "pong", whatever the shop's state. */
  function Ping(): (r: Pong)
    ensures r.ok && r.pong == "pong"
  {
    Pong(true, "pong")
  }
}
