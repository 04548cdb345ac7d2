/**
 * Pagination, configuration validation and time formatting helpers of the
 * execution-retirement tool (app/modules/base.py).
 *
 * All three are total, pure computations; the model states what each of
 * them computes independently of how it is written.
 */
module Base {

  /** The page size get_num_pages uses when its caller gives none. */
  const DefaultDivider: int := 200

  // ---------------------------------------------------------------------
  // get_num_pages
  // ---------------------------------------------------------------------

  /**
   * Number of pages of size `divider` needed for `nExecutions` items:
   * the ceiling of nExecutions / divider.  The source computes
   * int(ceil(n / float(divider))); for the integer counts involved this is
   * the exact ceiling written here (it is `-floor(-n / divider)`, Dafny's `/`
   * being floor division for a positive divisor).
   */
  function GetNumPages(nExecutions: int, divider: int := DefaultDivider): (pages: int)
    requires divider > 0
    ensures pages * divider >= nExecutions
    ensures (pages - 1) * divider < nExecutions
  {
    var q := (-nExecutions) / divider;
    assert q * divider <= -nExecutions < q * divider + divider;
    -q
  }

  /** The page count is the least p such that p pages hold every item. */
  lemma NumPagesIsLeast(nExecutions: int, divider: int, p: int)
    requires divider > 0
    requires p * divider >= nExecutions
    ensures p >= GetNumPages(nExecutions, divider)
  {
    var pages := GetNumPages(nExecutions, divider);
    FactorPositive(p - (pages - 1), divider);
  }

  /** A product with a positive factor is positive only when the other factor is. */
  lemma FactorPositive(a: int, d: int)
    requires d > 0
    requires a * d > 0
    ensures a > 0
  {
  }

  /** A count that is not negative never gives a negative page count, and no items give no pages. */
  lemma NumPagesNonNegative(nExecutions: int, divider: int)
    requires divider > 0
    requires nExecutions >= 0
    ensures GetNumPages(nExecutions, divider) >= 0
    ensures nExecutions == 0 <==> GetNumPages(nExecutions, divider) == 0
  {
    var pages := GetNumPages(nExecutions, divider);
    assert pages * divider >= 0;
    assert pages >= 0;
    if nExecutions == 0 {
      NumPagesIsLeast(0, divider, 0);
    }
  }

  /**
   * Every item index below the count lies on one of the pages 0 .. pages-1:
   * item i is on page i / divider, whose window is
   * [page * divider, page * divider + divider).
   */
  lemma PageOfItem(nExecutions: int, divider: int, i: int)
    requires divider > 0
    requires 0 <= i < nExecutions
    ensures 0 <= i / divider < GetNumPages(nExecutions, divider)
    ensures (i / divider) * divider <= i < (i / divider) * divider + divider
  {
    var page := i / divider;
    var pages := GetNumPages(nExecutions, divider);
    assert (pages - page) * divider > 0 by {
      assert page * divider <= i;
    }
  }

  /** The worked examples: no items need no page; 450 items at the default size need 3 pages. */
  lemma NumPagesExamples()
    ensures GetNumPages(0) == 0
    ensures GetNumPages(450) == 3
    ensures GetNumPages(400) == 2
    ensures GetNumPages(401, 200) == 3
    ensures GetNumPages(5, 1) == 5
  {
  }

  // ---------------------------------------------------------------------
  // validate_configs
  // ---------------------------------------------------------------------

  /** The parsed command-line arguments validate_configs reads. */
  datatype Arguments = Arguments(
    port: int,
    apiVersion: int,
    searchTimeout: int,
    deleteTimeout: int,
    chunkSize: int,
    keepTime: string)

  const PortMessage: string := "Invalid port number."
  const ApiVersionMessage: string := "Minimum API version not met."
  const SearchTimeoutMessage: string := "Invalid searching timeout value."
  const DeleteTimeoutMessage: string := "Invalid deleting timeout value."
  const ChunkSizeMessage: string := "Invalid chunk size value."
  const KeepTimeMessage: string := "Invalid time to keep old records."

  /** The retention units validate_configs accepts, as one-character strings. */
  const TimeUnits: seq<string> := ["h", "d", "w", "m", "y"]

  predicate IsDigit(c: char) {
    '0' <= c <= '9'
  }

  /** str.isdigit: a non-empty string of decimal digits. */
  predicate IsDigitString(s: string) {
    |s| > 0 && forall i :: 0 <= i < |s| ==> IsDigit(s[i])
  }

  /** Python's keep_time[:-1] and keep_time[-1:]: all but the last character, and the last one. */
  function SplitKeepTime(keepTime: string): (parts: (string, string))
    ensures parts.0 + parts.1 == keepTime
    ensures |parts.1| == if keepTime == [] then 0 else 1
  {
    if keepTime == [] then ("", "") else (keepTime[..|keepTime| - 1], keepTime[|keepTime| - 1..])
  }

  /** The retention check as the source writes it, on the two slices. */
  predicate KeepTimeAccepted(keepTime: string) {
    var (number, unit) := SplitKeepTime(keepTime);
    IsDigitString(number) && unit in TimeUnits
  }

  /**
   * The retention format, stated on characters: one or more digits followed
   * by exactly one of h, d, w, m, y.
   */
  predicate IsRetention(keepTime: string) {
    |keepTime| >= 2
    && (forall i :: 0 <= i < |keepTime| - 1 ==> IsDigit(keepTime[i]))
    && keepTime[|keepTime| - 1] in {'h', 'd', 'w', 'm', 'y'}
  }

  /** The slicing check accepts exactly the strings of the retention format. */
  lemma KeepTimeAcceptedIsRetention(keepTime: string)
    ensures KeepTimeAccepted(keepTime) <==> IsRetention(keepTime)
  {
    if keepTime != [] {
      var unit := keepTime[|keepTime| - 1..];
      assert unit == [keepTime[|keepTime| - 1]];
      assert unit in TimeUnits <==> keepTime[|keepTime| - 1] in {'h', 'd', 'w', 'm', 'y'};
    }
  }

  /** A number followed by one unit character is accepted iff the number is all digits and the unit is valid. */
  lemma KeepTimeOfParts(number: string, unit: char)
    ensures KeepTimeAccepted(number + [unit]) <==> IsDigitString(number) && unit in {'h', 'd', 'w', 'm', 'y'}
  {
    var s := number + [unit];
    assert s[..|s| - 1] == number;
    assert s[|s| - 1..] == [unit];
  }

  /** The configuration constraints, each on its own. */
  predicate PortOk(a: Arguments) { 1024 <= a.port <= 65535 }
  predicate ApiVersionOk(a: Arguments) { 14 <= a.apiVersion <= 20 }

  /**
   * validate_configs: (True, "") when every check passes, otherwise False
   * with the message of the FIRST failing check, in the order port, API
   * version, search timeout, delete timeout, chunk size, keep time.
   */
  function ValidateConfigs(a: Arguments): (r: (bool, string))
    ensures r.0 <==> PortOk(a) && ApiVersionOk(a) && a.searchTimeout > 0 && a.deleteTimeout > 0
                     && a.chunkSize > 0 && IsRetention(a.keepTime)
    ensures r.0 <==> r.1 == ""
    ensures r.1 == PortMessage <==> !PortOk(a)
    ensures r.1 == ApiVersionMessage <==> PortOk(a) && !ApiVersionOk(a)
    ensures r.1 == SearchTimeoutMessage <==> PortOk(a) && ApiVersionOk(a) && a.searchTimeout <= 0
    ensures r.1 == DeleteTimeoutMessage <==>
              PortOk(a) && ApiVersionOk(a) && a.searchTimeout > 0 && a.deleteTimeout <= 0
    ensures r.1 == ChunkSizeMessage <==>
              PortOk(a) && ApiVersionOk(a) && a.searchTimeout > 0 && a.deleteTimeout > 0 && a.chunkSize <= 0
    ensures r.1 == KeepTimeMessage <==>
              PortOk(a) && ApiVersionOk(a) && a.searchTimeout > 0 && a.deleteTimeout > 0 && a.chunkSize > 0
              && !IsRetention(a.keepTime)
  {
    KeepTimeAcceptedIsRetention(a.keepTime);
    if !(a.port >= 1024 && a.port <= 65535) then (false, PortMessage)
    else if !(14 <= a.apiVersion < 21) then (false, ApiVersionMessage)
    else if a.searchTimeout <= 0 then (false, SearchTimeoutMessage)
    else if a.deleteTimeout <= 0 then (false, DeleteTimeoutMessage)
    else if a.chunkSize <= 0 then (false, ChunkSizeMessage)
    else if !KeepTimeAccepted(a.keepTime) then (false, KeepTimeMessage)
    else (true, "")
  }

  /** The defaults of the argument parser with one field changed at a time. */
  const Defaults: Arguments := Arguments(4440, 19, 60, 300, 200, "30d")

  /** The edge cases: "30d" passes; "30x", "d", "", API version 21 and port 80 fail with their own message. */
  lemma ValidateConfigsExamples()
    ensures ValidateConfigs(Defaults) == (true, "")
    ensures ValidateConfigs(Defaults.(keepTime := "30x")) == (false, KeepTimeMessage)
    ensures ValidateConfigs(Defaults.(keepTime := "d")) == (false, KeepTimeMessage)
    ensures ValidateConfigs(Defaults.(keepTime := "")) == (false, KeepTimeMessage)
    ensures ValidateConfigs(Defaults.(apiVersion := 21)) == (false, ApiVersionMessage)
    ensures ValidateConfigs(Defaults.(port := 80)) == (false, PortMessage)
    ensures ValidateConfigs(Defaults.(port := 80, apiVersion := 21)) == (false, PortMessage)
  {
  }

  // ---------------------------------------------------------------------
  // get_formatted_time
  // ---------------------------------------------------------------------

  /**
   * A Python timedelta, normalised as Python keeps it: `seconds` is the
   * part of the duration below one day.
   */
  datatype TimeDelta = TimeDelta(days: int, seconds: int, microseconds: int)

  /**
   * get_formatted_time: hours, minutes and seconds of the `seconds` part of
   * a timedelta (the days part is not read).
   */
  function GetFormattedTime(time: TimeDelta): (hms: (int, int, int))
    requires 0 <= time.seconds < 86400
    ensures hms.0 * 3600 + hms.1 * 60 + hms.2 == time.seconds
    ensures 0 <= hms.0 < 24 && 0 <= hms.1 < 60 && 0 <= hms.2 < 60
  {
    (time.seconds / 3600, (time.seconds / 60) % 60, time.seconds % 60)
  }

  /** The split into hours, minutes (< 60) and seconds (< 60) is the only one. */
  lemma FormattedTimeUnique(time: TimeDelta, h: int, m: int, s: int)
    requires 0 <= time.seconds < 86400
    requires h >= 0 && 0 <= m < 60 && 0 <= s < 60
    requires h * 3600 + m * 60 + s == time.seconds
    ensures GetFormattedTime(time) == (h, m, s)
  {
    var (h', m', s') := GetFormattedTime(time);
    var rest := m * 60 + s;
    var rest' := m' * 60 + s';
    assert 0 <= rest < 3600 && 0 <= rest' < 3600;
    assert (h - h') * 3600 == rest' - rest;
    assert h == h';
    assert (m - m') * 60 == s' - s;
  }
}
