/**
 * Pure time-tracking logic of src/lib/domain.ts.
 *
 * A `Date` is an integer number of milliseconds. Local days are fixed blocks
 * of 86 400 000 ms, so `setHours(0, 0, 0, 0)` is rounding down to a multiple of
 * `DAY_MS` and `setDate(getDate() - n)` is subtracting `n * DAY_MS`. The clock
 * (`Date.now()`, `new Date()`) and `Math.random()` are parameters.
 */
module Domain {
  import opened Wrappers
  import opened JsString
  import Sorting

  const SECOND_MS: int := 1000
  const MINUTE_MS: int := 60 * SECOND_MS
  const HOUR_MS: int := 60 * MINUTE_MS
  const DAY_MS: int := 24 * HOUR_MS

  /** `Math.round(a / b)` for `b > 0`: the nearest integer, halves rounded up. */
  function RoundDiv(a: int, b: int): (r: int)
    requires b > 0
    ensures 2 * b * r <= 2 * a + b < 2 * b * (r + 1)
  {
    (2 * a + b) / (2 * b)
  }

  /** `Math.floor(a / b)` for `b > 0`. */
  function FloorDiv(a: int, b: int): (r: int)
    requires b > 0
    ensures b * r <= a < b * (r + 1)
  {
    a / b
  }

  /** JavaScript's `a % b` for `b > 0`: the remainder of truncating division, with the sign of `a`. */
  function JsRem(a: int, b: int): (r: int)
    requires b > 0
    ensures a >= 0 ==> r == a % b
    ensures a >= 0 ==> 0 <= r < b
    ensures a < 0 ==> -b < r <= 0
  {
    if a >= 0 then a % b else -((-a) % b)
  }

  /** JavaScript's remainder is odd in its dividend, unlike the floor remainder `%` of the model. */
  lemma {:induction false} JsRemOdd(a: int, b: int)
    requires b > 0
    ensures JsRem(-a, b) == -JsRem(a, b)
  {
  }

  // ---------------------------------------------------------------------------
  // Durations
  // ---------------------------------------------------------------------------

  /** calculateDuration: whole minutes from start to finish, rounded, never negative. */
  function CalculateDuration(startedAt: int, finishedAt: int): (minutes: int)
    ensures minutes >= 0
    ensures finishedAt < startedAt ==> minutes == 0
    ensures startedAt <= finishedAt ==>
      2 * MINUTE_MS * minutes <= 2 * (finishedAt - startedAt) + MINUTE_MS < 2 * MINUTE_MS * (minutes + 1)
  {
    var r := RoundDiv(finishedAt - startedAt, MINUTE_MS);
    if r > 0 then r else 0
  }

  /** calculateElapsed: milliseconds from start to `now`, never negative. */
  function CalculateElapsed(startedAt: int, now: int): (ms: int)
    ensures ms >= 0
    ensures ms == 0 || ms == now - startedAt
    ensures startedAt <= now ==> ms == now - startedAt
  {
    if now - startedAt > 0 then now - startedAt else 0
  }

  /** validateTimeRange: the finish lies strictly after the start. */
  predicate ValidateTimeRange(startedAt: int, finishedAt: int) {
    finishedAt > startedAt
  }

  /** isRunning: the log has no finish time (`null` or `undefined`). */
  predicate IsRunning(finishedAt: Option<int>) {
    finishedAt.None?
  }

  // ---------------------------------------------------------------------------
  // Formatting durations
  // ---------------------------------------------------------------------------

  /** formatDuration: "< 1m", "{m}m", "{h}h" or "{h}h {m}m". */
  function FormatDuration(minutes: int): string {
    if minutes < 1 then "< 1m"
    else
      var hours := minutes / 60;
      var mins := minutes % 60;
      if hours == 0 then NatToString(mins) + "m"
      else if mins == 0 then NatToString(hours) + "h"
      else NatToString(hours) + "h " + NatToString(mins) + "m"
  }

  /** One word of a duration label: digits followed by `m` (minutes) or `h` (hours). */
  function ParseUnit(w: string): Option<int> {
    if |w| >= 2 && AllDigits(w[..|w| - 1]) then
      var n := ParseNat(w[..|w| - 1]);
      if w[|w| - 1] == 'm' then Some(n) else if w[|w| - 1] == 'h' then Some(60 * n) else None
    else None
  }

  /** Reads back a label produced by FormatDuration for at least one minute. */
  function ParseDurationLabel(text: string): Option<int> {
    var words := Split(text, ' ');
    if |words| == 1 then ParseUnit(words[0])
    else if |words| == 2 then ParseHoursMinutes(words[0], words[1])
    else None
  }

  /** The two words of an "{h}h {m}m" label. */
  function ParseHoursMinutes(h: string, m: string): Option<int> {
    if h != [] && m != [] && h[|h| - 1] == 'h' && m[|m| - 1] == 'm' then
      match (ParseUnit(h), ParseUnit(m))
      case (Some(x), Some(y)) => Some(x + y)
      case _ => None
    else None
  }

  lemma {:induction false} ParseUnitDigits(n: nat, unit: char)
    requires unit == 'm' || unit == 'h'
    ensures var w := NatToString(n) + [unit];
      ' ' !in w && w[|w| - 1] == unit && ParseUnit(w) == Some(if unit == 'm' then n else 60 * n)
  {
    var w := NatToString(n) + [unit];
    assert w[..|w| - 1] == NatToString(n);
    ParseNatToString(n);
  }

  lemma {:induction false} DurationMinutesOnly(mins: nat)
    requires mins >= 1
    ensures ParseDurationLabel(NatToString(mins) + "m") == Some(mins)
  {
    ParseUnitDigits(mins, 'm');
    SplitNoSeparator(NatToString(mins) + "m", ' ');
  }

  lemma {:induction false} DurationHoursOnly(hours: nat)
    ensures ParseDurationLabel(NatToString(hours) + "h") == Some(60 * hours)
  {
    ParseUnitDigits(hours, 'h');
    SplitNoSeparator(NatToString(hours) + "h", ' ');
  }

  lemma {:induction false} DurationHoursMinutes(hours: nat, mins: nat)
    ensures ParseDurationLabel(NatToString(hours) + "h " + NatToString(mins) + "m") == Some(60 * hours + mins)
  {
    ParseUnitDigits(hours, 'h');
    ParseUnitDigits(mins, 'm');
    TwoWordLabel(NatToString(hours), NatToString(mins), 60 * hours, mins);
  }

  /** "{x}h {y}m" reads back as the sum of its two words' values. */
  lemma {:induction false} TwoWordLabel(x: string, y: string, hv: int, mv: int)
    requires ' ' !in x + "h" && ' ' !in y + "m"
    requires ParseUnit(x + "h") == Some(hv) && ParseUnit(y + "m") == Some(mv)
    ensures ParseDurationLabel(x + "h " + y + "m") == Some(hv + mv)
  {
    var a := x + "h";
    var b := y + "m";
    assert x + "h " + y + "m" == a + [' '] + b;
    LabelWords(a, b);
    HoursMinutesPair(a, b, hv, mv);
  }

  lemma {:induction false} HoursMinutesPair(h: string, m: string, x: int, y: int)
    requires |h| >= 1 && |m| >= 1 && h[|h| - 1] == 'h' && m[|m| - 1] == 'm'
    requires ParseUnit(h) == Some(x) && ParseUnit(m) == Some(y)
    ensures ParseHoursMinutes(h, m) == Some(x + y)
  {
  }

  /** A label of two space-free words splits into those two words. */
  lemma {:induction false} LabelWords(a: string, b: string)
    requires ' ' !in a && ' ' !in b
    ensures Split(a + [' '] + b, ' ') == [a, b]
  {
    SplitAt(a, ' ', b);
    SplitNoSeparator(b, ' ');
  }

  /** Every label for a positive number of minutes reads back as that number; "< 1m" covers the rest. */
  lemma {:induction false} FormatDurationRoundTrip(minutes: int)
    ensures minutes >= 1 ==> ParseDurationLabel(FormatDuration(minutes)) == Some(minutes)
    ensures minutes < 1 <==> FormatDuration(minutes) == "< 1m"
  {
    if minutes >= 1 {
      var hours := minutes / 60;
      var mins := minutes % 60;
      if hours == 0 {
        DurationMinutesOnly(mins);
      } else if mins == 0 {
        DurationHoursOnly(hours);
      } else {
        DurationHoursMinutes(hours, mins);
      }
      assert FormatDuration(minutes)[0] != '<';
    }
  }

  /** formatElapsed: a millisecond count as whole hours, minutes and seconds (floor, then JavaScript `%`). */
  function FormatElapsed(ms: int): (hms: (int, int, int))
    ensures ms >= 0 ==>
      hms.0 >= 0 && 0 <= hms.1 < 60 && 0 <= hms.2 < 60
      && hms.0 * 3600 + hms.1 * 60 + hms.2 == ms / SECOND_MS
  {
    var totalSeconds := FloorDiv(ms, SECOND_MS);
    var hours := FloorDiv(totalSeconds, 3600);
    var minutes := FloorDiv(JsRem(totalSeconds, 3600), 60);
    var seconds := JsRem(totalSeconds, 60);
    if ms >= 0 then
      SplitSeconds(totalSeconds);
      (hours, minutes, seconds)
    else (hours, minutes, seconds)
  }

  /** Floor division and remainder are determined by any exact decomposition. */
  lemma {:induction false} DivModUnique(a: int, b: int, q: int, r: int)
    requires b > 0 && a == q * b + r && 0 <= r < b
    ensures a / b == q && a % b == r
  {
    var k := a / b - q;
    assert k * b == r - a % b;
  }

  /** A non-negative count of seconds is hours, minutes under 60 and seconds under 60. */
  lemma {:induction false} SplitSeconds(ts: int)
    requires ts >= 0
    ensures ts == (ts / 3600) * 3600 + ((ts % 3600) / 60) * 60 + ts % 60
    ensures 0 <= (ts % 3600) / 60 < 60
  {
    var h := ts / 3600;
    var r := ts % 3600;
    var m := r / 60;
    DivModUnique(ts, 60, h * 60 + m, r % 60);
  }

  /** formatTimeString: "HH:MM:SS", each field `String(n).padStart(2, "0")`. */
  function FormatTimeString(hours: int, minutes: int, seconds: int): string {
    PadStart2(IntToString(hours)) + ":" + PadStart2(IntToString(minutes)) + ":" + PadStart2(IntToString(seconds))
  }

  /** Reads "H:MM:SS" back into its three numbers. */
  function ParseTimeString(s: string): Option<(nat, nat, nat)> {
    var parts := Split(s, ':');
    if |parts| == 3 && AllDigits(parts[0]) && AllDigits(parts[1]) && AllDigits(parts[2]) then
      Some((ParseNat(parts[0]), ParseNat(parts[1]), ParseNat(parts[2])))
    else None
  }

  /** Two colons between three colon-free pieces split back into those pieces. */
  lemma {:induction false} SplitThree(x: string, y: string, z: string)
    requires ':' !in x && ':' !in y && ':' !in z
    ensures Split(x + ":" + y + ":" + z, ':') == [x, y, z]
  {
    assert x + ":" + y + ":" + z == x + [':'] + (y + [':'] + z);
    SplitAt(x, ':', y + [':'] + z);
    SplitAt(y, ':', z);
    SplitNoSeparator(z, ':');
  }

  /** For non-negative fields the clock string reads back as those fields; minutes and seconds take exactly two digits, hours at least two. */
  lemma {:induction false} FormatTimeStringRoundTrip(hours: nat, minutes: nat, seconds: nat)
    ensures ParseTimeString(FormatTimeString(hours, minutes, seconds)) == Some((hours, minutes, seconds))
    ensures var parts := Split(FormatTimeString(hours, minutes, seconds), ':');
      |parts| == 3 && |parts[0]| >= 2
      && (minutes < 60 ==> |parts[1]| == 2) && (seconds < 60 ==> |parts[2]| == 2)
  {
    var h := PadStart2(NatToString(hours));
    var m := PadStart2(NatToString(minutes));
    var s := PadStart2(NatToString(seconds));
    PadStart2Nat(hours);
    PadStart2Nat(minutes);
    PadStart2Nat(seconds);
    if minutes >= 10 && minutes < 60 { assert |NatToString(minutes)| == 2; }
    if seconds >= 10 && seconds < 60 { assert |NatToString(seconds)| == 2; }
    SplitThree(h, m, s);
  }

  // ---------------------------------------------------------------------------
  // Days
  // ---------------------------------------------------------------------------

  /** startOfDay: midnight of the local day holding `t`. */
  function StartOfDay(t: int): (d: int)
    ensures d <= t < d + DAY_MS
    ensures d % DAY_MS == 0
  {
    t - t % DAY_MS
  }

  /** The start of a day is the only multiple of DAY_MS in the day's block. */
  lemma {:induction false} StartOfDayUnique(t: int, d: int)
    requires d % DAY_MS == 0 && d <= t < d + DAY_MS
    ensures StartOfDay(t) == d
  {
    var s := StartOfDay(t);
    assert (s - d) % DAY_MS == 0;
    assert -DAY_MS < s - d < DAY_MS;
  }

  /** startOfDay is idempotent and lies within one day at or before its input. */
  lemma {:induction false} StartOfDayProperties(t: int)
    ensures StartOfDay(StartOfDay(t)) == StartOfDay(t)
    ensures StartOfDay(t) <= t && t - StartOfDay(t) < DAY_MS
  {
    StartOfDayUnique(StartOfDay(t), StartOfDay(t));
  }

  /** Shifting by whole days shifts the start of day by the same amount. */
  lemma {:induction false} StartOfDayShift(t: int, n: int)
    ensures StartOfDay(t + n * DAY_MS) == StartOfDay(t) + n * DAY_MS
  {
    var q := StartOfDay(t) / DAY_MS;
    var d := StartOfDay(t) + n * DAY_MS;
    assert StartOfDay(t) == q * DAY_MS;
    assert d == (q + n) * DAY_MS;
    StartOfDayUnique(t + n * DAY_MS, d);
  }

  /** endOfDay: 23:59:59.999 of the day holding `t`. */
  function EndOfDay(t: int): (e: int)
    ensures e == StartOfDay(t) + DAY_MS - 1
    ensures StartOfDay(e) == StartOfDay(t)
  {
    var e := StartOfDay(t) + 23 * HOUR_MS + 59 * MINUTE_MS + 59 * SECOND_MS + 999;
    StartOfDayUnique(e, StartOfDay(t));
    e
  }

  /** daysAgo: the start of the day `days` days before `now`. */
  function DaysAgo(days: int, now: int): (d: int)
    ensures d == StartOfDay(now - days * DAY_MS)
    ensures d == StartOfDay(now) - days * DAY_MS
  {
    StartOfDayShift(now, -days);
    StartOfDay(now - days * DAY_MS)
  }

  /** `d.setHours(h, m, 0, 0)`: the same day at h:m, seconds and milliseconds cleared. */
  function SetHoursMinutes(t: int, hours: int, minutes: int): int {
    StartOfDay(t) + hours * HOUR_MS + minutes * MINUTE_MS
  }

  /** With a real clock time the result stays on the same day. */
  lemma SetHoursMinutesSameDay(t: int, hours: int, minutes: int)
    requires 0 <= hours < 24 && 0 <= minutes < 60
    ensures StartOfDay(SetHoursMinutes(t, hours, minutes)) == StartOfDay(t)
    ensures SetHoursMinutes(t, hours, minutes) % MINUTE_MS == 0
  {
    StartOfDayUnique(SetHoursMinutes(t, hours, minutes), StartOfDay(t));
    assert SetHoursMinutes(t, hours, minutes)
      == (StartOfDay(t) / MINUTE_MS + hours * 60 + minutes) * MINUTE_MS;
  }

  // ---------------------------------------------------------------------------
  // Relative time and progress
  // ---------------------------------------------------------------------------

  /** "1 {unit} ago" or "{n} {unit}s ago". */
  function AgoLabel(n: nat, unit: string): string {
    if n == 1 then "1 " + unit + " ago" else NatToString(n) + " " + unit + "s ago"
  }

  /** formatRelativeTime for the instant `date` seen at `now`. */
  function FormatRelativeTime(date: int, now: int): string {
    var diff := now - date;
    var days := FloorDiv(diff, DAY_MS);
    var hours := FloorDiv(diff, HOUR_MS);
    var minutes := FloorDiv(diff, MINUTE_MS);
    if days > 0 then
      (if days == 1 then "Yesterday" else NatToString(days) + " days ago")
    else if hours > 0 then
      (if hours == 1 then "1 hour ago" else NatToString(hours) + " hours ago")
    else if minutes > 0 then
      (if minutes == 1 then "1 minute ago" else NatToString(minutes) + " minutes ago")
    else "Just now"
  }

  /** From one full day on, the label counts days ("Yesterday" for exactly one). */
  lemma {:induction false} FormatRelativeTimeDays(date: int, now: int)
    requires now - date >= DAY_MS
    ensures FormatRelativeTime(date, now)
      == (if (now - date) / DAY_MS == 1 then "Yesterday" else NatToString((now - date) / DAY_MS) + " days ago")
  {
  }

  /** Between one hour and one day, the label counts whole hours, from 1 to 23. */
  lemma {:induction false} FormatRelativeTimeHours(date: int, now: int)
    requires HOUR_MS <= now - date < DAY_MS
    ensures FormatRelativeTime(date, now) == AgoLabel((now - date) / HOUR_MS, "hour")
    ensures 1 <= (now - date) / HOUR_MS < 24
  {
    var h := (now - date) / HOUR_MS;
    assert FloorDiv(now - date, DAY_MS) == 0;
    assert FloorDiv(now - date, HOUR_MS) == h;
    AgoLabelUnit(h, "hour", "1 hour ago", " hours ago");
  }

  /** Between one minute and one hour, the label counts whole minutes, from 1 to 59. */
  lemma {:induction false} FormatRelativeTimeMinutes(date: int, now: int)
    requires MINUTE_MS <= now - date < HOUR_MS
    ensures FormatRelativeTime(date, now) == AgoLabel((now - date) / MINUTE_MS, "minute")
    ensures 1 <= (now - date) / MINUTE_MS < 60
  {
    var m := (now - date) / MINUTE_MS;
    assert FloorDiv(now - date, DAY_MS) == 0;
    assert FloorDiv(now - date, HOUR_MS) == 0;
    assert FloorDiv(now - date, MINUTE_MS) == m;
    AgoLabelUnit(m, "minute", "1 minute ago", " minutes ago");
  }

  /** AgoLabel for a unit, with its two spelled-out forms. */
  lemma {:induction false} AgoLabelUnit(n: nat, unit: string, one: string, many: string)
    requires one == "1 " + unit + " ago" && many == " " + unit + "s ago"
    ensures AgoLabel(n, unit) == if n == 1 then one else NatToString(n) + many
  {
    var x := NatToString(n);
    assert x + " " + unit + "s ago" == x + (" " + unit + "s ago");
  }

  /** "Just now" appears exactly when less than a minute has passed. */
  lemma {:induction false} FormatRelativeTimeJustNow(date: int, now: int)
    ensures FormatRelativeTime(date, now) == "Just now" <==> now - date < MINUTE_MS
  {
    var diff := now - date;
    if diff >= MINUTE_MS {
      assert |FormatRelativeTime(date, now)| != 8 || FormatRelativeTime(date, now) == "Yesterday";
    }
  }

  /** calculateProgress: percentage of the goal reached, capped at 100, 0 without a positive goal. */
  function CalculateProgress(currentMinutes: int, goalMinutes: int): (percent: int)
    ensures goalMinutes <= 0 ==> percent == 0
    ensures percent <= 100
    ensures goalMinutes > 0 && currentMinutes >= 0 ==> percent >= 0
    ensures goalMinutes > 0 && currentMinutes >= goalMinutes ==> percent == 100
    ensures goalMinutes > 0 && percent < 100 ==>
      2 * goalMinutes * percent <= 200 * currentMinutes + goalMinutes < 2 * goalMinutes * (percent + 1)
  {
    if goalMinutes <= 0 then 0
    else
      var p := RoundDiv(currentMinutes * 100, goalMinutes);
      ProgressBounds(currentMinutes, goalMinutes, p);
      if p < 100 then p else 100
  }

  /** The rounded percentage is not negative for a non-negative count and reaches 100 once the goal is met. */
  lemma {:induction false} ProgressBounds(current: int, goal: int, p: int)
    requires goal > 0
    requires 2 * goal * p <= 2 * (current * 100) + goal < 2 * goal * (p + 1)
    ensures current >= 0 ==> p >= 0
    ensures current >= goal ==> p >= 100
  {
    if current >= 0 && p < 0 {
      MulMonotone(2 * goal, p + 1, 0);
    }
    if current >= goal && p < 100 {
      MulMonotone(2 * goal, p + 1, 100);
      MulMonotone(200, goal, current);
    }
  }

  lemma {:induction false} MulMonotone(k: int, a: int, b: int)
    requires k > 0 && a <= b
    ensures k * a <= k * b
  {
  }

  // ---------------------------------------------------------------------------
  // Tag colours, URLs
  // ---------------------------------------------------------------------------

  /** TAG_COLORS: the sixteen predefined tag colours. */
  const TAG_COLORS: seq<string> := [
    "#ef4444", "#f97316", "#f59e0b", "#eab308", "#84cc16", "#22c55e", "#14b8a6", "#06b6d4",
    "#0ea5e9", "#3b82f6", "#6366f1", "#8b5cf6", "#a855f7", "#d946ef", "#ec4899", "#64748b"
  ]

  /** getRandomTagColor, for the value `random` that `Math.random()` returned. */
  function RandomTagColor(random: real): (color: string)
    requires 0.0 <= random < 1.0
    ensures color in TAG_COLORS
  {
    var i := (random * |TAG_COLORS| as real).Floor;
    assert 0 <= i < |TAG_COLORS|;
    TAG_COLORS[i]
  }

  /** The scheme prefix the URL pattern `/(https?:\/\/[^\s]+)/gi` starts with at `s[i..]`, if any. */
  function SchemeLength(s: string): nat {
    if |s| >= 8 && Lower(s[..8]) == "https://" then 8
    else if |s| >= 7 && Lower(s[..7]) == "http://" then 7
    else 0
  }

  /** Length of the run of non-white-space characters at the start of `s`. */
  function NonSpaceRun(s: string): (n: nat)
    ensures n <= |s|
    ensures forall k :: 0 <= k < n ==> !IsSpace(s[k])
    ensures n == |s| || IsSpace(s[n])
  {
    if s == [] || IsSpace(s[0]) then 0 else 1 + NonSpaceRun(s[1..])
  }

  /** A match of the URL pattern at the start of `s`: its length, or 0. */
  function UrlMatchLength(s: string): (n: nat)
    ensures n <= |s|
  {
    var scheme := SchemeLength(s);
    var run := NonSpaceRun(s);
    if scheme > 0 && run > scheme then run else 0
  }

  /** A URL as the pattern matches it: an http(s) scheme, at least one more character, no white space. */
  predicate IsUrl(u: string) {
    SchemeLength(u) > 0 && |u| > SchemeLength(u) && forall k :: 0 <= k < |u| ==> !IsSpace(u[k])
  }

  /** extractUrls: `text.match(/(https?:\/\/[^\s]+)/gi) || []`, the matches from left to right. */
  function ExtractUrls(text: string): (urls: seq<string>)
    ensures forall k :: 0 <= k < |urls| ==> IsUrl(urls[k]) && HasSubstring(text, urls[k])
    decreases |text|
  {
    if text == [] then []
    else
      var n := UrlMatchLength(text);
      if n > 0 then
        var u := text[..n];
        assert SchemeLength(u) == SchemeLength(text) by {
          assert u[..SchemeLength(text)] == text[..SchemeLength(text)];
          if SchemeLength(text) == 7 && |u| >= 8 { assert u[..8] == text[..8]; }
        }
        var rest := ExtractUrls(text[n..]);
        forall k | 0 <= k < |rest| ensures HasSubstring(text, rest[k]) {
          SubstringOfSuffix(text, n, rest[k]);
        }
        [u] + rest
      else
        var rest := ExtractUrls(text[1..]);
        forall k | 0 <= k < |rest| ensures HasSubstring(text, rest[k]) {
          SubstringOfSuffix(text, 1, rest[k]);
        }
        rest
  }

  lemma {:induction false} SubstringOfSuffix(text: string, n: nat, u: string)
    requires n <= |text| && HasSubstring(text[n..], u)
    ensures HasSubstring(text, u)
    decreases n
  {
    if n > 0 {
      assert text[1..][n - 1..] == text[n..];
      SubstringOfSuffix(text[1..], n - 1, u);
    }
  }

  /** `u` occurs in `text` at `p` and is followed there by white space or the end of the text. */
  predicate EndsAtSpace(text: string, u: string, p: nat) {
    p + |u| <= |text| && text[p..p + |u|] == u && (p + |u| == |text| || IsSpace(text[p + |u|]))
  }

  /** `u` stands somewhere in `text` up to white space or the end of the text. */
  ghost predicate StandsAlone(text: string, u: string) {
    exists p: nat :: EndsAtSpace(text, u, p)
  }

  /** No URL is found exactly when no position of the text starts a match of the pattern. */
  lemma {:induction false} ExtractUrlsEmpty(text: string)
    ensures ExtractUrls(text) == [] <==> forall k :: 0 <= k < |text| ==> UrlMatchLength(text[k..]) == 0
    decreases |text|
  {
    if text != [] {
      ExtractUrlsEmpty(text[1..]);
      assert text[0..] == text;
      forall k | 0 <= k < |text| - 1 ensures text[1..][k..] == text[k + 1..] {
      }
      if UrlMatchLength(text) == 0 {
        assert ExtractUrls(text) == ExtractUrls(text[1..]);
        if forall k :: 0 <= k < |text| ==> UrlMatchLength(text[k..]) == 0 {
          forall k | 0 <= k < |text| - 1 ensures UrlMatchLength(text[1..][k..]) == 0 {
            assert UrlMatchLength(text[k + 1..]) == 0;
          }
        } else {
          var k :| 0 <= k < |text| && UrlMatchLength(text[k..]) != 0;
          assert UrlMatchLength(text[1..][k - 1..]) != 0;
        }
      }
    }
  }

  /**
   * The first URL found is the match at the leftmost position where the
   * pattern matches, and it runs up to the next white space.
   */
  lemma {:induction false} ExtractUrlsFirst(text: string, p: nat)
    requires p < |text| && UrlMatchLength(text[p..]) > 0
    requires forall q :: 0 <= q < p ==> UrlMatchLength(text[q..]) == 0
    ensures ExtractUrls(text) != []
    ensures |ExtractUrls(text)[0]| == UrlMatchLength(text[p..]) && EndsAtSpace(text, ExtractUrls(text)[0], p)
    decreases p
  {
    if p == 0 {
      assert text[0..] == text;
      ExtractUrlsHead(text);
    } else {
      assert text[0..] == text;
      ExtractUrlsSkip(text);
      assert text[1..][p - 1..] == text[p..];
      forall q | 0 <= q < p - 1 ensures UrlMatchLength(text[1..][q..]) == 0 {
        assert text[1..][q..] == text[q + 1..];
      }
      ExtractUrlsFirst(text[1..], p - 1);
      EndsAtSpaceShift(text, 1, ExtractUrls(text)[0], p - 1);
    }
  }

  /** Where the pattern matches at the start, that match is the first URL and the search resumes after it. */
  lemma {:induction false} ExtractUrlsHead(text: string)
    requires UrlMatchLength(text) > 0
    ensures ExtractUrls(text) == [text[..UrlMatchLength(text)]] + ExtractUrls(text[UrlMatchLength(text)..])
    ensures EndsAtSpace(text, text[..UrlMatchLength(text)], 0)
  {
    var n := UrlMatchLength(text);
    assert n == NonSpaceRun(text);
    assert text[0..n] == text[..n];
  }

  /** Where the pattern does not match at the start, the search moves on by one character. */
  lemma {:induction false} ExtractUrlsSkip(text: string)
    requires text != [] && UrlMatchLength(text) == 0
    ensures ExtractUrls(text) == ExtractUrls(text[1..])
  {
  }

  /** Every URL found stands in the text up to white space or the end: the match is never cut short. */
  lemma {:induction false} ExtractUrlsMaximal(text: string)
    ensures forall k :: 0 <= k < |ExtractUrls(text)| ==> StandsAlone(text, ExtractUrls(text)[k])
    decreases |text|
  {
    if text != [] {
      var n := UrlMatchLength(text);
      var skip := if n > 0 then n else 1;
      var head := if n > 0 then [text[..n]] else [];
      ExtractUrlsMaximal(text[skip..]);
      if n > 0 { ExtractUrlsHead(text); } else { ExtractUrlsSkip(text); }
      EndsAtSpaceAll(text, skip, head, ExtractUrls(text[skip..]));
      assert ExtractUrls(text) == head + ExtractUrls(text[skip..]);
    }
  }

  /** The matches of the head and of the text after `skip`, placed in the whole text. */
  lemma {:induction false} EndsAtSpaceAll(text: string, skip: nat, head: seq<string>, rest: seq<string>)
    requires skip <= |text|
    requires forall k :: 0 <= k < |head| ==> EndsAtSpace(text, head[k], 0)
    requires forall k :: 0 <= k < |rest| ==> StandsAlone(text[skip..], rest[k])
    ensures forall k :: 0 <= k < |head + rest| ==> StandsAlone(text, (head + rest)[k])
  {
    forall k | 0 <= k < |head + rest| ensures StandsAlone(text, (head + rest)[k]) {
      var u := (head + rest)[k];
      if k < |head| {
        assert u == head[k];
        assert EndsAtSpace(text, u, 0);
      } else {
        assert u == rest[k - |head|];
        assert StandsAlone(text[skip..], u);
        var p: nat :| EndsAtSpace(text[skip..], u, p);
        EndsAtSpaceShift(text, skip, u, p);
        assert EndsAtSpace(text, u, p + skip);
      }
    }
  }

  lemma {:induction false} EndsAtSpaceShift(text: string, n: nat, u: string, p: nat)
    requires n <= |text| && EndsAtSpace(text[n..], u, p)
    ensures EndsAtSpace(text, u, p + n)
  {
    assert text[n..][p..p + |u|] == text[p + n..p + n + |u|];
  }

  /** A text in which no position starts with an http(s) scheme yields no URL. */
  lemma {:induction false} ExtractUrlsNone(text: string)
    requires forall k :: 0 <= k < |text| ==> SchemeLength(text[k..]) == 0
    ensures ExtractUrls(text) == []
    decreases |text|
  {
    if text != [] {
      assert text[0..] == text;
      forall k | 0 <= k < |text| - 1 ensures SchemeLength(text[1..][k..]) == 0 {
        assert text[1..][k..] == text[k + 1..];
      }
      ExtractUrlsNone(text[1..]);
    }
  }

  /** `s.length > max ? s.substring(0, max) + '...' : s`. */
  function Truncate(s: string, maxLength: nat): (r: string)
    ensures |s| <= maxLength ==> r == s
    ensures |s| > maxLength ==> |r| == maxLength + 3 && r[..maxLength] == s[..maxLength] && r[maxLength..] == "..."
  {
    if |s| > maxLength then s[..maxLength] + "..." else s
  }

  /**
   * getDomain(url, maxLength): the host name without its first "www.", truncated.
   * `hostname` is what `new URL(url).hostname` gives, or None when the constructor throws.
   */
  function GetDomain(url: string, hostname: Option<string>, maxLength: nat): (r: string)
    ensures hostname.None? ==> r == Truncate(url, maxLength)
    ensures |r| <= maxLength + 3
  {
    match hostname
    case Some(host) => Truncate(ReplaceFirst(host, "www.", ""), maxLength)
    case None => Truncate(url, maxLength)
  }

  /** groupByDate's key: the start of the day the log started on. */
  function DayKey(startedAt: int): int {
    StartOfDay(startedAt)
  }

  /** Days on which some element starts. */
  function DaysOf<T>(logs: seq<T>, startedAt: T -> int): set<int> {
    set k | 0 <= k < |logs| :: DayKey(startedAt(logs[k]))
  }

  /** The elements of `logs` that start on day `day`, in input order. */
  function OnDay<T>(logs: seq<T>, startedAt: T -> int, day: int): seq<T> {
    Sorting.Filter(logs, (l: T) => DayKey(startedAt(l)) == day)
  }

  /** Group `(day, logs)` pairs of `groups` have distinct days. */
  predicate DistinctKeys<T>(groups: seq<(int, seq<T>)>) {
    forall i, j :: 0 <= i < j < |groups| ==> groups[i].0 != groups[j].0
  }

  function GroupSizes<T>(groups: seq<(int, seq<T>)>): nat {
    if groups == [] then 0 else |groups[0].1| + GroupSizes(groups[1..])
  }

  /**
   * `groups` partitions `logs` by day: distinct days, each group exactly the
   * logs of its day in input order, every day of `logs` present, and the group
   * sizes adding up to the number of logs.
   */
  predicate GroupsOf<T(==)>(groups: seq<(int, seq<T>)>, logs: seq<T>, startedAt: T -> int) {
    DistinctKeys(groups)
    && GroupsMatch(groups, logs, startedAt)
    && GroupDays(groups) == DaysOf(logs, startedAt)
    && GroupSizes(groups) == |logs|
  }

  /** Each group is exactly the non-empty run of logs of its day. */
  predicate GroupsMatch<T(==)>(groups: seq<(int, seq<T>)>, logs: seq<T>, startedAt: T -> int) {
    forall g :: 0 <= g < |groups| ==> groups[g].1 == OnDay(logs, startedAt, groups[g].0) && groups[g].1 != []
  }

  /** The days of the groups. */
  function GroupDays<T>(groups: seq<(int, seq<T>)>): set<int> {
    set g | 0 <= g < |groups| :: groups[g].0
  }

  /**
   * groupByDate: logs grouped by the start of their day, groups in the order
   * their first log appears (a JavaScript `Map` keeps insertion order).
   */
  method GroupByDate<T(==)>(logs: seq<T>, startedAt: T -> int) returns (groups: seq<(int, seq<T>)>)
    ensures GroupsOf(groups, logs, startedAt)
  {
    groups := [];
    var i := 0;
    while i < |logs|
      invariant 0 <= i <= |logs|
      invariant GroupsOf(groups, logs[..i], startedAt)
    {
      var log := logs[i];
      var key := DayKey(startedAt(log));
      var j := FindGroup(groups, key);
      assert logs[..i + 1] == logs[..i] + [log];
      if j < |groups| {
        GroupsOfExisting(groups, logs[..i], startedAt, log, j);
        groups := groups[j := (key, groups[j].1 + [log])];
      } else {
        GroupsOfNew(groups, logs[..i], startedAt, log);
        groups := groups + [(key, [log])];
      }
      i := i + 1;
    }
    assert logs[..i] == logs;
  }

  lemma {:induction false} GroupsOfExisting<T>(groups: seq<(int, seq<T>)>, logs: seq<T>, startedAt: T -> int, log: T, j: nat)
    requires GroupsOf(groups, logs, startedAt)
    requires j < |groups| && groups[j].0 == DayKey(startedAt(log))
    ensures GroupsOf(groups[j := (groups[j].0, groups[j].1 + [log])], logs + [log], startedAt)
  {
    var ng := groups[j := (groups[j].0, groups[j].1 + [log])];
    MatchExisting(groups, logs, startedAt, log, j);
    DaysUpdate(groups, j, groups[j].1 + [log]);
    DaysOfSnoc(logs, log, startedAt);
    assert groups[j].0 in GroupDays(groups);
    GroupSizesUpdate(groups, j, groups[j].1 + [log]);
    assert DistinctKeys(ng) by {
      forall a, b | 0 <= a < b < |ng| ensures ng[a].0 != ng[b].0 {
        assert ng[a].0 == groups[a].0 && ng[b].0 == groups[b].0;
      }
    }
  }

  /** The groups still match after the log joins the group of its day. */
  lemma {:induction false} MatchExisting<T>(groups: seq<(int, seq<T>)>, logs: seq<T>, startedAt: T -> int, log: T, j: nat)
    requires GroupsMatch(groups, logs, startedAt) && DistinctKeys(groups)
    requires j < |groups| && groups[j].0 == DayKey(startedAt(log))
    ensures GroupsMatch(groups[j := (groups[j].0, groups[j].1 + [log])], logs + [log], startedAt)
  {
    var ng := groups[j := (groups[j].0, groups[j].1 + [log])];
    forall g | 0 <= g < |ng| ensures ng[g].1 == OnDay(logs + [log], startedAt, ng[g].0) && ng[g].1 != [] {
      OnDaySnoc(logs, log, startedAt, ng[g].0);
      if g != j {
        assert ng[g] == groups[g];
      }
    }
  }

  /** Replacing a group's members keeps the days. */
  lemma {:induction false} DaysUpdate<T>(groups: seq<(int, seq<T>)>, j: nat, members: seq<T>)
    requires j < |groups|
    ensures GroupDays(groups[j := (groups[j].0, members)]) == GroupDays(groups)
  {
    var ng := groups[j := (groups[j].0, members)];
    forall d | d in GroupDays(groups) ensures d in GroupDays(ng) {
      var g :| 0 <= g < |groups| && groups[g].0 == d;
      assert ng[g].0 == d;
    }
  }

  /** Appending a group adds its day. */
  lemma {:induction false} DaysAppend<T>(groups: seq<(int, seq<T>)>, group: (int, seq<T>))
    ensures GroupDays(groups + [group]) == GroupDays(groups) + {group.0}
  {
    var ng := groups + [group];
    forall d | d in GroupDays(groups) ensures d in GroupDays(ng) {
      var g :| 0 <= g < |groups| && groups[g].0 == d;
      assert ng[g].0 == d;
    }
    assert ng[|groups|].0 == group.0;
  }

  lemma {:induction false} GroupsOfNew<T>(groups: seq<(int, seq<T>)>, logs: seq<T>, startedAt: T -> int, log: T)
    requires GroupsOf(groups, logs, startedAt)
    requires forall g :: 0 <= g < |groups| ==> groups[g].0 != DayKey(startedAt(log))
    ensures GroupsOf(groups + [(DayKey(startedAt(log)), [log])], logs + [log], startedAt)
  {
    var key := DayKey(startedAt(log));
    var ng := groups + [(key, [log])];
    assert key !in GroupDays(groups);
    MatchNew(groups, logs, startedAt, log);
    DaysAppend(groups, (key, [log]));
    DaysOfSnoc(logs, log, startedAt);
    GroupSizesAppend(groups, (key, [log]));
    assert DistinctKeys(ng) by {
      forall a, b | 0 <= a < b < |ng| ensures ng[a].0 != ng[b].0 {
        assert ng[a] == groups[a];
      }
    }
  }

  /** The groups still match after a group of the log alone is appended for its new day. */
  lemma {:induction false} MatchNew<T>(groups: seq<(int, seq<T>)>, logs: seq<T>, startedAt: T -> int, log: T)
    requires GroupsMatch(groups, logs, startedAt)
    requires DayKey(startedAt(log)) !in DaysOf(logs, startedAt)
    requires forall g :: 0 <= g < |groups| ==> groups[g].0 != DayKey(startedAt(log))
    ensures GroupsMatch(groups + [(DayKey(startedAt(log)), [log])], logs + [log], startedAt)
  {
    var key := DayKey(startedAt(log));
    var ng := groups + [(key, [log])];
    OnDayEmpty(logs, startedAt, key);
    forall g | 0 <= g < |ng| ensures ng[g].1 == OnDay(logs + [log], startedAt, ng[g].0) && ng[g].1 != [] {
      OnDaySnoc(logs, log, startedAt, ng[g].0);
      if g < |groups| {
        assert ng[g] == groups[g];
      }
    }
  }

  /** Index of the group with key `key`, or `|groups|`. */
  method FindGroup<T>(groups: seq<(int, seq<T>)>, key: int) returns (j: nat)
    ensures j <= |groups|
    ensures j < |groups| ==> groups[j].0 == key
    ensures j == |groups| ==> forall g :: 0 <= g < |groups| ==> groups[g].0 != key
  {
    j := 0;
    while j < |groups| && groups[j].0 != key
      invariant j <= |groups|
      invariant forall g :: 0 <= g < j ==> groups[g].0 != key
    {
      j := j + 1;
    }
  }

  lemma {:induction false} OnDaySnoc<T>(logs: seq<T>, log: T, startedAt: T -> int, day: int)
    ensures OnDay(logs + [log], startedAt, day)
      == OnDay(logs, startedAt, day) + (if DayKey(startedAt(log)) == day then [log] else [])
  {
    Sorting.FilterConcat(logs, [log], (l: T) => DayKey(startedAt(l)) == day);
  }

  lemma {:induction false} DaysOfSnoc<T>(logs: seq<T>, log: T, startedAt: T -> int)
    ensures DaysOf(logs + [log], startedAt) == DaysOf(logs, startedAt) + {DayKey(startedAt(log))}
  {
    var s := logs + [log];
    assert forall k :: 0 <= k < |logs| ==> s[k] == logs[k];
    assert s[|logs|] == log;
  }

  lemma {:induction false} OnDayEmpty<T>(logs: seq<T>, startedAt: T -> int, day: int)
    requires day !in DaysOf(logs, startedAt)
    ensures OnDay(logs, startedAt, day) == []
    decreases |logs|
  {
    if logs != [] {
      assert DayKey(startedAt(logs[0])) in DaysOf(logs, startedAt);
      assert DaysOf(logs[1..], startedAt) <= DaysOf(logs, startedAt) by {
        forall k | 0 <= k < |logs[1..]| ensures DayKey(startedAt(logs[1..][k])) in DaysOf(logs, startedAt) {
          assert logs[1..][k] == logs[k + 1];
        }
      }
      OnDayEmpty(logs[1..], startedAt, day);
    }
  }

  lemma {:induction false} GroupSizesAppend<T>(groups: seq<(int, seq<T>)>, g: (int, seq<T>))
    ensures GroupSizes(groups + [g]) == GroupSizes(groups) + |g.1|
    decreases |groups|
  {
    if groups != [] {
      assert (groups + [g])[1..] == groups[1..] + [g];
      GroupSizesAppend(groups[1..], g);
    }
  }

  lemma {:induction false} GroupSizesUpdate<T>(groups: seq<(int, seq<T>)>, j: nat, members: seq<T>)
    requires j < |groups|
    ensures GroupSizes(groups[j := (groups[j].0, members)]) == GroupSizes(groups) - |groups[j].1| + |members|
    decreases |groups|
  {
    if j > 0 {
      assert groups[j := (groups[j].0, members)][1..] == groups[1..][j - 1 := (groups[j].0, members)];
      GroupSizesUpdate(groups[1..], j - 1, members);
    }
  }
}
