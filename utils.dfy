/**
 * The helpers of src/lib/utils.ts: the delay messages, the HH:MM:SS duration
 * between two instants and a name's initials. `Math.random()` is a parameter.
 */
module Utils {
  import opened Wrappers
  import opened JsString
  import Domain

  /** delayMessages: eleven messages shown when an activity is too short to save. */
  const DELAY_MESSAGES: seq<string> := [
    "Activity must be at least 3 minutes long to save.",
    "Keep going! Save your activity after 3 minutes.",
    "Activity must be at least 3 minutes long to save.",
    "Almost there! Let's go for at least 3 minutes.",
    "Please continue for at least 3 minutes to save this activity.",
    "Almost there! Let's go for at least 3 minutes.",
    "Keep going! Save your activity after 3 minutes.",
    "Minimum duration to save is 3 minutes.",
    "Warm-up complete! Continue for 3 minutes to log your activity.",
    "Minimum duration to save is 3 minutes.",
    "Warm-up complete! Continue for 3 minutes to log your activity."
  ]

  /** The index getDelayMessage uses: `Math.floor(random * 10)`. */
  function DelayIndex(random: real): (i: int)
    requires 0.0 <= random < 1.0
    ensures 0 <= i < 10
    ensures i as real <= random * 10.0 < i as real + 1.0
  {
    (random * 10.0).Floor
  }

  /** getDelayMessage, for the value `random` that `Math.random()` returned. */
  function GetDelayMessage(random: real): (message: string)
    requires 0.0 <= random < 1.0
    ensures message in DELAY_MESSAGES[..10]
  {
    DELAY_MESSAGES[DelayIndex(random)]
  }

  /** The last message is never chosen by position; its text only appears because message 8 repeats it. */
  lemma {:induction false} LastDelayMessageByPositionOnly(random: real)
    requires 0.0 <= random < 1.0
    ensures DelayIndex(random) != |DELAY_MESSAGES| - 1
    ensures DELAY_MESSAGES[10] == DELAY_MESSAGES[8] && DELAY_MESSAGES[9] == DELAY_MESSAGES[7]
  {
  }

  /** duration(start, finish): "HH:MM:SS", hours unbounded, each field padded to two digits. */
  function Duration(start: int, finish: int): string {
    var milliseconds := finish - start;
    var seconds := Domain.FloorDiv(milliseconds, 1000);
    var minutes := Domain.FloorDiv(seconds, 60);
    var hours := Domain.FloorDiv(minutes, 60);
    var remainderMinutes := Domain.JsRem(minutes, 60);
    var remainderSeconds := Domain.JsRem(seconds, 60);
    PadStart2(IntToString(hours)) + ":" + PadStart2(IntToString(remainderMinutes)) + ":"
      + PadStart2(IntToString(remainderSeconds))
  }

  /** Dividing by 60 twice is dividing by 3600; the minutes left over agree with formatElapsed's. */
  lemma {:induction false} SixtySixty(ts: int)
    requires ts >= 0
    ensures (ts / 60) / 60 == ts / 3600
    ensures (ts / 60) % 60 == (ts % 3600) / 60
  {
    var q := ts / 60;
    Domain.DivModUnique(ts, 3600, q / 60, (q % 60) * 60 + ts % 60);
    Domain.DivModUnique(ts % 3600, 60, q % 60, ts % 60);
  }

  /**
   * For a finish at or after the start, duration is formatElapsed followed by
   * formatTimeString, so the two displays of a finished activity agree.
   */
  lemma {:induction false} DurationIsFormatElapsed(start: int, finish: int)
    requires start <= finish
    ensures var hms := Domain.FormatElapsed(finish - start);
      Duration(start, finish) == Domain.FormatTimeString(hms.0, hms.1, hms.2)
  {
    SixtySixty((finish - start) / 1000);
  }

  /**
   * For a finish at or after the start, the three fields read back as hours,
   * minutes and seconds with hours * 3600 + minutes * 60 + seconds the whole
   * seconds elapsed; minutes and seconds are below 60 and take two digits, and
   * hours are not reduced modulo 24.
   */
  lemma {:induction false} DurationFields(start: int, finish: int)
    requires start <= finish
    ensures var p := Domain.ParseTimeString(Duration(start, finish));
      p.Some? && p.value.0 * 3600 + p.value.1 * 60 + p.value.2 == (finish - start) / 1000
      && p.value.1 < 60 && p.value.2 < 60 && p.value.0 == (finish - start) / 3600000
    ensures var parts := Split(Duration(start, finish), ':');
      |parts| == 3 && |parts[0]| >= 2 && |parts[1]| == 2 && |parts[2]| == 2
  {
    DurationIsFormatElapsed(start, finish);
    var hms := Domain.FormatElapsed(finish - start);
    Domain.FormatTimeStringRoundTrip(hms.0, hms.1, hms.2);
    var ts := (finish - start) / 1000;
    Domain.DivModUnique(finish - start, 3600000, ts / 3600, (ts % 3600) * 1000 + (finish - start) % 1000);
  }

  /** `word.charAt(0)`: the first character, or "" for an empty word. */
  function CharAt0(word: string): (r: string)
    ensures |r| <= 1 && (word != [] ==> r == [word[0]]) && (word == [] ==> r == [])
  {
    if word == [] then "" else word[..1]
  }

  /** The initial of every space-separated word, in order. */
  function Initials(words: seq<string>): (r: seq<string>)
    ensures |r| == |words|
    ensures forall k :: 0 <= k < |words| ==> r[k] == CharAt0(words[k])
  {
    if words == [] then [] else [CharAt0(words[0])] + Initials(words[1..])
  }

  /** getInitials: `name.split(" ").map(w => w.charAt(0)).join()`, joined with ",". */
  function GetInitials(name: string): string {
    Join(Initials(Split(name, ' ')), ",")
  }

  lemma {:induction false} NoCommaInInitials(words: seq<string>, name: string)
    requires forall k :: 0 <= k < |words| ==> forall c :: c in words[k] ==> c in name
    requires ',' !in name
    ensures SumCounts(Initials(words), ',') == 0
    decreases |words|
  {
    if words != [] {
      var w := CharAt0(words[0]);
      assert ',' !in w by {
        if w != [] { assert w[0] == words[0][0]; assert words[0][0] in words[0]; }
      }
      CountAbsent(w, ',');
      assert Initials(words)[1..] == Initials(words[1..]);
      NoCommaInInitials(words[1..], name);
    }
  }

  lemma {:induction false} SplitPiecesFromSource(s: string, sep: char)
    ensures forall k :: 0 <= k < |Split(s, sep)| ==> forall c :: c in Split(s, sep)[k] ==> c in s
    decreases |s|
  {
    if s != [] {
      SplitPiecesFromSource(s[1..], sep);
    }
  }

  /**
   * Without a comma in the name, the initials hold exactly one comma per space
   * of the name, and the pieces between the commas are the words' first
   * characters.
   */
  lemma {:induction false} GetInitialsCommas(name: string)
    requires ',' !in name
    ensures Count(GetInitials(name), ',') == Count(name, ' ')
    ensures |Initials(Split(name, ' '))| == Count(name, ' ') + 1
  {
    var words := Split(name, ' ');
    SplitPiecesFromSource(name, ' ');
    NoCommaInInitials(words, name);
    CountJoin(Initials(words), ',');
  }
}
