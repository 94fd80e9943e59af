/** What main.c sends over the serial line: the status report (`display_statues_computer`,
    `send_to`, `send_num_to`, `send_time`), the messages of the first unpause and of game over,
    and the list of controls (`send_controls`). */
module Report {
  import opened CRuntime
  import opened Pools
  import opened Motion
  import opened Console
  import opened State
  import opened Game

  /** `snum`, the buffer `send_to` and `send_num_to` hand to `itoa`: five characters. */
  const SnumSize: nat := 5

  /** A buffer that holds the text of every 16-bit `int` ("-32768") and its NUL. */
  const WideSnumSize: nat := 7

  /** `itoa` into a buffer of `size` characters stays inside it: the text and its NUL fit. */
  predicate FitsIn(n: int, size: nat) {
    |Itoa(n)| + 1 <= size
  }

  datatype Option<T> = None | Some(value: T)

  /** `send_to` with a buffer large enough for its number: the message, the number's decimal
      text and CR LF. Whatever the number, the text after the message reads back as it. */
  function SendTo(message: string, n: int): (t: string)
    ensures |t| >= |message| + 3 && t[..|message|] == message && t[|t| - 2..] == "\r\n"
    ensures n >= 0 ==> Atoi(t[|message|..]) == n
    ensures n < 0 ==> t[|message|] == '-' && Atoi(t[|message| + 1..]) == -n
  {
    NumberReadsBack(message, n);
    SentLine(message, n)
  }

  /** The text of a `send_to` call. */
  function SentLine(message: string, n: int): string {
    message + Itoa(n) + "\r\n"
  }

  lemma NumberReadsBack(message: string, n: int)
    ensures var t := message + Itoa(n) + "\r\n";
            (n >= 0 ==> Atoi(t[|message|..]) == n)
            && (n < 0 ==> t[|message|] == '-' && Atoi(t[|message| + 1..]) == -n)
  {
    var t := message + Itoa(n) + "\r\n";
    assert t[|message|..] == Itoa(n) + "\r\n";
    if n >= 0 {
      AtoiOfDigits(Itoa(n), "\r\n");
      DecimalValueOfDigits(n);
    } else {
      assert t[|message| + 1..] == Digits(-n) + "\r\n";
      AtoiOfDigits(Digits(-n), "\r\n");
      DecimalValueOfDigits(-n);
    }
  }

  /** `send_to` as written, with `char snum[5]`: when the number's text and its NUL do not fit,
      `itoa` writes past the buffer and nothing is promised about what is sent. */
  function SendToAsWritten(message: string, n: int): (r: Option<string>)
    ensures r.Some? <==> FitsIn(n, SnumSize)
    ensures r.Some? ==> r.value == SendTo(message, n)
  {
    if FitsIn(n, SnumSize) then Some(SendTo(message, n)) else None
  }

  /** A number has more than k digits once it reaches 10^k. */
  lemma {:induction false} DigitsAtLeast(n: nat, k: nat)
    requires n >= Pow10(k)
    ensures |Digits(n)| > k
    decreases k
  {
    if k > 0 {
      assert Digits(n) == Digits(n / 10) + [DigitChar(n % 10)];
      DigitsAtLeast(n / 10, k - 1);
    }
  }

  /** A number below 10^k has at most k digits. */
  lemma {:induction false} DigitsAtMost(n: nat, k: nat)
    requires k >= 1 && n < Pow10(k)
    ensures |Digits(n)| <= k
    decreases k
  {
    if n >= 10 {
      assert Digits(n) == Digits(n / 10) + [DigitChar(n % 10)];
      DigitsAtMost(n / 10, k - 1);
    }
  }

  /** The score is capped at 9999 only when set by 'g'; hits keep adding to it. From 10000 on
      its text and NUL overrun `snum`, and so does any number below -999. */
  lemma ScoreOverrunsSnum(message: string, n: int)
    requires n >= 10000 || n <= -1000
    ensures SendToAsWritten(message, n) == None
  {
    if n >= 10000 {
      DigitsAtLeast(n, 4);
    } else {
      DigitsAtLeast(-n, 3);
    }
  }

  /** Every 16-bit `int` fits in a seven-character buffer, so the report with that buffer sends
      every number in full. */
  lemma WideSnumHoldsEveryInt(n: int)
    requires IntMin <= n <= IntMax
    ensures FitsIn(n, WideSnumSize)
  {
    if n >= 0 {
      DigitsAtMost(n, 5);
    } else {
      DigitsAtMost(-n, 5);
    }
  }

  /** A number of at most two digits with a leading zero (`send_num_to(0)` before a value
      below 10). */
  function Pad2(n: int): (t: string)
    ensures 0 <= n ==> |t| >= 2 && AllDigits(t)
    ensures 0 <= n < 100 ==> |t| == 2
  {
    if n >= 0 && n < 10 then assert |Digits(n)| == 1; "0" + Itoa(n)
    else if n < 10 then "0" + Itoa(n)
    else
      assert |Digits(n)| >= 2 by { DigitsAtLeast(n, 1); }
      assert n < 100 ==> |Digits(n)| <= 2 by { if n < 100 { DigitsAtMost(n, 2); } }
      Itoa(n)
  }

  /** `min = floor(time / 60)` and `sec = floor(time - min * 60)`. */
  function Minutes(time: real): int {
    (time / 60.0).Floor
  }

  function Seconds(time: real): int {
    (time - (Minutes(time) * 60) as real).Floor
  }

  /** The minutes and seconds of `send_time` split the whole seconds of the clock. */
  lemma ClockSplits(time: real)
    requires time >= 0.0
    ensures 0 <= Seconds(time) < 60 && Minutes(time) >= 0
    ensures Minutes(time) * 60 + Seconds(time) == time.Floor
  {
    var m := Minutes(time);
    assert (m as real) <= time / 60.0 < (m as real) + 1.0;
    assert (m * 60) as real <= time < (m * 60) as real + 60.0;
  }

  /** `send_time`: "Game Time: ", the minutes and seconds with two digits at least, CR LF. */
  function TimeText(time: real): (t: string)
    ensures |t| >= 11 && t[..11] == "Game Time: "
  {
    "Game Time: " + Pad2(Minutes(time)) + ":" + Pad2(Seconds(time)) + "\r\n"
  }

  /** The time sent reads back: the digits after the tag are the minutes, those after the
      colon the seconds, and together they give the clock's whole seconds. */
  lemma TimeReadsBack(time: real)
    requires time >= 0.0
    ensures var t := TimeText(time);
            var k := 11 + |Pad2(Minutes(time))|;
            k < |t| && t[k] == ':'
            && Atoi(t[11..]) * 60 + Atoi(t[k + 1..]) == time.Floor
            && Atoi(t[k + 1..]) < 60
  {
    ClockSplits(time);
    var m := Minutes(time);
    var sec := Seconds(time);
    TimeTextParts(time);
    Pad2ReadsBack(m, ":" + Pad2(sec) + "\r\n");
    Pad2ReadsBack(sec, "\r\n");
  }

  /** Where the minutes and the seconds sit in the time line. */
  lemma TimeTextParts(time: real)
    requires time >= 0.0
    ensures var t, m := TimeText(time), Pad2(Minutes(time));
            11 + |m| < |t| && t[11 + |m|] == ':'
            && t[11..] == m + (":" + Pad2(Seconds(time)) + "\r\n")
            && t[11 + |m| + 1..] == Pad2(Seconds(time)) + "\r\n"
  {
    var t, m, sec := TimeText(time), Pad2(Minutes(time)), Pad2(Seconds(time));
    assert t == "Game Time: " + (m + (":" + sec + "\r\n"));
    assert t[11..] == m + (":" + sec + "\r\n");
  }

  lemma Pad2ReadsBack(n: nat, rest: string)
    requires |rest| == 0 || !IsDigit(rest[0])
    ensures Atoi(Pad2(n) + rest) == n
  {
    AtoiOfDigits(Pad2(n), rest);
    if n < 10 {
      assert Pad2(n) == ['0', DigitChar(n)];
      assert Pad2(n)[..1] == ['0'];
      assert DecimalValue(['0']) == 0 by { assert ['0'][..0] == []; }
    } else {
      DecimalValueOfDigits(n);
    }
  }

  /** `display_statues_computer`: the time, then one line per value, then a blank line. The
      turret is the integer `leftpotent`; the speed is sent as `speed * 10` cut to an `int`.
      The score line follows the time and the lives, and its number reads back as the
      score. */
  function StatusReport(s: GameState): (t: string)
    ensures s.score >= 0 ==> ShowsAt(t, |TimeText(s.time)| + |SentLine("Lives: ", s.shield)|, "Score: ", s.score)
  {
    ScoreAfter(TimeText(s.time), SentLine("Lives: ", s.shield), s.score, CountLines(s))
  }

  /** The score line placed after the texts a and b and before the rest of the report. */
  function ScoreAfter(a: string, b: string, score: int, rest: string): (t: string)
    ensures score >= 0 ==> ShowsAt(t, |a| + |b|, "Score: ", score)
  {
    var t := a + (b + (SentLine("Score: ", score) + rest));
    if score >= 0 then LabelledNumber(t, a, b, "Score: ", score, rest); t else t
  }

  function CountLines(s: GameState): string {
    SentLine("Asteroids: ", s.asteroids.count)
    + SentLine("Boulders: ", s.boulders.count)
    + SentLine("Fragments: ", s.fragments.count)
    + SentLine("Plasma: ", s.plasmas.count)
    + SentLine("Turrent: ", TruncToInt(s.aim.turret))
    + SentLine("Speed: ", TruncToInt(s.speed * 10.0))
    + " \r\n"
  }

  /** `t` holds `tag` at position k, followed by digits that `atoi` reads as n. */
  predicate ShowsAt(t: string, k: nat, tag: string, n: nat) {
    k + |tag| <= |t| && t[k..k + |tag|] == tag && Atoi(t[k + |tag|..]) == n
  }

  /** A number sent by `send_to` in the middle of a longer text reads back at its place. */
  lemma LabelledNumber(t: string, a: string, b: string, tag: string, n: nat, rest: string)
    requires t == a + (b + (SentLine(tag, n) + rest))
    ensures ShowsAt(t, |a| + |b|, tag, n)
  {
    SuffixAfter(a, b, SentLine(tag, n) + rest);
    LineShows(tag, n, rest);
    ShowsAtShift(t, |a| + |b|, tag, n);
  }

  lemma SuffixAfter(a: string, b: string, x: string)
    ensures (a + (b + x))[|a| + |b|..] == x
  {
    assert (a + (b + x))[|a|..] == b + x;
  }

  /** A line sent by `send_to` shows its number right after its tag, whatever follows. */
  lemma LineShows(tag: string, n: nat, rest: string)
    ensures ShowsAt(SentLine(tag, n) + rest, 0, tag, n)
  {
    var t := SentLine(tag, n) + rest;
    assert t[..|tag|] == tag;
    assert t[|tag|..] == Itoa(n) + ("\r\n" + rest);
    AtoiOfDigits(Itoa(n), "\r\n" + rest);
    DecimalValueOfDigits(n);
  }

  /** What a suffix of t shows at 0, t shows at the suffix's start. */
  lemma ShowsAtShift(t: string, k: nat, tag: string, n: nat)
    requires k <= |t| && ShowsAt(t[k..], 0, tag, n)
    ensures ShowsAt(t, k, tag, n)
  {
    assert t[k..][..|tag|] == t[k..k + |tag|];
    assert t[k..][|tag|..] == t[k + |tag|..];
  }

  /** `set_pause`: the first toggle after a start or restart sends the report and "Game
      Started"; no other toggle sends anything. */
  function PauseMessage(s: GameState, centre: bool): (t: string)
    ensures t != "" <==> (centre || s.line.ingame == 'p') && s.firstStart
  {
    if (centre || s.line.ingame == 'p') && s.firstStart then StatusReport(s) + "Game Started\r\n" else ""
  }

  /** "Game Started" comes once: the toggle that sends it ends the start-up state. */
  lemma GameStartedOnce(s: GameState, centre: bool, centre': bool)
    requires ValidState(s) && (centre || s.line.ingame == 'p')
    ensures PauseMessage(SetPause(s, centre), centre') == ""
  {
  }

  /** `game_over`: the report and "Game Over". */
  function GameOverMessage(s: GameState): (t: string)
    ensures |t| > 11 && t[|t| - 11..] == "Game Over\r\n"
  {
    StatusReport(s) + "Game Over\r\n"
  }

  /** The keys `send_controls` lists, in its order. */
  const HelpKeys: string := "adwsrpqtmlg?hjki"

  const HelpTopics: seq<string> := [
    "move spaceship left", "move spaceship right", "fire plasma bolts",
    "send and display game status", "start/reset game", "pause game", "quit",
    "set aim of the turret", "set the speed of the game",
    "set the remaining useful life of the deflector shield", "set the score",
    "print controls to computer screen (Putty)", "move spaceship to coordinate",
    "place asteroid at coordinate", "place boulder at coordinate", "place fragment at coordinate"]

  /** Line i of the list of controls: the key in quotes, the separator, the topic, CR LF. */
  function HelpLine(i: nat, sep: string): (t: string)
    requires i < |HelpKeys| && |HelpKeys| == |HelpTopics|
    ensures |t| >= 3 && t[..3] == ['\'', HelpKeys[i], '\'']
  {
    ControlLine(HelpKeys[i], sep, HelpTopics[i])
  }

  function ControlLine(key: char, sep: string, topic: string): string {
    ['\'', key, '\''] + sep + topic + "\r\n"
  }

  /** The whole text from line i on, closed by a blank line. */
  function HelpFrom(i: nat, sep: string): string
    requires i <= |HelpKeys| && |HelpKeys| == |HelpTopics|
    decreases |HelpKeys| - i
  {
    if i == |HelpKeys| then " \r\n" else HelpLine(i, sep) + HelpFrom(i + 1, sep)
  }

  /** The list of controls names every single-key control and every command letter but one:
      it lists 't', which no handler serves, and leaves out 'o', which aims the turret. */
  lemma HelpCoversKeys(c: char)
    requires InGame(c) || Accept(c)
    ensures c in HelpKeys <==> c != 'o'
  {
  }

  /** `send_controls`, with `sep` between each key and its topic (one space in main.c): a '?' is
      answered by the list of controls, which opens with the key 'a'. */
  function ControlsMessage(s: GameState, sep: string): (t: string)
    ensures t != "" <==> s.line.ingame == '?'
    ensures s.line.ingame == '?' ==> |t| >= 3 && t[..3] == "'a'"
  {
    if s.line.ingame == '?' then
      var t := HelpFrom(0, sep);
      assert t == HelpLine(0, sep) + HelpFrom(1, sep);
      t
    else ""
  }
}
