/** The serial command line of main.c (`get_command`, `clean_char_list`, `reset_char`): one
    character arrives per tick; a command letter, then its decimal argument, then a carriage
    return, which hands the command to its handler. Single-key controls go to a separate
    one-character buffer that the game loop consumes within the tick. */
module Console {
  import opened CRuntime

  /** `char_code` when no command is pending (32, the space character). */
  const Idle: char := ' '

  /** What `usb_serial_getchar` returns when nothing has arrived: -1, which is the byte 0xFF
      once stored in the `char` variable `char_buffer`. */
  const NoInput: char := 'ÿ'

  /** The carriage return (0x0D) that ends a command. */
  const Enter: char := '\r'

  /** `accept_char`: the letters that start a command taking a number. */
  predicate Accept(c: char) {
    c == 't' || c == 'm' || c == 'l' || c == 'g' || c == 'h'
    || c == 'j' || c == 'k' || c == 'i' || c == 'o'
  }

  /** `ingame_char`: the single-key controls. */
  predicate InGame(c: char) {
    c == 'a' || c == 'd' || c == 'w' || c == 's' || c == 'r' || c == 'p' || c == 'q' || c == '?'
  }

  /** The state of the command line: `char_code`, the digit buffer `list` with its write index
      `char_counter`, the minus-sign flag `isNegative`, and `ingame_buffer`. The buffer is
      declared with five characters and is written without a bounds check; the sequence grows
      when a digit is stored one past its end. */
  datatype Line = Line(code: char, digits: seq<char>, counter: nat, negative: bool, ingame: char)

  predicate ValidLine(l: Line) {
    l.counter <= |l.digits| && |l.digits| >= 5
  }

  /** Five NUL characters, the content `clean_char_list` gives the buffer. */
  const Blank: seq<char> := ['\0', '\0', '\0', '\0', '\0']

  /** The line at power-up: all globals zero except `char_code`, which starts at 32. */
  const Start: Line := Line(Idle, Blank, 0, false, '\0')

  /** A command letter is waiting for its number (`char_code != 32 && char_code != 0 &&
      accept_char(char_code)`). */
  predicate Pending(code: char) {
    code != Idle && code != '\0' && Accept(code)
  }

  /** `get_command` up to, but not including, the dispatch on a carriage return. A digit is
      stored when a command is pending; otherwise a command letter is taken when none is
      pending; otherwise a control key goes to the in-game buffer. Independently a '-' marks
      the argument of a pending 'o' as negative. */
  function Receive(l: Line, c: char): (r: Line)
    requires ValidLine(l)
    ensures ValidLine(r)
    ensures Accept(l.code) ==> r.code == l.code
    ensures r.code != l.code ==> (l.code == Idle || l.code == '\0') && Accept(c) && r.code == c
    ensures (l.code == Idle || l.code == '\0') && Accept(c) ==> r.code == c
    ensures r.counter == l.counter || (Pending(l.code) && IsDigit(c) && r.counter == l.counter + 1)
    ensures Pending(l.code) && IsDigit(c) ==> r.counter == l.counter + 1 && r.digits[l.counter] == c
    ensures |r.digits| == (if r.counter > |l.digits| then r.counter else |l.digits|)
    ensures forall i :: 0 <= i < |l.digits| && i != l.counter ==> r.digits[i] == l.digits[i]
    ensures r.ingame == l.ingame || (InGame(c) && r.ingame == c)
    ensures InGame(c) ==> r.ingame == c
    ensures r.negative <==> l.negative || (c == '-' && l.code == 'o')
  {
    var l1 :=
      if IsDigit(c) && Pending(l.code) then l.(digits := Put(l.digits, l.counter, c), counter := l.counter + 1)
      else if Accept(c) && (l.code == Idle || l.code == '\0') then l.(code := c)
      else if InGame(c) then l.(ingame := c)
      else l;
    if c == '-' && l1.code == 'o' then l1.(negative := true) else l1
  }

  /** Characters that are neither digits, command letters, control keys nor '-' leave the line
      as it was; in particular so does an empty read. */
  lemma IgnoredLeavesLine(l: Line, c: char)
    requires ValidLine(l)
    requires !IsDigit(c) && !Accept(c) && !InGame(c) && c != '-'
    ensures Receive(l, c) == l
  {
  }

  /** A digit that arrives while no command is pending is dropped. */
  lemma StrayDigitDropped(l: Line, c: char)
    requires ValidLine(l) && IsDigit(c) && !Pending(l.code)
    ensures Receive(l, c) == l
  {
  }

  /** `clean_char_list`: the five declared characters become NUL and the write index returns to
      0; memory written past the array is left as it is. */
  function Clean(l: Line): (r: Line)
    requires ValidLine(l)
    ensures ValidLine(r) && r.counter == 0 && |r.digits| == |l.digits|
    ensures r.digits[..5] == Blank && r.digits[5..] == l.digits[5..]
    ensures Atoi(r.digits) == 0
    ensures r.code == l.code && r.negative == l.negative && r.ingame == l.ingame
  {
    var d := Blank + l.digits[5..];
    assert d[0] == '\0';
    l.(digits := d, counter := 0)
  }

  /** `reset_char`: clean the buffer and drop the pending command. */
  function Reset(l: Line): (r: Line)
    requires ValidLine(l)
    ensures ValidLine(r) && r.counter == 0 && r.code == Idle
    ensures r.digits[..5] == Blank && r.digits[5..] == l.digits[5..]
    ensures Atoi(r.digits) == 0
    ensures r.negative == l.negative && r.ingame == l.ingame
  {
    Clean(l).(code := Idle)
  }

  /** The argument a handler reads: `atoi(list)`, an `int` of 16 bits, so five digits can
      wrap around. The end of the modelled buffer reads as a terminator: after five or more
      digits `atoi` goes on into whatever memory follows `list`, which is not modelled. */
  function Argument(l: Line): int {
    AtoiInt(l.digits)
  }

  /** A run of characters received one after the other, with no carriage return among them. */
  function ReceiveAll(l: Line, s: seq<char>): (r: Line)
    requires ValidLine(l)
    ensures ValidLine(r)
    decreases |s|
  {
    if |s| == 0 then l else Receive(ReceiveAll(l, s[..|s| - 1]), s[|s| - 1])
  }

  /** `r` is `l` after the digits `s` were stored from the write index on. */
  predicate Typed(l: Line, r: Line, s: seq<char>)
    requires ValidLine(l) && ValidLine(r)
  {
    r.code == l.code
    && r.counter == l.counter + |s|
    && |r.digits| == (if l.counter + |s| > |l.digits| then l.counter + |s| else |l.digits|)
    && r.digits[..l.counter] == l.digits[..l.counter]
    && r.digits[l.counter..l.counter + |s|] == s
    && forall i :: l.counter + |s| <= i < |l.digits| ==> r.digits[i] == l.digits[i]
  }

  lemma TypedStep(l: Line, m: Line, s: seq<char>, c: char)
    requires ValidLine(l) && ValidLine(m) && Pending(l.code) && IsDigit(c)
    requires Typed(l, m, s)
    ensures Typed(l, Receive(m, c), s + [c])
  {
    var r := Receive(m, c);
    assert r.digits[l.counter..l.counter + |s| + 1] == m.digits[l.counter..l.counter + |s|] + [c];
    assert r.digits[..l.counter] == m.digits[..l.counter];
  }

  /** Digits typed after a command letter are stored one after the other from the write index;
      the command stays pending and every other buffer position keeps its character. */
  lemma {:induction false} ReceiveDigits(l: Line, s: seq<char>)
    requires ValidLine(l) && Pending(l.code) && AllDigits(s)
    ensures Typed(l, ReceiveAll(l, s), s)
    decreases |s|
  {
    if |s| == 0 {
      assert l.digits[l.counter..l.counter] == s;
    } else {
      var s' := s[..|s| - 1];
      assert AllDigits(s');
      ReceiveDigits(l, s');
      TypedStep(l, ReceiveAll(l, s'), s', s[|s| - 1]);
      assert s' + [s[|s| - 1]] == s;
    }
  }

  /** A number of at most four digits typed after a command letter on a clean buffer is read
      back by `atoi` as the number itself. */
  lemma TypedNumber(l: Line, n: nat)
    requires ValidLine(l) && Pending(l.code) && l.counter == 0 && l.digits[..5] == Blank
    requires n < 10000
    ensures Argument(ReceiveAll(l, Itoa(n))) == n
  {
    var s := Itoa(n);
    DigitsShort(n);
    ReceiveDigits(l, s);
    var r := ReceiveAll(l, s);
    TerminatedRun(l, r, s);
    ReadBack(r.digits, s);
    AtoiItoa(n);
  }

  /** Typing fewer than five digits on a clean buffer leaves a NUL right after them. */
  lemma TerminatedRun(l: Line, r: Line, s: seq<char>)
    requires ValidLine(l) && ValidLine(r) && l.counter == 0 && l.digits[..5] == Blank
    requires |s| <= 4 && Typed(l, r, s)
    ensures r.digits[..|s| + 1] == s + ['\0']
  {
    assert r.digits[|s|] == l.digits[|s|] == Blank[|s|];
    assert r.digits[..|s|] == r.digits[0..|s|];
  }

  /** A buffer that starts with digits and a NUL reads as those digits. */
  lemma ReadBack(d: seq<char>, s: seq<char>)
    requires AllDigits(s) && |d| > |s| && d[..|s| + 1] == s + ['\0']
    ensures Atoi(d) == Atoi(s + ['\0'])
  {
    DigitRunOfDigits(s, ['\0']);
    AtoiPrefix(d, |s| + 1);
  }

  lemma {:induction false} DigitsShort(n: nat)
    requires n < 10000
    ensures |Itoa(n)| <= 4
  {
    if n >= 10 {
      assert Itoa(n) == Digits(n / 10) + [DigitChar(n % 10)];
      DigitsShort3(n / 10);
    }
  }

  lemma DigitsShort3(n: nat)
    requires n < 1000
    ensures |Digits(n)| <= 3
  {
    if n >= 10 {
      assert |Digits(n / 10)| <= 2 by {
        if n / 10 >= 10 {
          assert Digits(n / 10) == Digits(n / 100) + [DigitChar((n / 10) % 10)];
        }
      }
    }
  }

  /** `atoi` stops at the first non-digit, so whatever follows it is never read. */
  lemma AtoiPrefix(s: seq<char>, k: nat)
    requires k <= |s| && DigitRun(s[..k]) < k
    ensures Atoi(s) == Atoi(s[..k])
  {
    var j := DigitRun(s[..k]);
    assert s[..k][j] == s[j];
    assert s[..j] == s[..k][..j];
    DigitRunOfPrefix(s, k);
  }

  lemma {:induction false} DigitRunOfPrefix(s: seq<char>, k: nat)
    requires k <= |s| && DigitRun(s[..k]) < k
    ensures DigitRun(s) == DigitRun(s[..k])
    decreases k
  {
    if |s| > 0 && IsDigit(s[0]) {
      assert s[..k][0] == s[0];
      assert s[..k][1..] == s[1..][..k - 1];
      DigitRunOfPrefix(s[1..], k - 1);
    }
  }

  /** The buffer has room for five digits but is written without a check: a sixth digit lands
      one past the declared array. */
  lemma SixthDigitOverruns(l: Line)
    requires ValidLine(l) && Pending(l.code) && l.counter == 0 && |l.digits| == 5
    ensures |ReceiveAll(l, "123456").digits| == 6
  {
    ReceiveDigits(l, "123456");
  }
}
