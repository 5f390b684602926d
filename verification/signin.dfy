/** The sign-in message the client signs (`create_sign_message`): the
    message layout of the Message Format section of EIP-4361 (Sign-In with
    Ethereum), issued at a UTC instant written as in section 5.6 of RFC 3339
    with milliseconds. The clock reading is a parameter. */
module SignIn {
  import opened Wrappers
  import opened Strings

  /** A UTC clock reading, as `datetime` holds it. */
  datatype Instant = Instant(year: nat, month: nat, day: nat, hour: nat, minute: nat, second: nat, microsecond: nat)

  predicate ValidInstant(t: Instant) {
    && 1 <= t.year <= 9999 && 1 <= t.month <= 12 && 1 <= t.day <= 31
    && t.hour < 24 && t.minute < 60 && t.second < 60 && t.microsecond < 1000000
  }

  /** `%Y-%m-%d`. */
  function DatePart(t: Instant): (s: string)
    ensures |s| == 10
  {
    Digits(t.year, 4) + "-" + Digits(t.month, 2) + "-" + Digits(t.day, 2)
  }

  /** `%H:%M:%S`. */
  function ClockPart(t: Instant): (s: string)
    ensures |s| == 8
  {
    Digits(t.hour, 2) + ":" + Digits(t.minute, 2) + ":" + Digits(t.second, 2)
  }

  /** `strftime("%Y-%m-%dT%H:%M:%S.%f")`: every field zero-padded. */
  function Strftime(t: Instant): (s: string)
    ensures |s| == 26
  {
    DatePart(t) + "T" + ClockPart(t) + "." + Digits(t.microsecond, 6)
  }

  /** The `Issued At` value: the microseconds cut to milliseconds by
      dropping the last three characters, then `Z`. */
  function Timestamp(t: Instant): (s: string)
    ensures |s| == 24
  {
    var full := Strftime(t);
    full[..|full| - 3] + "Z"
  }

  predicate AllDigits(s: string) {
    forall i :: 0 <= i < |s| ==> IsDigit(s[i])
  }

  /** Where the pieces of `a x b y c` sit. */
  lemma Pieces(a: string, x: char, b: string, y: char, c: string)
    ensures var s := a + [x] + b + [y] + c;
      && s[..|a|] == a && s[|a|] == x && s[|a| + 1..|a| + 1 + |b|] == b
      && s[|a| + 1 + |b|] == y && s[|a| + 2 + |b|..] == c
  {
    var s := a + [x] + b + [y] + c;
    assert s[|a| + 2 + |b|..] == c;
  }

  /** Every character of `a x b y c` is a character of a piece. */
  lemma PiecesChars(a: string, x: char, b: string, y: char, c: string, ch: char)
    requires ch in a + [x] + b + [y] + c
    ensures ch in a || ch == x || ch in b || ch == y || ch in c
  {
    var s := a + [x] + b + [y] + c;
    var i :| 0 <= i < |s| && s[i] == ch;
    if i < |a| { assert s[i] == a[i]; }
    else if |a| < i < |a| + 1 + |b| { assert s[i] == b[i - |a| - 1]; }
    else if i > |a| + 1 + |b| { assert s[i] == c[i - |a| - 2 - |b|]; }
  }

  lemma DatePartLayout(t: Instant)
    requires ValidInstant(t)
    ensures var s := DatePart(t);
      && s[4] == '-' && s[7] == '-'
      && AllDigits(s[0..4]) && DecimalValue(s[0..4]) == t.year
      && AllDigits(s[5..7]) && DecimalValue(s[5..7]) == t.month
      && AllDigits(s[8..10]) && DecimalValue(s[8..10]) == t.day
  {
    Pieces(Digits(t.year, 4), '-', Digits(t.month, 2), '-', Digits(t.day, 2));
    DigitsValue(t.year, 4);
    DigitsValue(t.month, 2);
    DigitsValue(t.day, 2);
  }

  lemma ClockPartLayout(t: Instant)
    requires ValidInstant(t)
    ensures var s := ClockPart(t);
      && s[2] == ':' && s[5] == ':'
      && AllDigits(s[0..2]) && DecimalValue(s[0..2]) == t.hour
      && AllDigits(s[3..5]) && DecimalValue(s[3..5]) == t.minute
      && AllDigits(s[6..8]) && DecimalValue(s[6..8]) == t.second
  {
    Pieces(Digits(t.hour, 2), ':', Digits(t.minute, 2), ':', Digits(t.second, 2));
    DigitsValue(t.hour, 2);
    DigitsValue(t.minute, 2);
    DigitsValue(t.second, 2);
  }

  /** The timestamp is the date, `T`, the clock, `.`, the milliseconds and `Z`. */
  lemma TimestampPieces(t: Instant)
    ensures Timestamp(t) == DatePart(t) + ['T'] + ClockPart(t) + ['.'] + (Digits(t.microsecond / 1000, 3) + "Z")
  {
    var micro := Digits(t.microsecond, 6);
    var full := Strftime(t);
    assert full == DatePart(t) + ['T'] + ClockPart(t) + ['.'] + micro;
    assert full[..23] == DatePart(t) + ['T'] + ClockPart(t) + ['.'] + micro[..3];
    DigitsPrefix(t.microsecond, 3, 3);
  }

  /** The layout `YYYY-MM-DDTHH:MM:SS.mmmZ`: the six separators and the
      final `Z` at fixed places, and between them digit fields that read
      back as the instant's values, the last as its milliseconds. */
  lemma TimestampLayout(t: Instant)
    requires ValidInstant(t)
    ensures var s := Timestamp(t);
      && s[4] == '-' && s[7] == '-' && s[10] == 'T' && s[13] == ':' && s[16] == ':' && s[19] == '.' && s[23] == 'Z'
      && AllDigits(s[0..4]) && DecimalValue(s[0..4]) == t.year
      && AllDigits(s[5..7]) && DecimalValue(s[5..7]) == t.month
      && AllDigits(s[8..10]) && DecimalValue(s[8..10]) == t.day
      && AllDigits(s[11..13]) && DecimalValue(s[11..13]) == t.hour
      && AllDigits(s[14..16]) && DecimalValue(s[14..16]) == t.minute
      && AllDigits(s[17..19]) && DecimalValue(s[17..19]) == t.second
      && AllDigits(s[20..23]) && DecimalValue(s[20..23]) == t.microsecond / 1000
  {
    var s := Timestamp(t);
    var date, clock, ms := DatePart(t), ClockPart(t), Digits(t.microsecond / 1000, 3);
    TimestampPieces(t);
    Pieces(date, 'T', clock, '.', ms + "Z");
    DatePartLayout(t);
    ClockPartLayout(t);
    assert s[..10] == date && s[11..19] == clock && s[20..] == ms + "Z";
    assert s[0..4] == date[0..4] && s[5..7] == date[5..7] && s[8..10] == date[8..10];
    assert s[11..13] == clock[0..2] && s[14..16] == clock[3..5] && s[17..19] == clock[6..8];
    assert s[20..23] == ms;
    DigitsValue(t.microsecond / 1000, 3);
  }

  /** Two instants in the same millisecond give the same timestamp, and
      instants in different milliseconds different ones. */
  lemma TimestampInjective(t: Instant, u: Instant)
    requires ValidInstant(t) && ValidInstant(u)
    ensures Timestamp(t) == Timestamp(u) <==>
      t.(microsecond := t.microsecond / 1000) == u.(microsecond := u.microsecond / 1000)
  {
    TimestampLayout(t);
    TimestampLayout(u);
    if t.(microsecond := t.microsecond / 1000) == u.(microsecond := u.microsecond / 1000) {
      DigitsPrefix(t.microsecond, 3, 3);
      DigitsPrefix(u.microsecond, 3, 3);
    }
  }

  const Origin := "https://chainopera.ai"
  const Greeting := Origin + " wants you to sign in" + " with your Ethereum account:"

  /** The message's lines, in order. */
  function MessageLines(address: string, nonce: string, t: Instant): (lines: seq<string>)
    ensures |lines| == 10
  {
    [ Greeting,
      address,
      "",
      "Sign in with Ethereum",
      "",
      "URI: " + Origin,
      "Version: 1",
      "Chain ID: 1",
      "Nonce: " + nonce,
      "Issued At: " + Timestamp(t) ]
  }

  /** `create_sign_message(address, nonce)` at the instant `t`. */
  function SignMessage(address: string, nonce: string, t: Instant): string {
    Join("\n", MessageLines(address, nonce, t))
  }

  lemma DigitsHaveNoNewline(n: nat, width: nat)
    ensures '\n' !in Digits(n, width)
  {
  }

  lemma TimestampHasNoNewline(t: Instant)
    ensures '\n' !in Timestamp(t)
  {
    var date, clock, ms := DatePart(t), ClockPart(t), Digits(t.microsecond / 1000, 3);
    TimestampPieces(t);
    DigitsHaveNoNewline(t.year, 4);
    DigitsHaveNoNewline(t.month, 2);
    DigitsHaveNoNewline(t.day, 2);
    DigitsHaveNoNewline(t.hour, 2);
    DigitsHaveNoNewline(t.minute, 2);
    DigitsHaveNoNewline(t.second, 2);
    DigitsHaveNoNewline(t.microsecond / 1000, 3);
    NoNewlineConcat(ms, "Z");
    NoNewlinePieces(Digits(t.year, 4), '-', Digits(t.month, 2), '-', Digits(t.day, 2));
    NoNewlinePieces(Digits(t.hour, 2), ':', Digits(t.minute, 2), ':', Digits(t.second, 2));
    NoNewlinePieces(date, 'T', clock, '.', ms + "Z");
  }

  lemma NoNewlinePieces(a: string, x: char, b: string, y: char, c: string)
    requires '\n' !in a && '\n' !in b && '\n' !in c && x != '\n' && y != '\n'
    ensures '\n' !in a + [x] + b + [y] + c
  {
    if '\n' in a + [x] + b + [y] + c {
      PiecesChars(a, x, b, y, c, '\n');
    }
  }

  lemma NoNewlineConcat(a: string, b: string)
    requires '\n' !in a && '\n' !in b
    ensures '\n' !in a + b
  {
    forall i | 0 <= i < |a + b| ensures (a + b)[i] != '\n' {
      if i < |a| { assert (a + b)[i] == a[i]; } else { assert (a + b)[i] == b[i - |a|]; }
    }
  }

  /** The fixed lines hold no line break. */
  lemma FixedLinesHaveNoNewline()
    ensures '\n' !in Greeting && '\n' !in "Sign in with Ethereum" && '\n' !in "URI: " + Origin
    ensures '\n' !in "Version: 1" && '\n' !in "Chain ID: 1"
  {
    NoNewlineConcat(Origin, " wants you to sign in");
    NoNewlineConcat(Origin + " wants you to sign in", " with your Ethereum account:");
    NoNewlineConcat("URI: ", Origin);
  }

  /** Only the address and the nonce can bring a line break into a line. */
  lemma MessageLinesHaveNoNewline(address: string, nonce: string, t: Instant)
    requires '\n' !in address && '\n' !in nonce
    ensures forall i :: 0 <= i < 10 ==> '\n' !in MessageLines(address, nonce, t)[i]
  {
    var lines := MessageLines(address, nonce, t);
    FixedLinesHaveNoNewline();
    TimestampHasNoNewline(t);
    NoNewlineConcat("Nonce: ", nonce);
    NoNewlineConcat("Issued At: ", Timestamp(t));
    forall i | 0 <= i < 10 ensures '\n' !in lines[i] {
      if i == 0 { assert lines[i] == Greeting; }
      else if i == 1 { assert lines[i] == address; }
      else if i == 2 || i == 4 { assert lines[i] == ""; }
      else if i == 3 { assert lines[i] == "Sign in with Ethereum"; }
      else if i == 5 { assert lines[i] == "URI: " + Origin; }
      else if i == 6 { assert lines[i] == "Version: 1"; }
      else if i == 7 { assert lines[i] == "Chain ID: 1"; }
      else if i == 8 { assert lines[i] == "Nonce: " + nonce; }
      else { assert lines[i] == "Issued At: " + Timestamp(t); }
    }
  }

  /** Round trip: when the address and the nonce hold no line break, the
      message splits at its line breaks back into exactly its ten lines, so
      every line sits at its fixed position. */
  lemma SignMessageSplits(address: string, nonce: string, t: Instant)
    requires '\n' !in address && '\n' !in nonce
    ensures Split(SignMessage(address, nonce, t), '\n') == MessageLines(address, nonce, t)
    ensures var lines := Split(SignMessage(address, nonce, t), '\n');
      && |lines| == 10
      && lines[0] == Greeting
      && lines[1] == address
      && lines[2] == "" && lines[3] == "Sign in with Ethereum" && lines[4] == ""
      && lines[5..8] == ["URI: " + Origin, "Version: 1", "Chain ID: 1"]
      && lines[8] == "Nonce: " + nonce
      && lines[9] == "Issued At: " + Timestamp(t)
  {
    MessageLinesHaveNoNewline(address, nonce, t);
    SplitJoin(MessageLines(address, nonce, t), '\n');
  }

  /** For a fixed clock reading, the message determines the address and the
      nonce (when neither holds a line break). */
  lemma SignMessageInjective(address: string, nonce: string, address': string, nonce': string, t: Instant)
    requires '\n' !in address && '\n' !in nonce && '\n' !in address' && '\n' !in nonce'
    requires SignMessage(address, nonce, t) == SignMessage(address', nonce', t)
    ensures address == address' && nonce == nonce'
  {
    SignMessageSplits(address, nonce, t);
    SignMessageSplits(address', nonce', t);
    var lines, lines' := MessageLines(address, nonce, t), MessageLines(address', nonce', t);
    assert lines == lines';
    assert lines[8] == lines'[8];
    assert "Nonce: " + nonce == "Nonce: " + nonce';
    assert nonce == ("Nonce: " + nonce)[7..];
    assert nonce' == ("Nonce: " + nonce')[7..];
  }

  /** The message opens with the greeting line followed by the address,
      whatever the address and nonce. */
  lemma SignMessageStart(address: string, nonce: string, t: Instant)
    ensures StartsWith(SignMessage(address, nonce, t), Greeting + "\n" + address + "\n")
  {
    var lines := MessageLines(address, nonce, t);
    var rest := Join("\n", lines[2..]);
    JoinCons("\n", lines);
    JoinCons("\n", lines[1..]);
    assert lines[1..][1..] == lines[2..];
    assert SignMessage(address, nonce, t) == (Greeting + "\n" + address + "\n") + rest;
  }

  /** The message closes with the `Issued At` line, whatever the address
      and nonce. */
  lemma SignMessageEnd(address: string, nonce: string, t: Instant)
    ensures var m := SignMessage(address, nonce, t);
      var tail := "\nIssued At: " + Timestamp(t);
      |tail| <= |m| && m[|m| - |tail|..] == tail
  {
    var lines := MessageLines(address, nonce, t);
    JoinEndsWith(lines, "\n");
    assert "\n" + lines[9] == "\nIssued At: " + Timestamp(t);
  }

  lemma JoinCons(sep: string, parts: seq<string>)
    requires |parts| >= 2
    ensures Join(sep, parts) == parts[0] + sep + Join(sep, parts[1..])
  {
  }

  /** A join of two or more parts ends with the separator and the last part. */
  lemma {:induction false} JoinEndsWith(parts: seq<string>, sep: string)
    requires |parts| >= 2
    ensures var j := Join(sep, parts);
      var tail := sep + parts[|parts| - 1];
      |tail| <= |j| && j[|j| - |tail|..] == tail
    decreases |parts|
  {
    var j := Join(sep, parts);
    if |parts| == 2 {
      assert Join(sep, parts[1..]) == parts[1];
    } else {
      JoinEndsWith(parts[1..], sep);
      assert parts[1..][|parts[1..]| - 1] == parts[|parts| - 1];
    }
  }
}
