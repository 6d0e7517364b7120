/** The `%q` format, and the reader of quoted strings that takes it back. */
module Quoting {
  import opened Basics

  /** How a character is written between quotes. */
  function QuotedChar(c: char): string {
    match c
    case '"' => "\\\""
    case '\\' => "\\\\"
    case '\n' => "\\\n"
    case '\r' => "\\r"
    case '\0' => "\\000"
    case _ => [c]
  }

  function QuotedBody(s: string): string {
    if s == "" then "" else QuotedChar(s[0]) + QuotedBody(s[1..])
  }

  lemma BodyStep(b: string, s: string, i: nat)
    requires i < |s|
    ensures b + QuotedBody(s[i..]) == b + QuotedChar(s[i]) + QuotedBody(s[i + 1..])
  {
    assert s[i..][0] == s[i] && s[i..][1..] == s[i + 1..];
  }

  /** addquoted: `s` is added to the buffer as a quoted string. */
  method AddQuoted(b0: string, s: string) returns (b: string)
    ensures b == b0 + "\"" + QuotedBody(s) + "\""
  {
    hide QuotedBody;
    BodyEnd(s);
    b := b0 + "\"";
    var i := 0;
    while i < |s|
      invariant 0 <= i <= |s| && b + QuotedBody(s[i..]) == b0 + "\"" + QuotedBody(s)
    {
      BodyStep(b, s, i);
      match s[i] {
        case '"' => b := b + "\\\"";
        case '\\' => b := b + "\\\\";
        case '\n' => b := b + "\\\n";
        case '\r' => b := b + "\\r";
        case '\0' => b := b + "\\000";
        case _ => b := b + [s[i]];
      }
      i := i + 1;
    }
    BodyEnd(s);
    b := b + "\"";
  }

  lemma BodyEnd(s: string)
    ensures QuotedBody(s[|s|..]) == "" && s[0..] == s
  {
  }

  // ---------------------------------------------------------------- reading

  datatype Error = UnfinishedString | EscapeTooLarge | TooManyLines
  datatype Result = Ok(s: string, rest: string, line: int) | Err(error: Error)

  predicate IsNewline(c: char) { c == '\n' || c == '\r' }

  /** inclinenumber: a newline of one or two characters is skipped. */
  function SkipNewline(t: string): (r: string)
    requires t != "" && IsNewline(t[0])
    ensures |r| < |t|
  {
    if |t| > 1 && IsNewline(t[1]) && t[1] != t[0] then t[2..] else t[1..]
  }

  /** The digits of a decimal escape, at most three, and what follows them. */
  function Digits(t: string, n: nat, c: nat): (r: (nat, string))
    ensures |r.1| <= |t| && (n > 0 && t != "" && IsDigit(t[0]) ==> |r.1| < |t|)
    decreases n
  {
    if n > 0 && t != "" && IsDigit(t[0]) then Digits(t[1..], n - 1, 10 * c + (t[0] as int - '0' as int)) else (c, t)
  }

  /** The control characters that have an escape. */
  function Control(c: char): char {
    match c
    case 'a' => '\U{7}'
    case 'b' => '\U{8}'
    case 'f' => '\U{c}'
    case 'n' => '\n'
    case 'r' => '\r'
    case 't' => '\t'
    case 'v' => '\U{b}'
    case _ => '\0'
  }

  /** read_string, after the delimiter: the string read, what follows, and the line number. */
  function Read(t: string, del: char, line: int, acc: string): Result
    decreases |t|
  {
    if t == "" then Err(UnfinishedString)
    else if t[0] == del then Ok(acc, t[1..], line)
    else if IsNewline(t[0]) then Err(UnfinishedString)
    else if t[0] != '\\' then Read(t[1..], del, line, acc + [t[0]])
    else if |t| == 1 then Err(UnfinishedString)
    else if IsNewline(t[1]) then
      if line + 1 >= MAX_INT then Err(TooManyLines) else Read(SkipNewline(t[1..]), del, line + 1, acc + "\n")
    else if Control(t[1]) != '\0' then Read(t[2..], del, line, acc + [Control(t[1])])
    else if !IsDigit(t[1]) then Read(t[2..], del, line, acc + [t[1]])
    else
      var (c, rest) := Digits(t[1..], 3, 0);
      if c > 255 then Err(EscapeTooLarge) else Read(rest, del, line, acc + [c as char])
  }

  class LexState {
    const input: string
    var pos: nat            // the current character
    var linenumber: int

    constructor (input: string, linenumber: int)
      ensures this.input == input && pos == 0 && this.linenumber == linenumber
    {
      this.input, this.linenumber := input, linenumber;
      pos := 0;
    }

    predicate Valid()
      reads this
    {
      pos <= |input|
    }

    function Rest(): string
      requires Valid()
      reads this
    {
      input[pos..]
    }

    /** inclinenumber */
    method IncLineNumber() returns (ok: bool)
      requires Valid() && Rest() != "" && IsNewline(Rest()[0])
      modifies this
      ensures Valid() && Rest() == SkipNewline(old(Rest())) && linenumber == old(linenumber) + 1
      ensures ok <==> linenumber < MAX_INT
    {
      var old_ := input[pos];
      pos := pos + 1;
      if pos < |input| && IsNewline(input[pos]) && input[pos] != old_ {
        pos := pos + 1;
      }
      linenumber := linenumber + 1;
      ok := linenumber < MAX_INT;
    }

    /** The digits of `\ddd`. */
    method ReadDigits() returns (c: nat)
      requires Valid() && Rest() != "" && IsDigit(Rest()[0])
      modifies this`pos
      ensures Valid() && (c, Rest()) == Digits(old(Rest()), 3, 0)
    {
      c := 0;
      var i := 0;
      while i < 3 && pos < |input| && IsDigit(input[pos])
        invariant Valid() && 0 <= i <= 3 && Digits(Rest(), 3 - i, c) == Digits(old(Rest()), 3, 0)
        decreases 3 - i
      {
        assert Rest()[1..] == input[pos + 1..];
        c := 10 * c + (input[pos] as int - '0' as int);
        pos := pos + 1;
        i := i + 1;
      }
    }

    /** What follows a backslash. */
    method ReadEscape(s0: string, del: char, ghost t: string) returns (ok: bool, error: Error, s: string)
      requires Valid() && t != "" && t[0] == '\\' != del && Rest() == t[1..] != ""
      modifies this
      ensures Valid()
      ensures !ok ==> Read(t, del, old(linenumber), s0) == Err(error)
      ensures ok ==> |Rest()| < |t| && Read(t, del, old(linenumber), s0) == Read(Rest(), del, linenumber, s)
    {
      s, error := s0, UnfinishedString;
      var c := input[pos];
      assert c == t[1] && t[2..] == input[pos + 1..];
      if IsNewline(c) {
        s := s + "\n";
        ok := IncLineNumber();
        if !ok {
          error := TooManyLines;
        }
      } else if Control(c) != '\0' {
        s := s + [Control(c)];
        pos := pos + 1;
        ok := true;
      } else if !IsDigit(c) {
        s := s + [c];
        pos := pos + 1;
        ok := true;
      } else {
        var n := ReadDigits();
        if n > 255 {
          return false, EscapeTooLarge, s;
        }
        s := s + [n as char];
        ok := true;
      }
    }

    /** read_string */
    method ReadString(del: char) returns (r: Result)
      requires Valid() && Rest() != "" && Rest()[0] == del && del != '\\'
      modifies this
      ensures Valid() && r == Read(old(Rest())[1..], del, old(linenumber), "")
      ensures r.Ok? ==> Rest() == r.rest && linenumber == r.line
    {
      ghost var t0, line0 := Rest()[1..], linenumber;
      pos := pos + 1;
      var s := "";
      while pos < |input| && input[pos] != del
        invariant Valid() && Read(t0, del, line0, "") == Read(Rest(), del, linenumber, s)
        decreases |input| - pos
      {
        ghost var t := Rest();
        assert t[1..] == input[pos + 1..];
        if IsNewline(input[pos]) {
          return Err(UnfinishedString);
        } else if input[pos] == '\\' {
          pos := pos + 1;
          if pos < |input| {
            var ok, error;
            ok, error, s := ReadEscape(s, del, t);
            if !ok {
              return Err(error);
            }
          }
        } else {
          s := s + [input[pos]];
          pos := pos + 1;
        }
      }
      if pos == |input| {
        return Err(UnfinishedString);
      }
      assert Rest()[1..] == input[pos + 1..];
      pos := pos + 1;
      r := Ok(s, Rest(), linenumber);
    }
  }

  // ---------------------------------------------------------------- round trip

  function Newlines(s: string): nat {
    if s == "" then 0 else (if s[0] == '\n' then 1 else 0) + Newlines(s[1..])
  }

  /** What is written for a character is read as that character, whatever follows. */
  lemma ReadQuotedChar(c: char, t: string, line: int, acc: string)
    requires t != "" && t[0] != '\n' && t[0] != '\r'
    ensures Read(QuotedChar(c) + t, '"', line, acc) ==
      if c == '\n' && line + 1 >= MAX_INT then Err(TooManyLines)
      else Read(t, '"', if c == '\n' then line + 1 else line, acc + [c])
  {
    var u := QuotedChar(c) + t;
    match c {
      case '\n' =>
        assert u[1..] == ['\n'] + t && SkipNewline(u[1..]) == t;
      case '\0' =>
        assert u[1..] == "000" + t;
        assert u[1..][1..] == "00" + t && u[1..][1..][1..] == "0" + t && u[1..][1..][1..][1..] == t;
        assert Digits(u[1..], 3, 0) == (0, t);
      case '"' => assert u[2..] == t;
      case '\\' => assert u[2..] == t;
      case '\r' => assert u[2..] == t;
      case _ => assert u[1..] == t;
    }
  }

  /** A quoted string is never followed or interrupted by a bare newline. */
  lemma QuotedStart(s: string, rest: string)
    ensures var t := QuotedBody(s) + "\"" + rest; t != "" && t[0] != '\n' && t[0] != '\r'
  {
  }

  lemma {:induction false} ReadQuotedBody(s: string, rest: string, line: int, acc: string)
    requires line < MAX_INT
    ensures Read(QuotedBody(s) + "\"" + rest, '"', line, acc) ==
      if line + Newlines(s) >= MAX_INT then Err(TooManyLines) else Ok(acc + s, rest, line + Newlines(s))
    decreases |s|
  {
    if s == "" {
      assert QuotedBody(s) + "\"" + rest == "\"" + rest && ("\"" + rest)[1..] == rest && acc + s == acc;
    } else {
      var t := QuotedBody(s[1..]) + "\"" + rest;
      assert QuotedBody(s) + "\"" + rest == QuotedChar(s[0]) + t;
      QuotedStart(s[1..], rest);
      ReadQuotedChar(s[0], t, line, acc);
      var line' := if s[0] == '\n' then line + 1 else line;
      if line' < MAX_INT {
        ReadQuotedBody(s[1..], rest, line', acc + [s[0]]);
        assert acc + [s[0]] + s[1..] == acc + s;
      }
    }
  }

  /** Reading what `%q` writes gives back the string, and stops right after the closing quote,
      exactly when there are not too many lines. */
  lemma RoundTrip(s: string, rest: string, line: int)
    requires line < MAX_INT
    ensures Read(QuotedBody(s) + "\"" + rest, '"', line, "") == Ok(s, rest, line + Newlines(s)) <==> line + Newlines(s) < MAX_INT
  {
    ReadQuotedBody(s, rest, line, "");
    assert "" + s == s;
  }

  /** Text without quotes, backslashes, newlines, carriage returns and zeros is written as it is. */
  lemma {:induction false} PlainBody(s: string)
    requires forall i :: 0 <= i < |s| ==> s[i] !in "\"\\\n\r\0"
    ensures QuotedBody(s) == s
  {
    if s != "" {
      PlainBody(s[1..]);
      assert QuotedChar(s[0]) == [s[0]] by {
        var special := "\"\\\n\r\0";
        assert special[0] == '"' && special[1] == '\\' && special[2] == '\n' && special[3] == '\r' && special[4] == '\0';
      }
      assert s == [s[0]] + s[1..];
    }
  }

  // ---------------------------------------------------------------- escapes

  const LETTERS := "abfnrtv"
  const CODES := [7, 8, 12, 10, 13, 9, 11]

  /** The letters stand for the control characters of C. */
  lemma LetterReads(k: nat, rest: string, del: char, line: int, acc: string)
    requires k < |LETTERS| && del != '\\'
    ensures Read("\\" + [LETTERS[k]] + rest, del, line, acc) == Read(rest, del, line, acc + [CODES[k] as char])
  {
    hide Digits;
    var t := "\\" + [LETTERS[k]] + rest;
    assert t[1] == LETTERS[k] && t[2..] == rest;
    assert CODES[0] == 7 && CODES[1] == 8 && CODES[2] == 12 && CODES[3] == 10 && CODES[4] == 13 && CODES[5] == 9 && CODES[6] == 11;
    assert Control(LETTERS[k]) == CODES[k] as char;
  }

  /** Any other character stands for itself. */
  lemma OtherReads(c: char, rest: string, del: char, line: int, acc: string)
    requires c !in LETTERS && !IsDigit(c) && !IsNewline(c) && del != '\\'
    ensures Read("\\" + [c] + rest, del, line, acc) == Read(rest, del, line, acc + [c])
  {
    hide Digits;
    var t := "\\" + [c] + rest;
    assert t[1] == c && t[2..] == rest;
    assert LETTERS[0] == 'a' && LETTERS[1] == 'b' && LETTERS[2] == 'f' && LETTERS[3] == 'n' && LETTERS[4] == 'r' && LETTERS[5] == 't' && LETTERS[6] == 'v';
    assert Control(c) == '\0';
  }

  /** A newline of one or two characters stands for one newline character. */
  lemma NewlineReads(nl: string, rest: string, del: char, line: int, acc: string)
    requires nl in {"\n", "\r", "\n\r", "\r\n"} && del != '\\' && !IsNewline(del)
    requires |nl| == 2 || rest == "" || rest[0] == nl[0] || !IsNewline(rest[0])
    ensures Read("\\" + nl + rest, del, line, acc) ==
      if line + 1 >= MAX_INT then Err(TooManyLines) else Read(rest, del, line + 1, acc + "\n")
  {
    var t := "\\" + nl + rest;
    assert t[1..] == nl + rest && SkipNewline(nl + rest) == rest;
  }

  function DigitValue(c: char): nat
    requires IsDigit(c)
  {
    c as int - '0' as int
  }

  /** The number written with the digits of `d`. */
  function Decimal(d: string): nat
    requires 1 <= |d| <= 3 && forall i :: 0 <= i < |d| ==> IsDigit(d[i])
  {
    if |d| == 1 then DigitValue(d[0])
    else if |d| == 2 then 10 * DigitValue(d[0]) + DigitValue(d[1])
    else 100 * DigitValue(d[0]) + 10 * DigitValue(d[1]) + DigitValue(d[2])
  }

  /** Up to three digits stand for the character with that code, which must not exceed 255. */
  lemma NumberReads(d: string, rest: string, del: char, line: int, acc: string)
    requires 1 <= |d| <= 3 && forall i :: 0 <= i < |d| ==> IsDigit(d[i])
    requires (|d| == 3 || rest == "" || !IsDigit(rest[0])) && del != '\\'
    ensures Read("\\" + d + rest, del, line, acc) ==
      if Decimal(d) > 255 then Err(EscapeTooLarge) else Read(rest, del, line, acc + [Decimal(d) as char])
  {
    var t := "\\" + d + rest;
    assert t[1..] == d + rest && t[1] == d[0];
    DigitsRead(d, rest);
  }

  lemma DigitStep(x: char, t: string, n: nat, c: nat)
    requires IsDigit(x) && n > 0
    ensures Digits([x] + t, n, c) == Digits(t, n - 1, 10 * c + DigitValue(x))
  {
    assert ([x] + t)[1..] == t;
  }

  lemma DigitsStop(t: string, n: nat, c: nat)
    requires n == 0 || t == "" || !IsDigit(t[0])
    ensures Digits(t, n, c) == (c, t)
  {
  }

  lemma OneDigit(x: char, rest: string)
    requires IsDigit(x) && (rest == "" || !IsDigit(rest[0]))
    ensures Digits([x] + rest, 3, 0) == (DigitValue(x), rest)
  {
    hide Digits;
    DigitStep(x, rest, 3, 0);
    DigitsStop(rest, 2, DigitValue(x));
  }

  lemma TwoDigits(x: char, y: char, rest: string)
    requires IsDigit(x) && IsDigit(y) && (rest == "" || !IsDigit(rest[0]))
    ensures Digits([x] + ([y] + rest), 3, 0) == (10 * DigitValue(x) + DigitValue(y), rest)
  {
    hide Digits;
    DigitStep(x, [y] + rest, 3, 0);
    DigitStep(y, rest, 2, DigitValue(x));
    DigitsStop(rest, 1, 10 * DigitValue(x) + DigitValue(y));
  }

  lemma ThreeDigits(x: char, y: char, z: char, rest: string)
    requires IsDigit(x) && IsDigit(y) && IsDigit(z)
    ensures Digits([x] + ([y] + ([z] + rest)), 3, 0) == (100 * DigitValue(x) + 10 * DigitValue(y) + DigitValue(z), rest)
  {
    hide Digits;
    var n := 10 * DigitValue(x) + DigitValue(y);
    DigitStep(x, [y] + ([z] + rest), 3, 0);
    DigitStep(y, [z] + rest, 2, DigitValue(x));
    DigitStep(z, rest, 1, n);
    DigitsStop(rest, 0, 10 * n + DigitValue(z));
  }

  lemma DigitsRead(d: string, rest: string)
    requires 1 <= |d| <= 3 && forall i :: 0 <= i < |d| ==> IsDigit(d[i])
    requires |d| == 3 || rest == "" || !IsDigit(rest[0])
    ensures Digits(d + rest, 3, 0) == (Decimal(d), rest)
  {
    hide Digits, Decimal, DigitValue, IsDigit;
    if |d| == 1 {
      DigitsRead1(d, d[0], rest);
    } else if |d| == 2 {
      DigitsRead2(d, d[0], d[1], rest);
    } else {
      DigitsRead3(d, d[0], d[1], d[2], rest);
    }
  }

  lemma DigitsRead1(d: string, x: char, rest: string)
    requires |d| == 1 && d[0] == x && IsDigit(x) && (rest == "" || !IsDigit(rest[0]))
    ensures Digits(d + rest, 3, 0) == (Decimal(d), rest)
  {
    hide Digits, DigitValue, IsDigit;
    assert d == [x];
    OneDigit(x, rest);
  }

  lemma DigitsRead2(d: string, x: char, y: char, rest: string)
    requires |d| == 2 && d[0] == x && d[1] == y && IsDigit(x) && IsDigit(y) && (rest == "" || !IsDigit(rest[0]))
    ensures Digits(d + rest, 3, 0) == (Decimal(d), rest)
  {
    hide Digits, DigitValue, IsDigit;
    assert d == [x, y];
    Regroup(x, y, y, rest);
    TwoDigits(x, y, rest);
  }

  lemma DigitsRead3(d: string, x: char, y: char, z: char, rest: string)
    requires |d| == 3 && d[0] == x && d[1] == y && d[2] == z && IsDigit(x) && IsDigit(y) && IsDigit(z)
    ensures Digits(d + rest, 3, 0) == (Decimal(d), rest)
  {
    hide Digits, DigitValue, IsDigit;
    assert d == [x, y, z];
    Regroup(x, y, z, rest);
    ThreeDigits(x, y, z, rest);
  }

  lemma Regroup(x: char, y: char, z: char, rest: string)
    ensures [x, y] + rest == [x] + ([y] + rest) && [x, y, z] + rest == [x] + ([y] + ([z] + rest))
  {
  }
}
