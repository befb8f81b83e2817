/**
 * Message building (src/utilities.cpp). `NotifyError` is not a member here:
 * it always throws, which the model expresses as the `Failure` arm of every
 * operation (module Outcomes).
 */
module Utilities {

  /** A C++ `int`. */
  newtype int32 = x: int | -0x8000_0000 <= x < 0x8000_0000

  /** The message of a list of lines: every line followed by a newline, in order. */
  function Message(lines: seq<string>): string
  {
    if lines == [] then "" else Message(lines[..|lines| - 1]) + lines[|lines| - 1] + "\n"
  }

  /** The number of characters of the message: each line plus its newline. */
  function TotalLength(lines: seq<string>): nat
  {
    if lines == [] then 0 else TotalLength(lines[..|lines| - 1]) + |lines[|lines| - 1]| + 1
  }

  /**
   * `CreateMessage(lines)`: appends each line and a newline to an initially
   * empty string.
   */
  method CreateMessage(lines: seq<string>) returns (message: string)
    ensures message == Message(lines)
    ensures |message| == TotalLength(lines)
  {
    message := "";
    var i := 0;
    while i < |lines|
      invariant 0 <= i <= |lines|
      invariant message == Message(lines[..i])
    {
      assert lines[..i + 1][..i] == lines[..i];
      message := message + lines[i] + "\n";
      i := i + 1;
    }
    assert lines[..i] == lines;
    MessageLength(lines);
  }

  /** The empty list gives the empty string. */
  lemma MessageOfNoLines()
    ensures Message([]) == ""
  {
  }

  lemma {:induction false} MessageLength(lines: seq<string>)
    ensures |Message(lines)| == TotalLength(lines)
  {
    if lines != [] {
      MessageLength(lines[..|lines| - 1]);
    }
  }

  /** Building the message of two lists one after the other concatenates their messages. */
  lemma {:induction false} MessageAppend(a: seq<string>, b: seq<string>)
    ensures Message(a + b) == Message(a) + Message(b)
  {
    if b == [] {
      assert a + b == a;
    } else {
      var n := |b| - 1;
      assert (a + b)[..|a + b| - 1] == a + b[..n];
      MessageAppend(a, b[..n]);
    }
  }

  /** Line `k` of the list sits in the message right after the lines before it, and is followed by a newline. */
  lemma MessageLineAt(lines: seq<string>, k: nat)
    requires k < |lines|
    ensures var start := |Message(lines[..k])|;
      start + |lines[k]| < |Message(lines)|
      && Message(lines)[start..start + |lines[k]|] == lines[k]
      && Message(lines)[start + |lines[k]|] == '\n'
  {
    assert lines == lines[..k] + [lines[k]] + lines[k + 1..];
    MessageAppend(lines[..k] + [lines[k]], lines[k + 1..]);
    MessageAppend(lines[..k], [lines[k]]);
    assert [lines[k]][..0] == [];
  }

  function DigitChar(d: nat): char
    requires d < 10
  {
    "0123456789"[d]
  }

  function DigitValue(c: char): nat
  {
    if '0' <= c <= '9' then (c - '0') as nat else 0
  }

  /** Decimal digits of a natural number, most significant first, no leading zero. */
  function NatDecimal(n: nat): (s: string)
    ensures |s| > 0
    ensures n == 0 ==> s == "0"
    ensures n > 0 ==> s[0] != '0'
    decreases n
  {
    if n < 10 then [DigitChar(n)] else NatDecimal(n / 10) + [DigitChar(n % 10)]
  }

  /** `std::to_string(int)`: a minus sign for negative numbers, then the digits. */
  function Decimal(n: int32): string
  {
    if n < 0 then "-" + NatDecimal(-(n as int)) else NatDecimal(n as int)
  }

  /** Reading back decimal digits, most significant first. */
  function ParseNat(s: string): nat
  {
    if s == [] then 0 else ParseNat(s[..|s| - 1]) * 10 + DigitValue(s[|s| - 1])
  }

  function ParseInt(s: string): int
  {
    if s != [] && s[0] == '-' then -(ParseNat(s[1..]) as int) else ParseNat(s)
  }

  lemma {:induction false} NatDecimalRoundTrip(n: nat)
    ensures ParseNat(NatDecimal(n)) == n
    ensures NatDecimal(n)[0] != '-'
    decreases n
  {
    if n >= 10 {
      NatDecimalRoundTrip(n / 10);
      var s := NatDecimal(n);
      assert s[..|s| - 1] == NatDecimal(n / 10);
    }
  }

  /** The decimal rendering of a line number reads back as that number. */
  lemma DecimalRoundTrip(n: int32)
    ensures ParseInt(Decimal(n)) == n as int
  {
    var m: nat := if n < 0 then -(n as int) else n as int;
    NatDecimalRoundTrip(m);
    var digits := NatDecimal(m);
    if n < 0 {
      var s := "-" + digits;
      assert Decimal(n) == s;
      assert s[0] == '-' && s[1..] == digits;
    } else {
      assert Decimal(n) == digits;
    }
  }

  /** The location the located overload appends as a last line. */
  function Location(file: string, line: int32, function_: string): string
  {
    file + " : " + Decimal(line) + " : " + function_
  }

  /**
   * The located `CreateMessage(lines, file, line, function)`: the message of
   * the lines with one more line naming the file, the line number and the
   * function, separated by " : ".
   */
  method CreateMessageAt(lines: seq<string>, file: string, line: int32, function_: string)
    returns (message: string)
    ensures message == Message(lines + [Location(file, line, function_)])
    ensures |message| == TotalLength(lines) + |Location(file, line, function_)| + 1
  {
    message := CreateMessage(lines);
    message := message + file + " : " + Decimal(line) + " : " + function_ + "\n";
    var loc := Location(file, line, function_);
    MessageAppend(lines, [loc]);
    assert [loc][..0] == [];
    MessageLength(lines + [loc]);
  }
}
