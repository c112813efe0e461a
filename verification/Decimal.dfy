/** Decimal numbers as `printf("%d")` and `ostream <<` write them and `sscanf("%d")` and `istream >>` read them. */
module Decimal {

  datatype Scan = NoNumber | Number(value: int, rest: string)

  predicate IsDigit(c: char) {
    '0' <= c <= '9'
  }

  predicate IsBlank(c: char) {
    c == ' ' || '\t' <= c <= '\r'
  }

  function Digit(d: nat): (c: char)
    requires d < 10
    ensures IsDigit(c) && c as int - '0' as int == d
  {
    '0' + d as char
  }

  function Digits(n: nat): (s: string)
    ensures s != [] && forall i | 0 <= i < |s| :: IsDigit(s[i])
  {
    (if n < 10 then [] else Digits(n / 10)) + [Digit(n % 10)]
  }

  function Printed(n: int): (s: string)
    ensures forall c | c in s :: IsDigit(c) || c == '-'
  {
    if n < 0 then ['-'] + Digits(-n) else Digits(n)
  }

  /** The number that continues `high` with the digits at the head of `s`. */
  function Accumulated(s: string, high: nat): Scan {
    if s == [] || !IsDigit(s[0]) then Number(high, s)
    else Accumulated(s[1..], high * 10 + (s[0] as int - '0' as int))
  }

  function Unsigned(s: string): Scan {
    if s == [] || !IsDigit(s[0]) then NoNumber else Accumulated(s, 0)
  }

  function Scanned(s: string): Scan {
    if s == [] then NoNumber
    else if IsBlank(s[0]) then Scanned(s[1..])
    else if s[0] == '+' then Unsigned(s[1..])
    else if s[0] == '-' then
      match Unsigned(s[1..])
      case Number(v, rest) => Number(-v, rest)
      case NoNumber => NoNumber
    else Unsigned(s)
  }

  lemma {:induction false} DigitsRead(n: nat, rest: string)
    ensures Accumulated(Digits(n) + rest, 0) == Accumulated(rest, n)
  {
    var last := [Digit(n % 10)];
    assert (last + rest)[1..] == rest;
    if n < 10 {
      assert Digits(n) == last;
    } else {
      assert Digits(n) + rest == Digits(n / 10) + (last + rest);
      DigitsRead(n / 10, last + rest);
    }
  }

  lemma UnsignedRead(n: nat, rest: string)
    requires rest == [] || !IsDigit(rest[0])
    ensures Unsigned(Digits(n) + rest) == Number(n, rest)
  {
    DigitsRead(n, rest);
  }

  /** Reading gives back what was printed, and leaves what follows it. */
  lemma PrintedThenScanned(n: int, rest: string)
    requires rest == [] || !IsDigit(rest[0])
    ensures Scanned(Printed(n) + rest) == Number(n, rest)
  {
    hide Accumulated, Digits, Unsigned;
    var abs := if n < 0 then -n else n;
    UnsignedRead(abs, rest);
    if n < 0 {
      assert (['-'] + Digits(abs) + rest)[1..] == Digits(abs) + rest;
    }
  }

  /** So does reading after a blank. */
  lemma ScannedAfterBlank(n: int, rest: string)
    requires rest == [] || !IsDigit(rest[0])
    ensures Scanned([' '] + Printed(n) + rest) == Number(n, rest)
  {
    hide Printed;
    PrintedThenScanned(n, rest);
    assert ([' '] + Printed(n) + rest)[1..] == Printed(n) + rest;
  }
}
