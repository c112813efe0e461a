/** The datagrams of src/commu/mcast.cpp: `sendfrag` puts three numbers and a newline before the bytes,
    `recvfrag` reads them back out of a buffer of 1044 bytes. */
module Datagram {
  import opened Decimal
  import opened IndexQueues
  import opened MulticastSession

  const BUFFER := 1044

  function Header(messageNum: int, fragNum: int, length: int): string {
    Printed(messageNum) + ([' '] + Printed(fragNum) + ([' '] + Printed(length) + ['\n']))
  }

  function Sent(messageNum: int, fragNum: int, frag: string): string {
    Header(messageNum, fragNum, |frag|) + frag
  }

  /** On the wire, three numbers with blanks between them, a newline and the bytes. */
  lemma SentLooksLike()
    ensures Sent(12, 3, "abcd") == "12 3 4\nabcd"
  {
    assert Printed(12) == "12" && Printed(3) == "3" && Printed(4) == "4";
  }

  /** `ignore` up to and including a newline. */
  function AfterNewline(s: string): string {
    if s == [] then [] else if s[0] == '\n' then s[1..] else AfterNewline(s[1..])
  }

  /** `read` overwrites the head of the buffer with the bytes it gets; the fragment is then taken from
      the buffer, whatever is in it. */
  function Taken(buf: string, body: string, length: int): Option<string> {
    if 0 <= length <= |buf| then
      var got := if length <= |body| then length else |body|;
      Some(body[..got] + buf[got..length])
    else None
  }

  /** None where `recvfrag` would use numbers or bytes it never received. */
  function Received(datagram: string): Option<Packet> {
    var buf := if |datagram| <= BUFFER then datagram else datagram[..BUFFER];
    match Scanned(buf)
    case NoNumber => None
    case Number(messageNum, rest1) =>
      match Scanned(rest1)
      case NoNumber => None
      case Number(fragNum, rest2) =>
        match Scanned(rest2)
        case NoNumber => None
        case Number(length, rest3) =>
          match Taken(buf, AfterNewline(rest3), length)
          case None => None
          case Some(frag) => Some(Packet(messageNum, fragNum, length, frag))
  }

  /** Whatever stands after the header, the three numbers are read as they were written. */
  lemma HeaderRead(messageNum: int, fragNum: int, length: int, body: string)
    requires |Header(messageNum, fragNum, length) + body| <= BUFFER
    ensures var d := Header(messageNum, fragNum, length) + body;
      Received(d) ==
      match Taken(d, body, length)
      case None => None
      case Some(frag) => Some(Packet(messageNum, fragNum, length, frag))
  {
    hide Scanned, Printed;
    var d := Header(messageNum, fragNum, length) + body;
    var rest3 := ['\n'] + body;
    var rest2 := [' '] + Printed(length) + rest3;
    var rest1 := [' '] + Printed(fragNum) + rest2;
    assert d == Printed(messageNum) + rest1;
    PrintedThenScanned(messageNum, rest1);
    ScannedAfterBlank(fragNum, rest2);
    ScannedAfterBlank(length, rest3);
    assert rest3[1..] == body;
  }

  ghost predicate ComesThrough(messageNum: int, fragNum: int, frag: string) {
    Received(Sent(messageNum, fragNum, frag)) == Some(Packet(messageNum, fragNum, |frag|, frag))
  }

  lemma WhatFitsComesThrough(messageNum: int, fragNum: int, frag: string)
    requires |Sent(messageNum, fragNum, frag)| <= BUFFER
    ensures ComesThrough(messageNum, fragNum, frag)
  {
    hide Received;
    HeaderRead(messageNum, fragNum, |frag|, frag);
    var d := Sent(messageNum, fragNum, frag);
    assert frag[..|frag|] + d[|frag|..|frag|] == frag;
  }

  /** Of a datagram that is too long, the tail of the fragment is replaced by bytes that stand earlier in it. */
  lemma TruncatedIsWrong(messageNum: int, fragNum: int, length: nat)
    requires var h := |Header(messageNum, fragNum, length)|; h < length <= BUFFER < h + length
    ensures exists frag :: |frag| == length && !ComesThrough(messageNum, fragNum, frag)
  {
    hide Received, Printed;
    var header := Header(messageNum, fragNum, length);
    var h := |header|;
    var frag := seq(length - 1, _ => 'a') + ['b'];
    var d := header + frag;
    var body := frag[..BUFFER - h];
    assert d[..BUFFER] == header + body;
    HeaderRead(messageNum, fragNum, length, body);
    Cut(d);
    var got := body[..|body|] + (header + body)[|body|..length];
    assert got[length - 1] == (header + body)[length - 1] == body[length - 1 - h] == 'a';
    assert frag[length - 1] == 'b';
    assert |frag| == length && !ComesThrough(messageNum, fragNum, frag);
  }

  lemma Cut(datagram: string)
    requires |datagram| > BUFFER
    ensures Received(datagram) == Received(datagram[..BUFFER])
  {
  }

  function Pow10(k: nat): nat {
    if k == 0 then 1 else 10 * Pow10(k - 1)
  }

  lemma {:induction false} DigitsLength(n: nat, k: nat)
    requires 0 < k && n < Pow10(k)
    ensures |Digits(n)| <= k
  {
    if n >= 10 {
      DigitsLength(n / 10, k - 1);
    }
  }

  lemma {:induction false} DigitsExactly(n: nat, k: nat)
    requires 0 < k && (k == 1 || Pow10(k - 1) <= n) && n < Pow10(k)
    ensures |Digits(n)| == k
  {
    if n >= 10 {
      DigitsExactly(n / 10, k - 1);
    }
  }

  lemma HeaderLength(messageNum: int, fragNum: int, length: nat)
    requires 0 <= messageNum < 0x8000_0000 && -1 <= fragNum < 0x8000_0000 && length <= FRAGMENT
    ensures 0 < |Header(messageNum, fragNum, length)| <= 27
  {
    assert Pow10(10) == 10 * Pow10(9) && Pow10(9) == 10 * Pow10(8) && Pow10(8) == 10 * Pow10(7) && Pow10(7) == 10 * Pow10(6)
        && Pow10(6) == 10 * Pow10(5) && Pow10(5) == 10 * Pow10(4) && Pow10(4) == 10 * Pow10(3) && Pow10(3) == 10 * Pow10(2);
    DigitsLength(messageNum, 10);
    DigitsLength(if fragNum < 0 then -fragNum else fragNum, if fragNum < 0 then 1 else 10);
    DigitsLength(length, 4);
  }

  /** A billion messages of ten million bytes are no problem. */
  lemma ShortHeader(messageNum: nat, fragNum: nat, length: nat)
    requires messageNum < 1_000_000_000 && fragNum < 10_000 && length <= FRAGMENT
    ensures |Header(messageNum, fragNum, length)| <= 20
  {
    assert Pow10(9) == 10 * Pow10(8) && Pow10(8) == 10 * Pow10(7) && Pow10(7) == 10 * Pow10(6)
        && Pow10(6) == 10 * Pow10(5) && Pow10(5) == 10 * Pow10(4) && Pow10(4) == 10 * Pow10(3) && Pow10(3) == 10 * Pow10(2);
    DigitsLength(messageNum, 9);
    DigitsLength(fragNum, 4);
    DigitsLength(length, 4);
  }

  /** The last word of a sender is short. */
  lemma ShortGoodbye(n: nat)
    requires n <= 1_000_000_000
    ensures |Header(n, -1, 0)| <= 20
  {
    assert Pow10(10) == 10 * Pow10(9) && Pow10(9) == 10 * Pow10(8) && Pow10(8) == 10 * Pow10(7) && Pow10(7) == 10 * Pow10(6)
        && Pow10(6) == 10 * Pow10(5) && Pow10(5) == 10 * Pow10(4) && Pow10(4) == 10 * Pow10(3) && Pow10(3) == 10 * Pow10(2);
    DigitsLength(n, 10);
    DigitsLength(1, 1);
    DigitsLength(0, 1);
  }

  /** Fragment 1000 of message 1000000000 does not fit. */
  lemma LongHeader()
    ensures |Header(1_000_000_000, 1000, FRAGMENT)| == 21
    ensures exists frag :: |frag| == FRAGMENT && !ComesThrough(1_000_000_000, 1000, frag)
  {
    hide Digits, ComesThrough;
    assert Pow10(10) == 10 * Pow10(9) && Pow10(9) == 10 * Pow10(8) && Pow10(8) == 10 * Pow10(7) && Pow10(7) == 10 * Pow10(6)
        && Pow10(6) == 10 * Pow10(5) && Pow10(5) == 10 * Pow10(4) && Pow10(4) == 10 * Pow10(3) && Pow10(3) == 10 * Pow10(2);
    DigitsExactly(1_000_000_000, 10);
    DigitsExactly(1000, 4);
    DigitsExactly(FRAGMENT, 4);
    TruncatedIsWrong(1_000_000_000, 1000, FRAGMENT);
  }

  /** Over the numbers of a 32-bit sender: fragments of a given length come through unchanged exactly when
      their header leaves them room in the receiver's buffer. */
  lemma RoundTripExactly(messageNum: int, fragNum: int, length: nat)
    requires 0 <= messageNum < 0x8000_0000 && -1 <= fragNum < 0x8000_0000 && length <= FRAGMENT
    ensures (forall frag | |frag| == length :: ComesThrough(messageNum, fragNum, frag)) <==>
      |Header(messageNum, fragNum, length)| + length <= BUFFER
  {
    hide ComesThrough, Header;
    HeaderLength(messageNum, fragNum, length);
    if |Header(messageNum, fragNum, length)| + length <= BUFFER {
      forall frag | |frag| == length ensures ComesThrough(messageNum, fragNum, frag) {
        WhatFitsComesThrough(messageNum, fragNum, frag);
      }
    } else {
      TruncatedIsWrong(messageNum, fragNum, length);
    }
  }
}
