/** Percent escapes in URLs: src/url/url.cpp (`correct`) and src/url/uri.l (`normalize_escaped`). */
module Escapes {

  type Byte = c: char | c as int < 256 witness 'a'

  type Text = seq<Byte>

  predicate IsUpper(c: char) {
    'A' <= c <= 'Z'
  }

  predicate IsHex(c: char) {
    '0' <= c <= '9' || 'a' <= c <= 'f' || 'A' <= c <= 'F'
  }

  function Upper(c: Byte): Byte {
    if 'a' <= c <= 'z' then (c as int - 32) as char else c
  }

  function Lower(c: Byte): Byte {
    if IsUpper(c) then (c as int + 32) as char else c
  }

  function HexValue(c: char): int
    requires IsHex(c)
    ensures 0 <= HexValue(c) < 16
  {
    if c <= '9' then c as int - '0' as int
    else if c <= 'F' then c as int - 'A' as int + 10
    else c as int - 'a' as int + 10
  }

  function HexDigit(n: int): (c: Byte)
    requires 0 <= n < 16
    ensures IsHex(c) && HexValue(c) == n && Upper(c) == c
  {
    if n > 9 then ('A' as int + n - 10) as char else ('0' as int + n) as char
  }

  /** The text starts with an escape. */
  predicate IsEscape(s: Text) {
    |s| >= 3 && s[0] == '%' && IsHex(s[1]) && IsHex(s[2])
  }

  function EscapeValue(s: Text): (c: Byte)
    requires IsEscape(s)
  {
    (HexValue(s[1]) * 16 + HexValue(s[2])) as char
  }

  /** The bytes that a text stands for. */
  function Decoded(s: Text): Text {
    if s == [] then []
    else if IsEscape(s) then [EscapeValue(s)] + Decoded(s[3..])
    else [s[0]] + Decoded(s[1..])
  }

  /** Every percent sign starts an escape. */
  predicate WellEscaped(s: Text) {
    s != [] ==> if IsEscape(s) then WellEscaped(s[3..]) else s[0] != '%' && WellEscaped(s[1..])
  }

  // ---------------------------------------------------------------------------------------------
  // correct

  /** The characters that stay as they are. */
  predicate IsUric(c: char) {
    || c == '!' || c == '$' || '&' <= c <= ';' || c == '=' || c == '?' || '@' <= c <= 'Z' || c == '_'
    || 'a' <= c <= 'z' || c == '~'
  }

  function Escape(c: Byte): (e: Text)
    ensures IsEscape(e) && |e| == 3 && EscapeValue(e) == c
  {
    ['%', HexDigit(c as int / 16), HexDigit(c as int % 16)]
  }

  /** What `correct` makes of a text; `fragment` tells whether a '#' has been seen. */
  function Corrected(s: Text, fragment: bool): Text {
    if s == [] || s[0] == '\0' then []
    else if s[0] == '#' && !fragment then ['#'] + Corrected(s[1..], true)
    else if IsUric(s[0]) then [s[0]] + Corrected(s[1..], fragment)
    else if s[0] == '\\' then ['/'] + Corrected(s[1..], fragment)
    else if IsEscape(s) then s[..3] + Corrected(s[3..], fragment)
    else Escape(s[0]) + Corrected(s[1..], fragment)
  }

  lemma Associate(a: Text, b: Text, c: Text)
    ensures a + b + c == a + (b + c)
  {
  }

  lemma SuffixEscape(s: Text, i: nat)
    requires i < |s|
    ensures s[i..][1..] == s[i + 1..] && s[i..][0] == s[i]
    ensures IsEscape(s[i..]) <==> s[i] == '%' && i + 2 < |s| && IsHex(s[i + 1]) && IsHex(s[i + 2])
    ensures IsEscape(s[i..]) ==> s[i..][..3] == s[i..i + 3] && s[i..][3..] == s[i + 3..]
  {
  }

  method Correct(urlstr: Text) returns (result: Text)
    ensures result == Corrected(urlstr, false)
  {
    result := [];
    var isFragment := false;
    var i := 0;
    assert urlstr[0..] == urlstr;
    while i < |urlstr| && urlstr[i] != '\0'
      invariant 0 <= i <= |urlstr|
      invariant result + Corrected(urlstr[i..], isFragment) == Corrected(urlstr, false)
    {
      ghost var before, rest, start := result, Corrected(urlstr[i..], isFragment), i;
      SuffixEscape(urlstr, i);
      if urlstr[i] == '#' && !isFragment {
        result := result + [urlstr[i]];
        isFragment := true;
      } else if IsUric(urlstr[i]) {
        result := result + [urlstr[i]];
      } else if urlstr[i] == '\\' {
        result := result + ['/'];
      } else if urlstr[i] == '%' && i + 2 < |urlstr| && IsHex(urlstr[i + 1]) && IsHex(urlstr[i + 2]) {
        result := result + urlstr[i..i + 3];
        i := i + 2;
      } else {
        result := AppendEscape(result, urlstr[i]);
      }
      i := i + 1;
      Associate(before, result[|before|..], Corrected(urlstr[i..], isFragment));
      assert rest == result[|before|..] + Corrected(urlstr[i..], isFragment);
    }
  }

  method AppendEscape(text: Text, c: Byte) returns (result: Text)
    ensures result == text + Escape(c)
  {
    var m, n := c as int / 16, c as int % 16;
    result := text + ['%'];
    result := result + [HexDigit(m)];
    result := result + [HexDigit(n)];
  }

  /** A text that begins with an escape is taken apart behind it. */
  lemma AfterEscape(e: Text, rest: Text)
    requires |e| == 3 && IsEscape(e)
    ensures IsEscape(e + rest) && (e + rest)[3..] == rest && EscapeValue(e + rest) == EscapeValue(e) && (e + rest)[..3] == e
  {
  }

  lemma AfterChar(c: Byte, rest: Text)
    ensures ([c] + rest)[1..] == rest
  {
  }

  /** What has been corrected has only proper escapes, and needs no correction. */
  lemma {:induction false} CorrectedOnce(s: Text, fragment: bool)
    ensures var t := Corrected(s, fragment); WellEscaped(t) && Corrected(t, fragment) == t
  {
    if s != [] && s[0] != '\0' {
      if s[0] == '#' && !fragment {
        CorrectedOnce(s[1..], true);
        AfterChar('#', Corrected(s[1..], true));
      } else if IsUric(s[0]) {
        CorrectedOnce(s[1..], fragment);
        AfterChar(s[0], Corrected(s[1..], fragment));
      } else if s[0] == '\\' {
        CorrectedOnce(s[1..], fragment);
        AfterChar('/', Corrected(s[1..], fragment));
      } else {
        var e, k := if IsEscape(s) then s[..3] else Escape(s[0]), if IsEscape(s) then 3 else 1;
        CorrectedOnce(s[k..], fragment);
        AfterEscape(e, Corrected(s[k..], fragment));
      }
    }
  }

  /** The characters that section 2 of RFC 2396 allows in a URI besides escapes: reserved and unreserved ones. */
  predicate InGrammar(c: char) {
    || 'a' <= c <= 'z' || 'A' <= c <= 'Z' || '0' <= c <= '9'
    || c in ";/?:@&=+$," || c in "-_.!~*'()"
  }

  lemma UricIsGrammar(c: char)
    ensures IsUric(c) <==> InGrammar(c)
  {
  }

  /** The hexadecimal digits and the percent sign of an escape are among them, but for the percent sign. */
  lemma EscapeChars(e: Text)
    requires |e| == 3 && IsEscape(e)
    ensures forall c | c in e :: c == '%' || (InGrammar(c) && c != '#')
  {
    assert e == [e[0], e[1], e[2]];
  }

  /** Only those characters, percent signs, and one number sign at most. */
  predicate Formed(t: Text, fragment: bool) {
    && (forall c | c in t :: InGrammar(c) || c == '%' || c == '#')
    && (fragment ==> '#' !in t) && forall i, j | 0 <= i < j < |t| :: !(t[i] == '#' == t[j])
  }

  lemma FormedBehind(e: Text, rest: Text, fragment: bool)
    requires Formed(rest, fragment) && forall c | c in e :: c != '#' && (InGrammar(c) || c == '%')
    ensures Formed(e + rest, fragment)
  {
    hide InGrammar;
    var t := e + rest;
    assert forall i | 0 <= i < |t| :: t[i] == (if i < |e| then e[i] else rest[i - |e|]) && (i < |e| ==> t[i] in e);
  }

  lemma FormedFragment(rest: Text)
    requires Formed(rest, true)
    ensures Formed(['#'] + rest, false)
  {
    hide InGrammar;
    var t := ['#'] + rest;
    assert forall i | 0 < i < |t| :: t[i] == rest[i - 1] && t[i] in rest;
  }

  /** A corrected text has only those characters, proper escapes, and one number sign at most, where its fragment
      begins. */
  lemma {:induction false} CorrectedInGrammar(s: Text, fragment: bool)
    ensures var t := Corrected(s, fragment); WellEscaped(t) && Formed(t, fragment)
  {
    hide InGrammar, IsUric, Formed, WellEscaped;
    CorrectedOnce(s, fragment);
    if s == [] || s[0] == '\0' {
      NothingFormed(fragment);
    } else if s[0] == '#' && !fragment {
      CorrectedInGrammar(s[1..], true);
      FormedFragment(Corrected(s[1..], true));
    } else {
      var k := if !IsUric(s[0]) && s[0] != '\\' && IsEscape(s) then 3 else 1;
      CorrectedInGrammar(s[k..], fragment);
      var e := if IsUric(s[0]) then [s[0]] else if s[0] == '\\' then ['/'] else if IsEscape(s) then s[..3] else Escape(s[0]);
      NotNumberSign();
      UricIsGrammar(s[0]);
      if |e| == 3 {
        EscapeChars(e);
      }
      FormedBehind(e, Corrected(s[k..], fragment), fragment);
    }
  }

  lemma NothingFormed(fragment: bool)
    ensures Formed([], fragment)
  {
  }

  lemma NotNumberSign()
    ensures !IsUric('#') && InGrammar('/')
  {
  }

  /** The text up to a NUL, with slashes for backslashes. */
  function Slashed(s: Text): Text {
    if s == [] || s[0] == '\0' then [] else [if s[0] == '\\' then '/' else s[0]] + Slashed(s[1..])
  }

  lemma {:induction false} SlashedEscape(s: Text)
    ensures IsEscape(Slashed(s)) <==> IsEscape(s)
    ensures IsEscape(s) ==> EscapeValue(Slashed(s)) == EscapeValue(s) && Slashed(s)[3..] == Slashed(s[3..])
  {
    if s != [] && s[0] != '\0' {
      assert Slashed(s)[1..] == Slashed(s[1..]);
      if |s| > 1 && s[1] != '\0' {
        assert s[1..][1..] == s[2..] && Slashed(s[1..])[1..] == Slashed(s[2..]);
        if |s| > 2 && s[2] != '\0' {
          assert s[2..][1..] == s[3..] && Slashed(s[2..])[1..] == Slashed(s[3..]);
          assert Slashed(s)[3..] == Slashed(s)[1..][1..][1..];
        }
      }
    }
  }

  /** Correction keeps the bytes that a text stands for, up to a NUL, but for slashes in place of
      backslashes that are not escaped. */
  lemma {:induction false} CorrectedMeans(s: Text, fragment: bool)
    ensures Decoded(Corrected(s, fragment)) == Decoded(Slashed(s))
  {
    if s != [] && s[0] != '\0' {
      SlashedEscape(s);
      assert Slashed(s)[1..] == Slashed(s[1..]);
      if s[0] == '#' && !fragment {
        CorrectedMeans(s[1..], true);
        AfterChar('#', Corrected(s[1..], true));
      } else if IsUric(s[0]) {
        CorrectedMeans(s[1..], fragment);
        AfterChar(s[0], Corrected(s[1..], fragment));
      } else if s[0] == '\\' {
        CorrectedMeans(s[1..], fragment);
        AfterChar('/', Corrected(s[1..], fragment));
      } else {
        var e, k := if IsEscape(s) then s[..3] else Escape(s[0]), if IsEscape(s) then 3 else 1;
        CorrectedMeans(s[k..], fragment);
        AfterEscape(e, Corrected(s[k..], fragment));
      }
    }
  }

  // ---------------------------------------------------------------------------------------------
  // normalize_escaped

  predicate IsAlnum(c: char) {
    '0' <= c <= '9' || 'a' <= c <= 'z' || IsUpper(c)
  }

  /** The characters that need no escape here; RFC 3986 also has '-' and '.'. */
  predicate Unescaped(c: char) {
    IsAlnum(c) || c == '~' || c == '_'
  }

  function NormalEscape(s: Text): Text
    requires IsEscape(s)
  {
    if Unescaped(EscapeValue(s)) then [EscapeValue(s)] else ['%', Upper(s[1]), Upper(s[2])]
  }

  /** Escapes of characters that need none are resolved, and others get upper-case digits. */
  function Normed(s: Text): Text {
    if s == [] then []
    else if IsEscape(s) then NormalEscape(s) + Normed(s[3..])
    else [s[0]] + Normed(s[1..])
  }

  method NormalizeEscaped(text: Text) returns (str: Text)
    ensures str == Normed(text)
  {
    hide Normed, NormalEscape, EscapeValue;
    str := text;
    var i := 0;
    NormedStep(text);
    assert str[0..] == text && str[..0] == [];
    while i < |str|
      invariant 0 <= i <= |str| && str[..i] + Normed(str[i..]) == Normed(text)
      decreases |str| - i
    {
      ghost var done, rest := str[..i], str[i..];
      SuffixEscape(str, i);
      NormedStep(rest);
      if str[i] == '%' && i + 2 < |str| && IsHex(str[i + 1]) && IsHex(str[i + 2]) {
        var ch := EscapeValue(str[i..]);
        if Unescaped(ch) {
          str := str[i := ch];
          str := str[..i + 1] + str[i + 3..];
          assert str[..i + 1] == done + [ch] && str[i + 1..] == rest[3..];
          Associate(done, [ch], Normed(rest[3..]));
        } else {
          var ch1, ch2 := Upper(str[i + 1]), Upper(str[i + 2]);
          str := str[i + 1 := ch1][i + 2 := ch2];
          assert str[..i + 3] == done + ['%', ch1, ch2] && str[i + 3..] == rest[3..];
          Associate(done, ['%', ch1, ch2], Normed(rest[3..]));
          i := i + 2;
        }
      } else {
        assert str[..i + 1] == done + [str[i]];
        Associate(done, [str[i]], Normed(rest[1..]));
      }
      i := i + 1;
    }
    assert str[..i] == str && str[i..] == [];
    NormedStep([]);
  }

  lemma NormedStep(s: Text)
    ensures s == [] ==> Normed(s) == []
    ensures IsEscape(s) ==>
      Normed(s) == (if Unescaped(EscapeValue(s)) then [EscapeValue(s)] else ['%', Upper(s[1]), Upper(s[2])]) + Normed(s[3..])
    ensures s != [] && !IsEscape(s) ==> Normed(s) == [s[0]] + Normed(s[1..])
  {
  }

  lemma UpperHex(c: Byte)
    requires IsHex(c)
    ensures IsHex(Upper(c)) && HexValue(Upper(c)) == HexValue(c) && Upper(Upper(c)) == Upper(c)
  {
  }

  /** A hexadecimal digit, plain or escaped. */
  predicate HexToken(s: Text) {
    if IsEscape(s) then IsHex(EscapeValue(s)) else s != [] && IsHex(s[0])
  }

  function AfterToken(s: Text): Text
    requires HexToken(s)
  {
    if IsEscape(s) then s[3..] else s[1..]
  }

  /** Somewhere a percent sign that starts no escape stands before two hexadecimal digits, of which one
      is escaped; with the digits resolved it starts one. */
  predicate Exposes(s: Text) {
    s != [] &&
    if IsEscape(s) then Exposes(s[3..])
    else (s[0] == '%' && HexToken(s[1..]) && HexToken(AfterToken(s[1..]))) || Exposes(s[1..])
  }

  lemma NormedHead(s: Text)
    ensures HexToken(s) ==> Normed(s) != [] && IsHex(Normed(s)[0]) && Normed(s)[1..] == Normed(AfterToken(s))
    ensures !HexToken(s) ==> Normed(s) == [] || !IsHex(Normed(s)[0])
  {
    if IsEscape(s) {
      assert s[1] != '%';
      if Unescaped(EscapeValue(s)) {
        assert Normed(s)[1..] == Normed(s[3..]);
      }
    } else if s != [] {
      assert Normed(s)[1..] == Normed(s[1..]);
    }
  }

  /** A stray percent sign starts an escape after normalization exactly if two digits follow. */
  lemma Strayed(s: Text)
    requires s != [] && s[0] == '%' && !IsEscape(s)
    ensures Normed(s)[1..] == Normed(s[1..]) && Normed(s)[0] == '%'
    ensures IsEscape(Normed(s)) <==> HexToken(s[1..]) && HexToken(AfterToken(s[1..]))
  {
    var t := Normed(s[1..]);
    assert Normed(s)[1..] == t;
    NormedHead(s[1..]);
    if HexToken(s[1..]) {
      NormedHead(AfterToken(s[1..]));
      assert t[1..] != [] ==> t[1] == t[1..][0];
      assert |t| > 1 ==> Normed(s)[2] == t[1] && Normed(s)[1] == t[0];
    } else {
      assert |t| > 0 ==> Normed(s)[1] == t[0];
    }
  }

  lemma HexIsPlain(s: Text)
    requires |s| >= 2 && IsHex(s[0]) && IsHex(s[1])
    ensures |Decoded(s)| == |Decoded(s[2..])| + 2
  {
    assert s[1..][1..] == s[2..];
  }

  lemma {:induction false} NormedSize(s: Text)
    ensures |Decoded(Normed(s))| <= |Decoded(s)|
    ensures Exposes(s) ==> |Decoded(Normed(s))| < |Decoded(s)|
  {
    if s == [] {
    } else if IsEscape(s) {
      NormedSize(s[3..]);
      EscapeStays(s);
    } else {
      NormedSize(s[1..]);
      var t := Normed(s);
      assert t[1..] == Normed(s[1..]);
      if s[0] == '%' {
        Strayed(s);
        if IsEscape(t) {
          HexIsPlain(t[1..]);
          assert t[1..][2..] == t[3..];
        }
      }
    }
  }

  /** An escape stands for the same byte after normalization, and is then left alone. */
  lemma EscapeStays(s: Text)
    requires IsEscape(s)
    ensures Decoded(Normed(s)) == [EscapeValue(s)] + Decoded(Normed(s[3..]))
    ensures Normed(Normed(s)) == NormalEscape(s) + Normed(Normed(s[3..]))
    ensures WellEscaped(Normed(s[3..])) ==> WellEscaped(Normed(s))
  {
    var e, rest := NormalEscape(s), Normed(s[3..]);
    UpperHex(s[1]);
    UpperHex(s[2]);
    if |e| == 3 {
      AfterEscape(e, rest);
    } else {
      AfterChar(e[0], rest);
    }
  }

  lemma {:induction false} NormedKeeps(s: Text)
    requires !Exposes(s)
    ensures Decoded(Normed(s)) == Decoded(s) && Normed(Normed(s)) == Normed(s)
  {
    if s == [] {
    } else if IsEscape(s) {
      NormedKeeps(s[3..]);
      EscapeStays(s);
    } else {
      NormedKeeps(s[1..]);
      var t := Normed(s);
      assert t[1..] == Normed(s[1..]);
      if s[0] == '%' {
        Strayed(s);
      }
    }
  }

  /** Normalization keeps the bytes a text stands for exactly if it exposes no new escape. */
  lemma MeaningKeptExactly(s: Text)
    ensures Decoded(Normed(s)) == Decoded(s) <==> !Exposes(s)
  {
    if Exposes(s) {
      NormedSize(s);
    } else {
      NormedKeeps(s);
    }
  }

  /** On texts with proper escapes, such as corrected ones, it keeps the bytes, keeps the escapes proper,
      and is done after one pass. */
  lemma {:induction false} NormedOnce(s: Text)
    requires WellEscaped(s)
    ensures Decoded(Normed(s)) == Decoded(s) && Normed(Normed(s)) == Normed(s) && WellEscaped(Normed(s))
    ensures !Exposes(s)
  {
    if s == [] {
    } else if IsEscape(s) {
      NormedOnce(s[3..]);
      EscapeStays(s);
    } else {
      NormedOnce(s[1..]);
      AfterChar(s[0], Normed(s[1..]));
    }
  }

  /** One pass is not always enough: a stray percent sign before two escaped digits. */
  lemma TwoPasses()
    ensures Normed("%%34%31") == "%41" && Normed("%41") == "A"
  {
    var s: Text := "%%34%31";
    assert s[1..] == "%34%31" && s[1..][3..] == "%31" && s[1..][3..][3..] == [];
    assert !IsEscape(s) && IsEscape(s[1..]) && IsEscape(s[1..][3..]);
    assert EscapeValue(s[1..]) == '4' && EscapeValue(s[1..][3..]) == '1';
    assert Normed(s[1..][3..]) == "1";
    assert Normed(s[1..]) == "41";
    var t: Text := "%41";
    assert t[3..] == [] && EscapeValue(t) == 'A';
  }
}
