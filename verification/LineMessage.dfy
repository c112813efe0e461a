/** The line format of src/util/LineMessage.cpp in which king and queens talk: tab-separated fields. */
module LineMessages {
  import opened Decimal
  import opened RingArithmetic

  // ---------------------------------------------------------------------------------------------
  // Fields

  predicate IsBreak(c: char) {
    c == '\t' || c == '\r' || c == '\n'
  }

  /** A URL up to its first tab or line break. */
  function SafeUrl(s: string): (r: string)
    ensures r <= s && forall c | c in r :: !IsBreak(c)
    ensures |r| < |s| ==> IsBreak(s[|r|])
  {
    if s == [] || IsBreak(s[0]) then [] else [s[0]] + SafeUrl(s[1..])
  }

  /** A text with blanks for its tabs and line breaks. */
  function SafeText(s: string): (r: string)
    ensures |r| == |s| && forall c | c in r :: !IsBreak(c)
    ensures forall i | 0 <= i < |s| :: r[i] == if IsBreak(s[i]) then ' ' else s[i]
  {
    if s == [] then [] else [if IsBreak(s[0]) then ' ' else s[0]] + SafeText(s[1..])
  }

  function Join(fields: seq<string>): string {
    if fields == [] then []
    else if |fields| == 1 then fields[0]
    else fields[0] + ['\t'] + Join(fields[1..])
  }

  /** The fields between the tabs; a string without tabs is one field. */
  function Split(s: string): (fields: seq<string>)
    ensures fields != []
  {
    if s == [] then [[]]
    else
      var before, c := Split(s[..|s| - 1]), s[|s| - 1];
      if c == '\t' then before + [[]] else before[..|before| - 1] + [before[|before| - 1] + [c]]
  }

  lemma {:induction false} JoinAppend(fields: seq<string>, f: string)
    requires fields != []
    ensures Join(fields + [f]) == Join(fields) + ['\t'] + f
  {
    if |fields| == 1 {
      assert (fields + [f])[1..] == [f];
    } else {
      assert (fields + [f])[1..] == fields[1..] + [f];
      JoinAppend(fields[1..], f);
    }
  }

  lemma NoFields()
    ensures Split([]) == [] + [[]]
  {
  }

  /** One more character. */
  lemma SplitGrows(s: string, c: char, before: seq<string>, last: string)
    requires Split(s) == before + [last]
    ensures Split(s + [c]) == if c == '\t' then before + [last] + [[]] else before + [last + [c]]
  {
    assert (s + [c])[..|s|] == s;
  }

  lemma {:induction false} SplitNone(field: string)
    requires '\t' !in field
    ensures Split(field) == [field]
  {
    if field != [] {
      var shorter, c := field[..|field| - 1], field[|field| - 1];
      SplitNone(shorter);
      assert Split(shorter) == [] + [shorter];
      SplitGrows(shorter, c, [], shorter);
      assert shorter + [c] == field;
    }
  }

  lemma {:induction false} SplitLast(s: string, field: string)
    requires '\t' !in field
    ensures Split(s + ['\t'] + field) == Split(s) + [field]
  {
    hide Split;
    if field == [] {
      var fields := Split(s);
      assert fields == fields[..|fields| - 1] + [fields[|fields| - 1]];
      SplitGrows(s, '\t', fields[..|fields| - 1], fields[|fields| - 1]);
      assert s + ['\t'] + field == s + ['\t'];
    } else {
      var shorter, c := field[..|field| - 1], field[|field| - 1];
      SplitLast(s, shorter);
      SplitGrows(s + ['\t'] + shorter, c, Split(s), shorter);
      assert s + ['\t'] + field == s + ['\t'] + shorter + [c];
      assert shorter + [c] == field;
    }
  }

  /** Fields without tabs come apart as they were put together. */
  lemma {:induction false} SplitJoin(fields: seq<string>)
    requires fields != [] && forall f | f in fields :: '\t' !in f
    ensures Split(Join(fields)) == fields
  {
    var last := fields[|fields| - 1];
    if |fields| == 1 {
      SplitNone(last);
    } else {
      var before := fields[..|fields| - 1];
      JoinAppend(before, last);
      assert before + [last] == fields;
      SplitLast(Join(before), last);
      SplitJoin(before);
    }
  }

  lemma {:induction false} JoinLacks(fields: seq<string>, c: char)
    requires c != '\t' && forall f | f in fields :: c !in f
    ensures c !in Join(fields)
  {
    if |fields| > 1 {
      JoinLacks(fields[1..], c);
    }
  }

  // ---------------------------------------------------------------------------------------------
  // Messages

  datatype Msg =
    | Hello(name: string, group: bool)
    | Byebye
    | Exit
    | Refer(referer: string, url: string, anchor: string)
    | Redirect(origin: string, target: string)
    | Request(num: int)
    | Load(free: int, load: int)
    | Left(left: int)
    | Group(size: int)
    | Assign(site: string, queen: string)

  const TWO31 := 0x8000_0000

  /** `printf("%d")` of an unsigned number, and an `int` read back as one. */
  function AsSigned(n: int): int {
    if n >= TWO31 then n - TWO32 else n
  }

  function AsUnsigned(n: int): int {
    n % TWO32
  }

  predicate IsName(s: string) {
    s != [] && forall c | c in s :: 'a' <= c <= 'z' || 'A' <= c <= 'Z' || '0' <= c <= '9' || c == '_'
  }

  /** What can be composed: queen names are checked, and group sizes are unsigned 32-bit numbers. */
  predicate Composable(m: Msg) {
    match m
    case Hello(name, _) => IsName(name)
    case Group(n) => 0 <= n < TWO32
    case _ => true
  }

  function Fields(m: Msg): seq<string> {
    match m
    case Hello(name, group) => ["hello", name, if group then "true" else "false"]
    case Byebye => ["byebye"]
    case Exit => ["exit"]
    case Refer(referer, url, anchor) => ["ref", SafeUrl(referer), SafeUrl(url), SafeText(anchor)]
    case Redirect(origin, target) => ["redir", SafeUrl(origin), SafeUrl(target)]
    case Request(n) => ["request", Printed(n)]
    case Load(free, load) => ["load", Printed(free), Printed(load)]
    case Left(n) => ["left", Printed(n)]
    case Group(n) => ["group", Printed(AsSigned(n))]
    case Assign(site, queen) => ["assign", SafeText(site), SafeText(queen)]
  }

  /** The composed message, without its newline. */
  function Line(m: Msg): string {
    Join(Fields(m))
  }

  /** What stands in a line, and in which order, with tabs between: texts, */
  lemma TextsSpelled(a: string, b: string, c: string, group: bool)
    ensures Line(Refer(a, b, c)) == "ref" + "\t" + SafeUrl(a) + "\t" + SafeUrl(b) + "\t" + SafeText(c)
    ensures Line(Redirect(a, b)) == "redir" + "\t" + SafeUrl(a) + "\t" + SafeUrl(b)
    ensures Line(Assign(a, b)) == "assign" + "\t" + SafeText(a) + "\t" + SafeText(b)
    ensures Line(Hello(a, group)) == "hello" + "\t" + a + "\t" + (if group then "true" else "false")
  {
    hide SafeUrl, SafeText, Join;
    JoinFour("ref", SafeUrl(a), SafeUrl(b), SafeText(c));
    JoinThree("redir", SafeUrl(a), SafeUrl(b));
    JoinThree("assign", SafeText(a), SafeText(b));
    JoinThree("hello", a, if group then "true" else "false");
  }

  /** and numbers. */
  lemma NumbersSpelled(n: int, k: int)
    ensures Line(Request(n)) == "request" + "\t" + Printed(n) && Line(Left(n)) == "left" + "\t" + Printed(n)
    ensures Line(Load(n, k)) == "load" + "\t" + Printed(n) + "\t" + Printed(k)
    ensures Line(Group(n)) == "group" + "\t" + Printed(AsSigned(n))
  {
    hide Printed, Join;
    JoinTwo("request", Printed(n));
    JoinTwo("left", Printed(n));
    JoinThree("load", Printed(n), Printed(k));
    JoinTwo("group", Printed(AsSigned(n)));
  }

  lemma JoinTwo(a: string, b: string)
    ensures Join([a, b]) == a + "\t" + b
  {
    assert [a, b][1..] == [b];
  }

  lemma JoinThree(a: string, b: string, c: string)
    ensures Join([a, b, c]) == a + "\t" + b + "\t" + c
  {
    assert [a, b, c][1..] == [b, c];
    JoinTwo(b, c);
  }

  lemma JoinFour(a: string, b: string, c: string, d: string)
    ensures Join([a, b, c, d]) == a + "\t" + b + "\t" + c + "\t" + d
  {
    assert [a, b, c, d][1..] == [b, c, d];
    JoinThree(b, c, d);
  }

  /** The message with its fields cleaned as they are for the wire. */
  function Sanitised(m: Msg): Msg {
    match m
    case Refer(referer, url, anchor) => Refer(SafeUrl(referer), SafeUrl(url), SafeText(anchor))
    case Redirect(origin, target) => Redirect(SafeUrl(origin), SafeUrl(target))
    case Assign(site, queen) => Assign(SafeText(site), SafeText(queen))
    case other => other
  }

  const INCORRECT := -1
  const UNKNOWN := 0
  const HELLO := 1
  const BYEBYE := 2
  const REFER := 3
  const REQUEST := 4
  const LOAD := 5
  const EXIT := 6
  const REDIRECT := 7
  const LEFT := 34
  const GROUP := 35
  const ASSIGN := 36
  const ASK := 65
  const ANSWER := 66

  /** The type that `parseMsg` returns for a list of fields. */
  function Kind(fields: seq<string>): int
    requires fields != []
  {
    var n := |fields|;
    if fields[0] == "hello" then (if n == 3 then HELLO else INCORRECT)
    else if fields[0] == "byebye" then BYEBYE
    else if fields[0] == "exit" then EXIT
    else if fields[0] == "ref" then (if n == 4 then REFER else INCORRECT)
    else if fields[0] == "request" then (if n == 2 then REQUEST else INCORRECT)
    else if fields[0] == "load" then (if n == 3 then LOAD else INCORRECT)
    else if fields[0] == "redir" then (if n == 3 then REDIRECT else INCORRECT)
    else if fields[0] == "left" then (if n == 2 then LEFT else INCORRECT)
    else if fields[0] == "ask" then (if n >= 2 then ASK else INCORRECT)
    else if fields[0] == "ans" then (if n >= 2 then ANSWER else INCORRECT)
    else if fields[0] == "group" then (if n == 2 then GROUP else INCORRECT)
    else if fields[0] == "assign" then (if n == 3 then ASSIGN else INCORRECT)
    else UNKNOWN
  }

  datatype Parse = NotUnderstood(kind: int) | Understood(msg: Msg)

  function StripReturn(line: string): string {
    if line != [] && line[|line| - 1] == '\r' then line[..|line| - 1] else line
  }

  function NumberIn(field: string, make: int -> Msg): Parse {
    match Scanned(field)
    case Number(n, _) => Understood(make(n))
    case NoNumber => NotUnderstood(INCORRECT)
  }

  /** What `setMsgString` makes of a line. */
  function Meant(line: string): Parse {
    if line == [] then NotUnderstood(INCORRECT)
    else
      var fields := Split(StripReturn(line));
      var kind := Kind(fields);
      if kind == HELLO then Understood(Hello(fields[1], fields[2] == "true"))
      else if kind == BYEBYE then Understood(Byebye)
      else if kind == EXIT then Understood(Exit)
      else if kind == REFER then Understood(Refer(fields[1], fields[2], fields[3]))
      else if kind == REDIRECT then Understood(Redirect(fields[1], fields[2]))
      else if kind == ASSIGN then Understood(Assign(fields[1], fields[2]))
      else if kind == REQUEST then NumberIn(fields[1], n => Request(n))
      else if kind == LEFT then NumberIn(fields[1], n => Left(n))
      else if kind == GROUP then NumberIn(fields[1], n => Group(AsUnsigned(n)))
      else if kind == LOAD then
        match Scanned(fields[1])
        case NoNumber => NotUnderstood(INCORRECT)
        case Number(free, _) => NumberIn(fields[2], n => Load(free, n))
      else NotUnderstood(kind)
  }

  /** No field of a composed message can be mistaken for two, or for the end of the line. */
  lemma FieldsClean(m: Msg)
    requires Composable(m)
    ensures forall f | f in Fields(m) :: forall c | c in f :: !IsBreak(c)
  {
    hide Printed, SafeUrl, SafeText;
  }

  lemma LineClean(m: Msg)
    requires Composable(m)
    ensures '\n' !in Line(m) && '\r' !in Line(m) && Line(m) != [] && Split(Line(m)) == Fields(m)
  {
    hide Fields;
    FieldsClean(m);
    assert Fields(m) != [] && Fields(m)[0] != [] by {
      FieldsStart(m);
    }
    SplitJoin(Fields(m));
    JoinLacks(Fields(m), '\n');
    JoinLacks(Fields(m), '\r');
  }

  lemma FieldsStart(m: Msg)
    ensures Fields(m) != [] && Fields(m)[0] != []
  {
  }

  lemma SignedAndBack(n: int)
    requires 0 <= n < TWO32
    ensures AsUnsigned(AsSigned(n)) == n
  {
  }

  lemma PrintedAlone(n: int)
    ensures Scanned(Printed(n)) == Number(n, [])
  {
    PrintedThenScanned(n, []);
    assert Printed(n) + [] == Printed(n);
  }

  /** Parsing a composed line gives back the same kind of message with the cleaned fields. */
  lemma ParsedAsComposed(m: Msg)
    requires Composable(m)
    ensures Meant(Line(m)) == Understood(Sanitised(m))
  {
    hide Line, Split, Join, Printed, Scanned, SafeUrl, SafeText;
    LineClean(m);
    assert Line(m)[|Line(m)| - 1] in Line(m);
    match m {
      case Request(n) => PrintedAlone(n);
      case Left(n) => PrintedAlone(n);
      case Group(n) =>
        SignedAndBack(n);
        PrintedAlone(AsSigned(n));
      case Load(free, load) =>
        PrintedAlone(free);
        PrintedAlone(load);
      case _ =>
    }
  }

  // ---------------------------------------------------------------------------------------------
  // The message object

  lemma {:induction false} SafeUrlCut(s: string, n: nat)
    requires n <= |s| && (forall i | 0 <= i < n :: !IsBreak(s[i])) && (n < |s| ==> IsBreak(s[n]))
    ensures SafeUrl(s) == s[..n]
  {
    if n > 0 {
      SafeUrlCut(s[1..], n - 1);
    }
  }

  class LineMessage {
    var kind: int
    var msgString: string
    var params: seq<string>
    var requestNum: int
    var free: int
    var load: int
    var left: int
    var data: int

    /** What the retrieve functions hand out: the one for the object's type, and no other. */
    function Meaning(): Parse
      reads this
    {
      if kind == HELLO && |params| == 3 then Understood(Hello(params[1], params[2] == "true"))
      else if kind == BYEBYE then Understood(Byebye)
      else if kind == EXIT then Understood(Exit)
      else if kind == REFER && |params| == 4 then Understood(Refer(params[1], params[2], params[3]))
      else if kind == REDIRECT && |params| == 3 then Understood(Redirect(params[1], params[2]))
      else if kind == ASSIGN && |params| == 3 then Understood(Assign(params[1], params[2]))
      else if kind == REQUEST then Understood(Request(requestNum))
      else if kind == LEFT then Understood(Left(left))
      else if kind == GROUP then Understood(Group(AsUnsigned(data)))
      else if kind == LOAD then Understood(Load(free, load))
      else NotUnderstood(kind)
    }

    constructor ()
      ensures Meaning() == NotUnderstood(UNKNOWN) && left == -1
    {
      kind := UNKNOWN;
      msgString, params := "", [];
      requestNum, free, load, left, data := -1, -1, -1, -1, -1;
    }

    /** The scan runs backwards and cuts at every break it meets, so at the first one in the end. */
    static method CleanUrl(url: string) returns (clean: string)
      ensures clean == SafeUrl(url)
    {
      clean := url;
      var i := |clean| - 1;
      while i >= 0
        invariant -1 <= i < |clean| <= |url| && clean == url[..|clean|]
        invariant forall k | i < k < |clean| :: !IsBreak(url[k])
        invariant |clean| < |url| ==> IsBreak(url[|clean|])
      {
        if IsBreak(clean[i]) {
          clean := clean[..i];
        }
        i := i - 1;
      }
      SafeUrlCut(url, |clean|);
    }

    static method CleanText(text: string) returns (clean: string)
      ensures clean == SafeText(text)
    {
      clean := text;
      var i := |clean| - 1;
      while i >= 0
        invariant -1 <= i < |text| == |clean|
        invariant forall k | 0 <= k < |text| :: clean[k] == if i < k && IsBreak(text[k]) then ' ' else text[k]
      {
        if IsBreak(clean[i]) {
          clean := clean[i := ' '];
        }
        i := i - 1;
      }
    }

    method ComposeMsg()
      requires params != []
      modifies this`msgString
      ensures msgString == Join(params)
    {
      msgString := "";
      var i := 0;
      while i < |params|
        invariant 0 <= i <= |params| && msgString == Join(params[..i])
      {
        if i > 0 {
          JoinAppend(params[..i], params[i]);
          msgString := msgString + ['\t'];
        }
        msgString := msgString + params[i];
        assert params[..i + 1] == params[..i] + [params[i]];
        i := i + 1;
      }
      assert params[..i] == params;
    }

    method ComposeRefer(referer: string, url: string, anchor: string)
      modifies this
      ensures msgString == Line(Refer(referer, url, anchor))
      ensures Meaning() == Understood(Sanitised(Refer(referer, url, anchor)))
    {
      var safeReferer := CleanUrl(referer);
      var safe := CleanUrl(url);
      var text := CleanText(anchor);
      params := ["ref", safeReferer, safe, text];
      ComposeMsg();
      kind := REFER;
    }

    method ComposeRedirect(origin: string, target: string)
      modifies this
      ensures msgString == Line(Redirect(origin, target))
      ensures Meaning() == Understood(Sanitised(Redirect(origin, target)))
    {
      var safeOrigin := CleanUrl(origin);
      var safe := CleanUrl(target);
      params := ["redir", safeOrigin, safe];
      ComposeMsg();
      kind := REDIRECT;
    }

    method ComposeAssign(site: string, queen: string)
      modifies this
      ensures msgString == Line(Assign(site, queen))
      ensures Meaning() == Understood(Sanitised(Assign(site, queen)))
    {
      var safeSite := CleanText(site);
      var safeQueen := CleanText(queen);
      params := ["assign", safeSite, safeQueen];
      ComposeMsg();
      kind := ASSIGN;
    }

    method ComposeHello(name: string, group: bool) returns (ok: bool)
      modifies this
      ensures ok <==> IsName(name)
      ensures ok ==> msgString == Line(Hello(name, group)) && Meaning() == Understood(Hello(name, group))
      ensures !ok ==> unchanged(this)
    {
      if |name| < 1 {
        return false;
      }
      for i := 0 to |name|
        invariant forall c | c in name[..i] :: 'a' <= c <= 'z' || 'A' <= c <= 'Z' || '0' <= c <= '9' || c == '_'
        invariant unchanged(this)
      {
        var c := name[i];
        assert c in name;
        if !('a' <= c <= 'z' || 'A' <= c <= 'Z' || '0' <= c <= '9' || c == '_') {
          return false;
        }
        assert name[..i + 1] == name[..i] + [c];
      }
      assert name[..|name|] == name;
      params := ["hello", name, if group then "true" else "false"];
      ComposeMsg();
      kind := HELLO;
      ok := true;
    }

    method ComposeRequest(n: int)
      modifies this
      ensures msgString == Line(Request(n)) && kind == REQUEST
    {
      params := ["request", Printed(n)];
      ComposeMsg();
      kind := REQUEST;
    }

    method ComposeLoad(free: int, load: int)
      modifies this
      ensures msgString == Line(Load(free, load)) && kind == LOAD
    {
      params := ["load", Printed(free), Printed(load)];
      ComposeMsg();
      kind := LOAD;
    }

    method ComposeLeft(n: int)
      modifies this
      ensures msgString == Line(Left(n)) && kind == LEFT
    {
      params := ["left", Printed(n)];
      ComposeMsg();
      kind := LEFT;
    }

    /** The line is right, but the object calls itself a LEFT message. */
    method ComposeGroup(size: int)
      requires 0 <= size < TWO32
      modifies this
      ensures msgString == Line(Group(size)) && Meaning() == Understood(Left(old(left)))
    {
      params := ["group", Printed(AsSigned(size))];
      ComposeMsg();
      kind := LEFT;
    }

    /** Cuts the line at its tabs, without a carriage return at its end. */
    method ParseMsg() returns (newKind: int)
      requires msgString != []
      modifies this`msgString, this`params
      ensures msgString == StripReturn(old(msgString)) && params == Split(msgString) && newKind == Kind(params)
    {
      hide Split, Kind;
      if msgString[|msgString| - 1] == '\r' {
        msgString := msgString[..|msgString| - 1];
      }
      params := [];
      var text, begin, i := msgString, 0, 0;
      NoFields();
      while i < |text|
        invariant 0 <= begin <= i <= |text|
        invariant Split(text[..i]) == params + [text[begin..i]]
        modifies this`params
      {
        SplitGrows(text[..i], text[i], params, text[begin..i]);
        assert text[..i + 1] == text[..i] + [text[i]];
        assert text[begin..i + 1] == text[begin..i] + [text[i]];
        if text[i] == '\t' {
          params := params + [text[begin..i]];
          begin := i + 1;
          assert text[begin..i + 1] == [];
        }
        i := i + 1;
      }
      assert text[..i] == text;
      params := params + [text[begin..]];
      newKind := Kind(params);
    }

    method SetMsgString(line: string)
      modifies this
      ensures Meaning() == Meant(line)
    {
      hide Split, Scanned;
      msgString := line;
      if line == [] {
        kind := INCORRECT;
        return;
      }
      kind := ParseMsg();
      if kind == REQUEST {
        match Scanned(params[1])
        case Number(n, _) => requestNum := n;
        case NoNumber => kind := INCORRECT;
      } else if kind == LOAD {
        match Scanned(params[1])
        case NoNumber => kind := INCORRECT;
        case Number(n, _) =>
          free := n;
          match Scanned(params[2])
          case NoNumber => kind := INCORRECT;
          case Number(k, _) => load := k;
      } else if kind == LEFT {
        match Scanned(params[1])
        case Number(n, _) => left := n;
        case NoNumber => kind := INCORRECT;
      } else if kind == GROUP {
        match Scanned(params[1])
        case Number(n, _) => data := n;
        case NoNumber => kind := INCORRECT;
      }
    }
  }
}
