/** The king's side of the line protocol, src/commu/UltraServer.cpp: newline-terminated messages put
    together from whatever pieces the sockets deliver. */
module UltraServers {
  import opened LineMessages

  const READ_SIZE := 128

  // ---------------------------------------------------------------------------------------------
  // Lines in a stream

  /** The lines that have ended. */
  function Complete(s: string): seq<string> {
    if s == [] then []
    else
      var before := s[..|s| - 1];
      if s[|s| - 1] == '\n' then Complete(before) + [Unfinished(before)] else Complete(before)
  }

  /** The line that has not. */
  function Unfinished(s: string): (u: string)
    ensures '\n' !in u
  {
    if s == [] || s[|s| - 1] == '\n' then [] else Unfinished(s[..|s| - 1]) + [s[|s| - 1]]
  }

  /** A stream may be cut anywhere: what was unfinished goes on in what comes next. */
  lemma {:induction false} CutAnywhere(a: string, b: string)
    ensures Complete(a + b) == Complete(a) + Complete(Unfinished(a) + b)
    ensures Unfinished(a + b) == Unfinished(Unfinished(a) + b)
  {
    hide Complete, Unfinished;
    if b == [] {
      assert a + b == a && Unfinished(a) + b == Unfinished(a);
      NoNewline(Unfinished(a));
    } else {
      var c, shorter := b[|b| - 1], b[..|b| - 1];
      CutAnywhere(a, shorter);
      LastOne(a + shorter, c);
      LastOne(Unfinished(a) + shorter, c);
      assert a + b == a + shorter + [c] && Unfinished(a) + b == Unfinished(a) + shorter + [c];
    }
  }

  lemma LastOne(s: string, c: char)
    ensures Complete(s + [c]) == if c == '\n' then Complete(s) + [Unfinished(s)] else Complete(s)
    ensures Unfinished(s + [c]) == if c == '\n' then [] else Unfinished(s) + [c]
  {
    assert (s + [c])[..|s|] == s;
  }

  lemma {:induction false} NoNewline(s: string)
    requires '\n' !in s
    ensures Complete(s) == [] && Unfinished(s) == s
  {
    if s != [] {
      var c, before := s[|s| - 1], s[..|s| - 1];
      assert c in s;
      NoNewline(before);
      assert before + [c] == s;
    }
  }

  // ---------------------------------------------------------------------------------------------
  // The server

  datatype Entry = Entry(text: string, sock: int)

  function Tagged(lines: seq<string>, sock: int): seq<Entry> {
    seq(|lines|, i requires 0 <= i < |lines| => Entry(lines[i], sock))
  }

  lemma TaggedNone(sock: int)
    ensures Tagged([], sock) == []
  {
  }

  lemma TaggedAppend(lines: seq<string>, text: string, sock: int)
    ensures Tagged(lines + [text], sock) == Tagged(lines, sock) + [Entry(text, sock)]
  {
  }

  function Held(clients: map<int, string>, sock: int): string {
    if sock in clients then clients[sock] else []
  }

  datatype State = State(clients: map<int, string>, msgs: seq<Entry>)

  /** One `read` from a socket; an empty one means that the client has closed it. */
  datatype Read = Read(sock: int, bytes: string)

  function AfterRead(s: State, r: Read): State {
    if r.bytes == [] then s.(clients := s.clients - {r.sock})
    else
      var stream := Held(s.clients, r.sock) + r.bytes;
      State(s.clients[r.sock := Unfinished(stream)], s.msgs + Tagged(Complete(stream), r.sock))
  }

  class UltraServer {
    var clients: map<int, string>
    var msgs: seq<Entry>

    ghost predicate Valid()
      reads this
    {
      forall s | s in clients :: '\n' !in clients[s]
    }

    ghost function Value(): State
      reads this
    {
      State(clients, msgs)
    }

    constructor ()
      ensures Valid() && Value() == State(map[], [])
    {
      clients := map[];
      msgs := [];
    }

    static method Find(s: string, from: nat) returns (end: nat)
      requires from <= |s|
      ensures from <= end <= |s| && '\n' !in s[from..end] && (end < |s| ==> s[end] == '\n')
    {
      end := from;
      while end < |s| && s[end] != '\n'
        invariant from <= end <= |s| && '\n' !in s[from..end]
      {
        end := end + 1;
      }
    }

    /** A line has ended; the next one starts empty. */
    method EndLine(sock: int, piece: string)
      requires sock in clients
      modifies this
      ensures clients == old(clients)[sock := ""]
      ensures msgs == old(msgs) + [Entry(old(clients)[sock] + piece, sock)]
    {
      clients := clients[sock := clients[sock] + piece];
      msgs := msgs + [Entry(clients[sock], sock)];
      clients := clients[sock := ""];
    }

    method ReadSock(sock: int, indata: string)
      requires Valid() && |indata| <= READ_SIZE
      modifies this
      ensures Valid() && Value() == AfterRead(old(Value()), Read(sock, indata))
    {
      hide Complete, Unfinished, Tagged;
      if |indata| == 0 {
        clients := clients - {sock};
        return;
      }
      if sock !in clients {
        clients := clients[sock := ""];
      }
      ghost var held := clients[sock];
      ghost var others := clients;
      NothingYet(held);
      TaggedNone(sock);
      var begin := 0;
      var end := Find(indata, begin);
      while end < |indata|
        invariant begin <= end <= |indata| && '\n' !in indata[begin..end] && (end < |indata| ==> indata[end] == '\n')
        invariant sock in clients && clients == others[sock := clients[sock]]
        invariant clients[sock] == Unfinished(held + indata[..begin])
        invariant msgs == old(msgs) + Tagged(Complete(held + indata[..begin]), sock)
      {
        AnotherLine(held, indata, begin, end, clients[sock] + indata[begin..end], sock);
        EndLine(sock, indata[begin..end]);
        begin := end + 1;
        end := Find(indata, begin);
      }
      LastPiece(held, indata, begin);
      clients := clients[sock := clients[sock] + indata[begin..]];
    }
  }

  lemma NothingYet(held: string)
    requires '\n' !in held
    ensures Complete(held + []) == [] && Unfinished(held + []) == held
  {
    assert held + [] == held;
    NoNewline(held);
  }

  lemma EndOfLine(s: string, piece: string)
    requires '\n' !in piece
    ensures Complete(s + piece + ['\n']) == Complete(s) + [Unfinished(s) + piece] && Unfinished(s + piece + ['\n']) == []
  {
    NoMoreLines(s, piece);
    LastOne(s + piece, '\n');
  }

  lemma NoMoreLines(s: string, piece: string)
    requires '\n' !in piece
    ensures Complete(s + piece) == Complete(s) && Unfinished(s + piece) == Unfinished(s) + piece
  {
    CutAnywhere(s, piece);
    NoNewline(Unfinished(s) + piece);
  }

  lemma AnotherLine(held: string, bytes: string, begin: nat, end: nat, line: string, sock: int)
    requires begin <= end < |bytes| && '\n' !in bytes[begin..end] && bytes[end] == '\n'
    requires line == Unfinished(held + bytes[..begin]) + bytes[begin..end]
    ensures var now := held + bytes[..end + 1];
      && Unfinished(now) == []
      && Tagged(Complete(now), sock) == Tagged(Complete(held + bytes[..begin]), sock) + [Entry(line, sock)]
  {
    hide Complete, Unfinished, Tagged;
    EndOfLine(held + bytes[..begin], bytes[begin..end]);
    TaggedAppend(Complete(held + bytes[..begin]), line, sock);
    assert held + bytes[..end + 1] == held + bytes[..begin] + bytes[begin..end] + ['\n'];
  }

  lemma LastPiece(held: string, bytes: string, begin: nat)
    requires begin <= |bytes| && '\n' !in bytes[begin..]
    ensures Complete(held + bytes) == Complete(held + bytes[..begin])
    ensures Unfinished(held + bytes) == Unfinished(held + bytes[..begin]) + bytes[begin..]
  {
    hide Complete, Unfinished;
    NoMoreLines(held + bytes[..begin], bytes[begin..]);
    assert held + bytes == held + bytes[..begin] + bytes[begin..];
  }

  // ---------------------------------------------------------------------------------------------
  // Whole conversations

  ghost function After(inputs: seq<Read>): State {
    if inputs == [] then State(map[], []) else AfterRead(After(inputs[..|inputs| - 1]), inputs[|inputs| - 1])
  }

  /** What the client on a socket has sent since it was connected; an empty read ends a connection. */
  ghost function Stream(inputs: seq<Read>, sock: int): string {
    if inputs == [] then []
    else
      var before, r := Stream(inputs[..|inputs| - 1], sock), inputs[|inputs| - 1];
      if r.sock != sock then before else if r.bytes == [] then [] else before + r.bytes
  }

  /** The lines of the connections on this socket that are over; what they left unfinished is forgotten. */
  ghost function Earlier(inputs: seq<Read>, sock: int): seq<string> {
    if inputs == [] then []
    else
      var before, r := inputs[..|inputs| - 1], inputs[|inputs| - 1];
      Earlier(before, sock) + if r.sock == sock && r.bytes == [] then Complete(Stream(before, sock)) else []
  }

  /** The messages queued from one client, in order. */
  ghost function From(msgs: seq<Entry>, sock: int): seq<string> {
    if msgs == [] then []
    else
      var before, m := From(msgs[..|msgs| - 1], sock), msgs[|msgs| - 1];
      if m.sock == sock then before + [m.text] else before
  }

  lemma {:induction false} FromTagged(msgs: seq<Entry>, lines: seq<string>, from: int, sock: int)
    ensures From(msgs + Tagged(lines, from), sock) == From(msgs, sock) + (if from == sock then lines else [])
  {
    if lines == [] {
      assert msgs + Tagged(lines, from) == msgs;
    } else {
      var before, last := lines[..|lines| - 1], lines[|lines| - 1];
      FromTagged(msgs, before, from, sock);
      TaggedAppend(before, last, from);
      assert before + [last] == lines;
      var all := msgs + Tagged(before, from);
      assert msgs + Tagged(lines, from) == all + [Entry(last, from)];
      assert (all + [Entry(last, from)])[..|all|] == all;
    }
  }

  lemma NothingFrom(sock: int)
    ensures From([], sock) == []
  {
  }

  /** However the bytes of the clients are cut and interleaved, the messages from each socket are the lines of
      its connections, one after the other, and only the unfinished line of the last one is kept. */
  lemma {:induction false} LinesArrive(inputs: seq<Read>, sock: int)
    ensures From(After(inputs).msgs, sock) == Earlier(inputs, sock) + Complete(Stream(inputs, sock))
    ensures Held(After(inputs).clients, sock) == Unfinished(Stream(inputs, sock))
  {
    hide Complete, Unfinished, From, Tagged;
    NoNewline([]);
    NothingFrom(sock);
    if inputs != [] {
      var before, r := inputs[..|inputs| - 1], inputs[|inputs| - 1];
      LinesArrive(before, sock);
      var s := After(before);
      if r.bytes != [] {
        FromTagged(s.msgs, Complete(Held(s.clients, r.sock) + r.bytes), r.sock, sock);
        CutAnywhere(Stream(before, sock), r.bytes);
        assert Earlier(inputs, sock) == Earlier(before, sock);
      }
    }
  }

  /** What `wmsg` writes for a list of messages. */
  function Wire(ms: seq<Msg>): string {
    if ms == [] then [] else Wire(ms[..|ms| - 1]) + (Line(ms[|ms| - 1]) + ['\n'])
  }

  function Lines(ms: seq<Msg>): seq<string> {
    seq(|ms|, i requires 0 <= i < |ms| => Line(ms[i]))
  }

  lemma {:induction false} WireLines(ms: seq<Msg>)
    requires forall m | m in ms :: Composable(m)
    ensures Complete(Wire(ms)) == Lines(ms) && Unfinished(Wire(ms)) == []
  {
    hide Line, Complete, Unfinished, Fields, Split, Composable;
    if ms == [] {
      NoNewline([]);
    } else {
      var before, m := ms[..|ms| - 1], ms[|ms| - 1];
      WireLines(before);
      LineClean(m);
      EndOfLine(Wire(before), Line(m));
      assert Wire(ms) == Wire(before) + Line(m) + ['\n'] && [] + Line(m) == Line(m);
      assert Lines(ms) == Lines(before) + [Line(m)];
    }
  }

  /** Composed messages, cut into any reads among those of other clients, come out as the same messages
      with their fields cleaned, behind those of earlier clients on the socket; what has been read of the
      next one is kept. */
  lemma MessagesArrive(inputs: seq<Read>, sock: int, ms: seq<Msg>, tail: string)
    requires forall m | m in ms :: Composable(m)
    requires Stream(inputs, sock) == Wire(ms) + tail && '\n' !in tail
    ensures var n, texts := |Earlier(inputs, sock)|, From(After(inputs).msgs, sock);
      |texts| == n + |ms| && forall i | 0 <= i < |ms| :: Meant(texts[n + i]) == Understood(Sanitised(ms[i]))
    ensures Held(After(inputs).clients, sock) == tail
  {
    hide Wire, Meant, Line, Stream, Earlier, From, After;
    LinesArrive(inputs, sock);
    WireLines(ms);
    NoMoreLines(Wire(ms), tail);
    forall i | 0 <= i < |ms| ensures Meant(Lines(ms)[i]) == Understood(Sanitised(ms[i])) {
      ParsedAsComposed(ms[i]);
    }
  }
}
