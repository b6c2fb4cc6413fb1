/** The printer of Server-sent events (cmd/sse_server/main.go:112-132) and the client's reading loop
    (server/http_client.go:129-166). */
module SseWire {
  import opened SseText

  const EVENT: Text := [101, 118, 101, 110, 116, 58, 32]   // "event: "
  const ID: Text := [105, 100, 58, 32]                     // "id: "
  const DATA: Text := [100, 97, 116, 97, 58]               // "data:"

  datatype Event = Event(event: Text, id: Text, data: Text)

  // ---------- the printer ----------

  function Field(name: Text, value: Text): Text {
    if value == [] then [] else name + value + [LF]
  }

  /** One data line per piece. */
  function DataLines(pieces: seq<Text>): Text {
    if pieces == [] then []
    else DATA + [BLANK] + pieces[0] + [LF] + DataLines(pieces[1..])
  }

  function Frame(e: Event): Text {
    Field(EVENT, e.event) + Field(ID, e.id) + DataLines(Split(e.data)) + [LF]
  }

  function Stream(es: seq<Event>): Text {
    if es == [] then [] else Frame(es[0]) + Stream(es[1..])
  }

  class Writer {
    var buf: Text

    constructor ()
      ensures buf == []
    {
      buf := [];
    }

    method Write(text: Text)
      modifies this
      ensures buf == old(buf) + text
    {
      buf := buf + text;
    }
  }

  lemma {:induction false} DataLinesAppend(a: seq<Text>, piece: Text)
    ensures DataLines(a + [piece]) == DataLines(a) + (DATA + [BLANK] + piece + [LF])
  {
    if a == [] {
      assert a + [piece] == [piece] && [piece][1..] == [];
    } else {
      assert (a + [piece])[1..] == a[1..] + [piece];
      DataLinesAppend(a[1..], piece);
    }
  }

  method WriteField(w: Writer, name: Text, value: Text)
    modifies w
    ensures w.buf == old(w.buf) + Field(name, value)
    ensures w.buf == if value == [] then old(w.buf) else old(w.buf) + (name + value + [LF])
  {
    if value != [] {
      w.Write(name + value + [LF]);
    }
  }

  method WriteData(w: Writer, lines: seq<Text>)
    modifies w
    ensures w.buf == old(w.buf) + DataLines(lines)
  {
    for i := 0 to |lines|
      invariant w.buf == old(w.buf) + DataLines(lines[..i])
    {
      assert lines[..i + 1] == lines[..i] + [lines[i]];
      DataLinesAppend(lines[..i], lines[i]);
      w.Write(DATA + [BLANK] + lines[i] + [LF]);
    }
    assert lines[..|lines|] == lines;
  }

  method SendSSE(w: Writer, event: Text, id: Text, data: Text)
    modifies w
    ensures w.buf == old(w.buf) + Frame(Event(event, id, data))
  {
    WriteField(w, EVENT, event);
    WriteField(w, ID, id);
    WriteData(w, Split(data));
    w.Write([LF]);
  }

  // ---------- the reader ----------

  /** The newline-terminated lines of a stream, without their newlines. What follows the last newline
      is never delivered: ReadString returns it together with the error that ends the loop. */
  function Lines(stream: Text): seq<Text> {
    Split(stream)[..|Split(stream)| - 1]
  }

  predicate HasPrefix(s: Text, p: Text) {
    |s| >= |p| && s[..|p|] == p
  }

  /** What the callback gets for one line. */
  function Message(line: Text): seq<Text> {
    var t := TrimSpace(line + [LF]);
    if HasPrefix(t, DATA) then [TrimSpace(t[|DATA|..])] else []
  }

  function Messages(lines: seq<Text>): seq<Text> {
    if lines == [] then [] else Message(lines[0]) + Messages(lines[1..])
  }

  /** All callbacks for a stream read to its end. */
  function Callbacks(stream: Text): seq<Text> {
    Messages(Lines(stream))
  }

  datatype Outcome = Cancelled | Closed | ReadError

  /** ReadString('\\n') from position `pos`. */
  method ReadString(stream: Text, pos: nat) returns (line: Text, next: nat, ok: bool)
    requires pos <= |stream|
    ensures ok ==> pos < next <= |stream| && line == stream[pos..next] && line[|line| - 1] == LF &&
                   Free(line[..|line| - 1], LF)
    ensures !ok ==> Free(stream[pos..], LF)
  {
    next := pos;
    while next < |stream|
      invariant pos <= next <= |stream| && Free(stream[pos..next], LF)
    {
      if stream[next] == LF {
        line := stream[pos..next + 1];
        assert line[..|line| - 1] == stream[pos..next];
        return line, next + 1, true;
      }
      assert stream[pos..next + 1] == stream[pos..next] + [stream[next]];
      next := next + 1;
    }
    return [], next, false;
  }

  lemma LinesStep(s: Text, k: nat)
    requires k < |s| && s[k] == LF && Free(s[..k], LF)
    ensures Lines(s) == [s[..k]] + Lines(s[k + 1..])
  {
    assert s == s[..k] + [LF] + s[k + 1..];
    SplitAt(s[..k], s[k + 1..]);
    SplitFree(s[..k]);
  }

  lemma LinesNone(s: Text)
    requires Free(s, LF)
    ensures Lines(s) == []
  {
    SplitFree(s);
  }

  lemma {:induction false} MessagesAppend(a: seq<Text>, b: seq<Text>)
    ensures Messages(a + b) == Messages(a) + Messages(b)
  {
    if a == [] {
      assert a + b == b;
    } else {
      assert (a + b)[1..] == a[1..] + b;
      MessagesAppend(a[1..], b);
    }
  }

  /** Reading the line of `stream[pos..]` that ends before `next`. */
  lemma ReadStep(stream: Text, pos: nat, next: nat)
    requires pos < next <= |stream| && stream[next - 1] == LF && Free(stream[pos..next - 1], LF)
    ensures Lines(stream[pos..]) == [stream[pos..next - 1]] + Lines(stream[next..])
  {
    var s, k := stream[pos..], next - 1 - pos;
    assert s[..k] == stream[pos..next - 1] && s[k + 1..] == stream[next..];
    LinesStep(s, k);
  }

  /** What the loop does with a line it has read. */
  method OnLine(raw: Text, soFar: seq<Text>, ghost piece: Text) returns (callbacks: seq<Text>)
    requires raw == piece + [LF]
    ensures callbacks == soFar + Messages([piece])
  {
    callbacks := soFar;
    var line := TrimSpace(raw);
    if HasPrefix(line, DATA) {
      callbacks := callbacks + [TrimSpace(line[|DATA|..])];
    }
    assert [piece][1..] == [];
    assert Messages([piece]) == Message(piece) + Messages([]);
  }

  /** The lines `done` have been read up to `pos` and answered. */
  ghost predicate Progress(stream: Text, pos: nat, done: seq<Text>, callbacks: seq<Text>) {
    && pos <= |stream|
    && Lines(stream) == done + Lines(stream[pos..])
    && callbacks == Messages(done)
  }

  lemma ProgressStart(stream: Text)
    ensures Progress(stream, 0, [], [])
  {
    assert stream[0..] == stream;
  }

  lemma ProgressStep(stream: Text, pos: nat, next: nat, done: seq<Text>, callbacks: seq<Text>, piece: Text)
    requires Progress(stream, pos, done, callbacks)
    requires pos < next <= |stream| && stream[next - 1] == LF && piece == stream[pos..next - 1] && Free(piece, LF)
    ensures Progress(stream, next, done + [piece], callbacks + Messages([piece]))
  {
    ReadStep(stream, pos, next);
    MessagesAppend(done, [piece]);
    Regroup(done, piece, Lines(stream[next..]));
  }

  lemma Regroup(a: seq<Text>, x: Text, r: seq<Text>)
    ensures a + ([x] + r) == (a + [x]) + r
  {}

  lemma ProgressEnd(stream: Text, pos: nat, done: seq<Text>, callbacks: seq<Text>)
    requires Progress(stream, pos, done, callbacks)
    ensures |done| <= |Lines(stream)| && callbacks == Messages(Lines(stream)[..|done|])
    ensures Free(stream[pos..], LF) ==> |done| == |Lines(stream)| && callbacks == Callbacks(stream)
  {
    assert Lines(stream)[..|done|] == done;
    if Free(stream[pos..], LF) {
      LinesNone(stream[pos..]);
      assert done + [] == done;
    }
  }

  /** One turn of the loop after its poll: reads a line and answers it, or finds no complete line. */
  method ReadAndAnswer(stream: Text, pos: nat, soFar: seq<Text>, ghost done: seq<Text>)
    returns (next: nat, ok: bool, callbacks: seq<Text>, ghost done': seq<Text>)
    requires Progress(stream, pos, done, soFar)
    ensures ok ==> pos < next && |done'| == |done| + 1 && Progress(stream, next, done', callbacks)
    ensures !ok ==> Free(stream[pos..], LF) && callbacks == soFar && done' == done
  {
    var line: Text;
    line, next, ok := ReadString(stream, pos);
    callbacks, done' := soFar, done;
    if ok {
      ghost var piece := stream[pos..next - 1];
      assert line == piece + [LF] && line[..|line| - 1] == piece;
      ProgressStep(stream, pos, next, done, soFar, piece);
      callbacks := OnLine(line, soFar, piece);
      done' := done + [piece];
    }
  }

  /** The reading loop. The context is seen cancelled at the poll number `cancelAt`; the body ends
      cleanly or with a read error. */
  method StartListen(stream: Text, cancelAt: nat, fails: bool) returns (callbacks: seq<Text>, outcome: Outcome)
    ensures cancelAt <= |Lines(stream)| ==> outcome == Cancelled && callbacks == Messages(Lines(stream)[..cancelAt])
    ensures cancelAt > |Lines(stream)| ==>
              outcome == (if fails then ReadError else Closed) && callbacks == Callbacks(stream)
  {
    callbacks := [];
    var pos, polls, ok := 0, 0, true;
    ghost var done: seq<Text> := [];
    ProgressStart(stream);
    while ok && polls < cancelAt
      invariant polls == |done| <= cancelAt && Progress(stream, pos, done, callbacks)
      invariant !ok ==> polls < cancelAt && Free(stream[pos..], LF)
      decreases |stream| - pos, ok
    {
      var next: nat;
      next, ok, callbacks, done := ReadAndAnswer(stream, pos, callbacks, done);
      if ok {
        pos, polls := next, polls + 1;
      }
    }
    ProgressEnd(stream, pos, done, callbacks);
    outcome := if ok then Cancelled else if fails then ReadError else Closed;
  }
}
