/** What the client delivers of what the server printed. */
module SseRoundTrip {
  import opened SseText
  import opened SseWire

  function TrimAll(pieces: seq<Text>): seq<Text> {
    if pieces == [] then [] else [TrimSpace(pieces[0])] + TrimAll(pieces[1..])
  }

  /** The messages smuggled in by the lines after the first one of an event name or id. */
  function Injected(value: Text): seq<Text> {
    Messages(Split(value)[1..])
  }

  /** The callbacks the server means: the trimmed lines of the data. */
  function Meant(es: seq<Event>): seq<Text> {
    if es == [] then [] else TrimAll(Split(es[0].data)) + Meant(es[1..])
  }

  function Delivered(es: seq<Event>): seq<Text> {
    if es == [] then []
    else Injected(es[0].event) + Injected(es[0].id) + TrimAll(Split(es[0].data)) + Delivered(es[1..])
  }

  // ---------- single lines ----------

  lemma DataMessage(piece: Text)
    ensures Message(DATA + [BLANK] + piece) == [TrimSpace(piece)]
  {
    var y := [BLANK] + piece;
    assert DATA + [BLANK] + piece + [LF] == DATA + (y + [LF]);
    TrimKeepsStart(DATA, y + [LF]);
    TrimRightNewline(y);
    var t := TrimSpace(DATA + [BLANK] + piece + [LF]);
    assert t == DATA + TrimRight(y);
    assert t[..|DATA|] == DATA && t[|DATA|..] == TrimRight(y);
    TrimAroundBlank(piece);
  }

  /** A line that starts with another printing character than 'd' is not delivered. */
  lemma OtherMessage(a: Text, y: Text)
    requires a != [] && 0x20 < a[0] < 0x80 && 0x20 < a[|a| - 1] < 0x80 && a[0] != DATA[0]
    ensures Message(a + y) == []
  {
    assert (a + y) + [LF] == a + (y + [LF]);
    TrimKeepsStart(a, y + [LF]);
  }

  lemma BlankMessage()
    ensures Message([]) == []
  {
    assert [] + [LF] == [LF];
    assert LeadingSpace([LF]) == 1 by { assert [LF][..1] == [LF]; assert StartsIn([LF], 1); }
    assert [LF][1..] == [];
    assert TrimLeft([LF]) == TrimLeft([]) == [];
  }

  // ---------- any line ----------

  lemma {:induction false} TrimLeftSpaces(ts: seq<Text>, y: Text)
    requires Spaces(ts)
    ensures TrimLeft(Flat(ts) + y) == TrimLeft(y)
  {
    if ts == [] {
      assert [] + y == y;
    } else {
      Assoc(ts[0], Flat(ts[1..]), y);
      LeadingSpaceThen(ts[0], Flat(ts[1..]) + y);
      assert (ts[0] + (Flat(ts[1..]) + y))[|ts[0]|..] == Flat(ts[1..]) + y;
      TrimLeftSpaces(ts[1..], y);
    }
  }

  lemma TrimBehindSpaces(ts: seq<Text>, y: Text)
    requires Spaces(ts)
    ensures TrimSpace(Flat(ts) + y) == TrimSpace(y)
  {
    TrimLeftSpaces(ts, y);
  }

  /** The trailing newline makes no difference. */
  lemma TrimLine(line: Text)
    ensures TrimSpace(line + [LF]) == TrimSpace(line)
  {
    TrimEitherOrder(line + [LF]);
    TrimEitherOrder(line);
    TrimRightNewline(line);
  }

  /** A line that is "data:" and `y`, behind any white space, is delivered as `y` without white space at
      its ends. */
  lemma DataIsDelivered(ts: seq<Text>, y: Text)
    requires Spaces(ts)
    ensures Message(Flat(ts) + (DATA + y)) == [TrimSpace(y)]
  {
    var line := Flat(ts) + (DATA + y);
    TrimLine(line);
    TrimBehindSpaces(ts, DATA + y);
    TrimKeepsStart(DATA, y);
    var t := DATA + TrimRight(y);
    assert t[..|DATA|] == DATA && t[|DATA|..] == TrimRight(y);
    TrimEitherOrder(y);
    TrimEitherOrder(TrimRight(y));
    TrimRightTwice(y);
  }

  /** And only such lines are delivered: nothing is made of any other. */
  lemma OnlyDataIsDelivered(line: Text) returns (ts: seq<Text>, y: Text)
    requires Message(line) != []
    ensures Spaces(ts) && line == Flat(ts) + (DATA + y)
  {
    TrimLine(line);
    var after;
    ts, after := TrimSpaceMeaning(line);
    var rest := AfterPrefix(TrimSpace(line));
    y := rest + Flat(after);
    Assoc(DATA, rest, Flat(after));
  }

  lemma AfterPrefix(t: Text) returns (rest: Text)
    requires HasPrefix(t, DATA)
    ensures t == DATA + rest
  {
    rest := t[|DATA|..];
  }

  /** What the reader takes for lines: they end with a newline each, and what is left has none. */
  function Unlines(lines: seq<Text>): Text {
    if lines == [] then [] else lines[0] + [LF] + Unlines(lines[1..])
  }

  lemma {:induction false} JoinIsUnlines(pieces: seq<Text>)
    requires pieces != []
    ensures Join(pieces) == Unlines(pieces[..|pieces| - 1]) + pieces[|pieces| - 1]
  {
    var n := |pieces| - 1;
    if n == 0 {
      assert [] + pieces[0] == pieces[0];
    } else {
      JoinIsUnlines(pieces[1..]);
      assert pieces[..n][1..] == pieces[1..][..n - 1];
      Assoc(pieces[0] + [LF], Unlines(pieces[..n][1..]), pieces[n]);
    }
  }

  lemma LinesMeaning(stream: Text) returns (rest: Text)
    ensures stream == Unlines(Lines(stream)) + rest && Free(rest, LF)
    ensures forall i :: 0 <= i < |Lines(stream)| ==> Free(Lines(stream)[i], LF)
  {
    JoinSplit(stream);
    JoinIsUnlines(Split(stream));
    rest := Split(stream)[|Split(stream)| - 1];
  }

  // ---------- whole frames ----------

  lemma LinesAfter(a: Text, b: Text)
    ensures Lines(a + [LF] + b) == Split(a) + Lines(b)
  {
    SplitAt(a, b);
    assert (Split(a) + Split(b))[..|Split(a)| + |Split(b)| - 1] == Split(a) + Split(b)[..|Split(b)| - 1];
  }

  lemma CallbacksAfter(a: Text, b: Text)
    ensures Callbacks(a + [LF] + b) == Messages(Split(a)) + Callbacks(b)
  {
    LinesAfter(a, b);
    MessagesAppend(Split(a), Lines(b));
  }

  lemma SingleMessage(line: Text)
    ensures Messages([line]) == Message(line)
  {
    var none: seq<Text> := [];
    assert [line][1..] == none;
  }

  lemma NameFacts(name: Text)
    requires name == EVENT || name == ID
    ensures Free(name, LF) && |name| > 1
    ensures var word := name[..|name| - 1];
            name == word + [BLANK] && 0x20 < word[0] < 0x80 && 0x20 < word[|word| - 1] < 0x80 && word[0] != DATA[0]
  {}

  lemma FieldLine(name: Text, piece: Text)
    requires name == EVENT || name == ID
    ensures Message(name + piece) == []
  {
    NameFacts(name);
    var word := name[..|name| - 1];
    assert name + piece == word + ([BLANK] + piece);
    OtherMessage(word, [BLANK] + piece);
  }

  lemma FieldMessages(name: Text, value: Text)
    requires name == EVENT || name == ID
    ensures Messages(Split(name + value)) == Injected(value)
  {
    NameFacts(name);
    SplitPrefix(name, value);
    var head, tail := name + Split(value)[0], Split(value)[1..];
    MessagesAppend([head], tail);
    SingleMessage(head);
    FieldLine(name, Split(value)[0]);
    assert Messages([head] + tail) == [] + Messages(tail);
  }

  /** An event or id line with everything its value brings along. */
  lemma FieldCallbacks(name: Text, value: Text, rest: Text)
    requires name == EVENT || name == ID
    ensures Callbacks(Field(name, value) + rest) == Injected(value) + Callbacks(rest)
  {
    if value == [] {
      assert Field(name, value) + rest == rest;
      FreeInjectsNothing(value);
    } else {
      CallbacksAfter(name + value, rest);
      FieldMessages(name, value);
    }
  }

  lemma FreeInjectsNothing(value: Text)
    requires Free(value, LF)
    ensures Injected(value) == []
  {
    SplitFree(value);
    var none: seq<Text> := [];
    assert Split(value)[1..] == none;
  }

  lemma DataLineFree(piece: Text)
    requires Free(piece, LF)
    ensures Split(DATA + [BLANK] + piece) == [DATA + [BLANK] + piece]
  {
    SplitFree(DATA + [BLANK] + piece);
  }

  lemma OneDataLine(piece: Text, rest: Text)
    requires Free(piece, LF)
    ensures Callbacks(DATA + [BLANK] + piece + [LF] + rest) == [TrimSpace(piece)] + Callbacks(rest)
  {
    CallbacksAfter(DATA + [BLANK] + piece, rest);
    DataLineFree(piece);
    SingleMessage(DATA + [BLANK] + piece);
    DataMessage(piece);
  }

  lemma {:induction false} DataCallbacks(pieces: seq<Text>, rest: Text)
    requires forall i :: 0 <= i < |pieces| ==> Free(pieces[i], LF)
    ensures Callbacks(DataLines(pieces) + rest) == TrimAll(pieces) + Callbacks(rest)
  {
    if pieces == [] {
      assert DataLines(pieces) + rest == rest;
    } else {
      var line, more := DATA + [BLANK] + pieces[0] + [LF], DataLines(pieces[1..]);
      assert (line + more) + rest == line + (more + rest);
      OneDataLine(pieces[0], more + rest);
      DataCallbacks(pieces[1..], rest);
      Assoc([TrimSpace(pieces[0])], TrimAll(pieces[1..]), Callbacks(rest));
    }
  }

  lemma BlankLine(rest: Text)
    ensures Callbacks([LF] + rest) == Callbacks(rest)
  {
    assert [] + [LF] + rest == [LF] + rest;
    CallbacksAfter([], rest);
    SingleMessage([]);
    BlankMessage();
    assert Split([]) == [[]];
  }

  /** What one printed event makes the client deliver, for any event, id and data. */
  lemma FrameCallbacks(e: Event, rest: Text)
    ensures Callbacks(Frame(e) + rest) ==
            Injected(e.event) + Injected(e.id) + TrimAll(Split(e.data)) + Callbacks(rest)
  {
    var f, g, d := Field(EVENT, e.event), Field(ID, e.id), DataLines(Split(e.data));
    Assoc(f + g + d, [LF], rest);
    Assoc(f + g, d, [LF] + rest);
    Assoc(f, g, d + ([LF] + rest));
    FieldCallbacks(EVENT, e.event, g + (d + ([LF] + rest)));
    FieldCallbacks(ID, e.id, d + ([LF] + rest));
    JoinSplit(e.data);
    DataCallbacks(Split(e.data), [LF] + rest);
    BlankLine(rest);
    Assoc(Injected(e.id), TrimAll(Split(e.data)), Callbacks(rest));
    Assoc(Injected(e.event), Injected(e.id) + TrimAll(Split(e.data)), Callbacks(rest));
    Assoc(Injected(e.event), Injected(e.id), TrimAll(Split(e.data)));
  }

  /** The client's callbacks for every sequence of printed events. */
  lemma {:induction false} StreamCallbacks(es: seq<Event>)
    ensures Callbacks(Stream(es)) == Delivered(es)
  {
    if es == [] {
      assert Lines([]) == [];
    } else {
      FrameCallbacks(es[0], Stream(es[1..]));
      StreamCallbacks(es[1..]);
    }
  }

  // ---------- the round trip ----------

  predicate Clean(es: seq<Event>) {
    forall i :: 0 <= i < |es| ==> Injected(es[i].event) == [] && Injected(es[i].id) == []
  }

  lemma {:induction false} DeliveredLength(es: seq<Event>)
    ensures |Delivered(es)| >= |Meant(es)|
    ensures |Delivered(es)| == |Meant(es)| ==> Clean(es)
    ensures Clean(es) ==> Delivered(es) == Meant(es)
  {
    if es != [] {
      DeliveredLength(es[1..]);
      assert |Delivered(es)| ==
             |Injected(es[0].event)| + |Injected(es[0].id)| + |TrimAll(Split(es[0].data))| + |Delivered(es[1..])|;
      assert |Meant(es)| == |TrimAll(Split(es[0].data))| + |Meant(es[1..])|;
      if Clean(es) {
        assert forall i :: 0 <= i < |es[1..]| ==> es[1..][i] == es[i + 1];
        assert [] + [] + TrimAll(Split(es[0].data)) == TrimAll(Split(es[0].data));
      }
    }
  }

  /** The callbacks are the trimmed lines of the data, in order, exactly when no line after the first
      of an event name or id trims to one that starts with "data:". */
  lemma RoundTripIff(es: seq<Event>)
    ensures Callbacks(Stream(es)) == Meant(es) <==> Clean(es)
  {
    StreamCallbacks(es);
    DeliveredLength(es);
  }

  /** In particular when events and ids contain no newline. */
  lemma RoundTrip(es: seq<Event>)
    requires forall i :: 0 <= i < |es| ==> Free(es[i].event, LF) && Free(es[i].id, LF)
    ensures Callbacks(Stream(es)) == Meant(es)
  {
    forall i | 0 <= i < |es| ensures Injected(es[i].event) == [] && Injected(es[i].id) == [] {
      FreeInjectsNothing(es[i].event);
      FreeInjectsNothing(es[i].id);
    }
    RoundTripIff(es);
  }

  /** An id whose second line begins with "data:" is delivered as a message of its own. */
  lemma NewlineInjects()
    ensures var es := [Event([], [49, LF] + DATA + [120], [])];
            Callbacks(Stream(es)) != Meant(es)
  {
    var id := [49, LF] + DATA + [120];
    assert id == [49] + [LF] + (DATA + [120]);
    SplitAt([49], DATA + [120]);
    SplitFree([49]);
    SplitFree(DATA + [120]);
    assert Split(id)[1..] == [DATA + [120]];
    assert (DATA + [120]) + [LF] == DATA + ([120] + [LF]);
    TrimKeepsStart(DATA, [120] + [LF]);
    assert Message(DATA + [120]) != [];
    var es := [Event([], id, [])];
    assert es[0].id == id && Injected(es[0].id) != [];
    RoundTripIff(es);
  }

  // ---------- truncation ----------

  lemma {:induction false} LinesOfPrefix(s: Text, n: nat)
    requires n <= |s|
    ensures Lines(s[..n]) <= Lines(s)
  {
    if n > 0 {
      assert s[..n][1..] == s[1..][..n - 1];
      LinesOfPrefix(s[1..], n - 1);
    } else {
      assert Lines([]) == [];
    }
  }

  /** Cutting the stream at any byte delivers a prefix of the callbacks. */
  lemma TruncationDeliversPrefix(s: Text, n: nat)
    requires n <= |s|
    ensures Callbacks(s[..n]) <= Callbacks(s)
  {
    LinesOfPrefix(s, n);
    var a, b := Lines(s[..n]), Lines(s);
    assert b == a + b[|a|..];
    MessagesAppend(a, b[|a|..]);
  }
}
