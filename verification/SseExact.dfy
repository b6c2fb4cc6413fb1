/** Exactly when the printed events come back from the standard's interpreter, for events of any bytes. */
module SseExact {
  import opened SseText
  import opened SseUtf8
  import opened SseWire
  import opened SseRoundTrip
  import opened SseStandard

  predicate OneLine(s: Text) {
    Free(s, LF) && Free(s, CR)
  }

  /** What the decoder leaves alone, that is, valid UTF-8. */
  predicate Decoded(s: Text) {
    Scrub(s) == s
  }

  lemma {:induction false} ScrubLonger(s: Text)
    ensures |Scrub(s)| >= |s|
    decreases |s|
  {
    if s != [] {
      ScrubLonger(s[CharEnd(s)..]);
    }
  }

  lemma DecodedParts(a: Text, c: Byte, b: Text)
    requires c < 0x80
    ensures Decoded(a + [c] + b) <==> Decoded(a) && Decoded(b)
  {
    ScrubAround(a, c, b);
    ScrubLonger(a);
    ScrubLonger(b);
    SameParts(Scrub(a), Scrub(b), a, b, c);
  }

  lemma SameParts(x: Text, y: Text, a: Text, b: Text, c: Byte)
    requires |x| >= |a| && |y| >= |b|
    ensures x + [c] + y == a + [c] + b <==> x == a && y == b
  {
    if x + [c] + y == a + [c] + b {
      assert |x| + 1 + |y| == |a| + 1 + |b|;
      assert x == (x + [c] + y)[..|a|] && y == (x + [c] + y)[|a| + 1..];
      assert a == (a + [c] + b)[..|a|] && b == (a + [c] + b)[|a| + 1..];
    }
  }

  // ---------- what a dispatched message can be ----------

  /** A line of a decoded text. */
  predicate FitLine(line: Text) {
    OneLine(line) && Decoded(line)
  }

  lemma DecodedTail(c: Byte, s: Text)
    requires c < 0x80 && Decoded([c] + s)
    ensures Decoded(s)
  {
    assert [] + [c] + s == [c] + s;
    DecodedParts([], c, s);
  }

  lemma AfterBreak(s: Text, line: Text)
    requires s != [] && (s[0] == LF || s[0] == CR) && Decoded(line + s)
    ensures Decoded(line) && Decoded(s[1..]) && (|s| > 1 && s[1] == LF ==> Decoded(s[2..]))
  {
    assert line + s == line + [s[0]] + s[1..];
    DecodedParts(line, s[0], s[1..]);
    if |s| > 1 && s[1] == LF {
      assert s[1..] == [LF] + s[2..];
      DecodedTail(LF, s[2..]);
    }
  }

  lemma {:induction false} StreamLinesFit(s: Text, line: Text)
    requires Decoded(line + s) && OneLine(line)
    ensures forall i :: 0 <= i < |StreamLines(s, line)| ==> FitLine(StreamLines(s, line)[i])
    decreases |s|
  {
    if s != [] {
      if s[0] == LF || s[0] == CR {
        AfterBreak(s, line);
        var rest := if s[0] == CR && |s| > 1 && s[1] == LF then s[2..] else s[1..];
        assert [] + rest == rest;
        StreamLinesFit(rest, []);
      } else {
        assert line + s == (line + [s[0]]) + s[1..];
        StreamLinesFit(s[1..], line + [s[0]]);
      }
    }
  }

  /** Types are on one line and valid, and data have no CR. */
  predicate FitMessage(m: MessageEvent) {
    FitLine(m.kind) && Free(m.data, CR)
  }

  predicate FitSource(s: Source) {
    && FitLine(s.kind) && Free(s.data, CR)
    && forall i :: 0 <= i < |s.dispatched| ==> FitMessage(s.dispatched[i])
  }

  lemma EmptyFits()
    ensures FitLine([])
  {}

  lemma AsciiFits(line: Text)
    requires IsAscii(line) && OneLine(line)
    ensures FitLine(line)
  {
    AsciiPrefix(line, []);
    assert line + [] == line;
  }

  function KindOf(kind: Text): Text {
    if kind == [] then DEFAULT_KIND else kind
  }

  lemma KindFits(kind: Text)
    requires FitLine(kind)
    ensures FitLine(KindOf(kind))
  {
    if kind == [] {
      AsciiFits(KindOf(kind));
    }
  }

  lemma MessageFits(s: Source)
    requires FitSource(s) && s.data != []
    ensures |Dispatch(s).dispatched| == |s.dispatched| + 1 && Dispatch(s).dispatched[..|s.dispatched|] == s.dispatched
    ensures FitMessage(Dispatch(s).dispatched[|s.dispatched|])
  {
    KindFits(s.kind);
    assert Dispatch(s).dispatched[|s.dispatched|].kind == KindOf(s.kind);
  }

  lemma DispatchFits(s: Source)
    requires FitSource(s)
    ensures FitSource(Dispatch(s))
  {
    EmptyFits();
    if s.data != [] {
      MessageFits(s);
      forall i | 0 <= i < |Dispatch(s).dispatched| ensures FitMessage(Dispatch(s).dispatched[i]) {
        assert i < |s.dispatched| ==> Dispatch(s).dispatched[..|s.dispatched|][i] == s.dispatched[i];
      }
    }
  }

  lemma FieldFits(s: Source, name: Text, value: Text)
    requires FitSource(s) && FitLine(value)
    ensures FitSource(ProcessField(s, name, value))
  {}

  lemma DropBlankFits(value: Text)
    requires FitLine(value)
    ensures FitLine(DropBlank(value))
  {
    if value != [] && value[0] == BLANK {
      assert value == [BLANK] + value[1..];
      DecodedTail(BLANK, value[1..]);
    }
  }

  lemma AfterColon(a: Text, value: Text)
    requires FitLine(a + [COLON] + value)
    ensures FitLine(value)
  {
    DecodedParts(a, COLON, value);
    assert forall i :: 0 <= i < |value| ==> (a + [COLON] + value)[|a| + 1 + i] == value[i];
  }

  lemma ValueFits(line: Text, k: nat)
    requires FitLine(line) && k < |line| && line[k] == COLON
    ensures FitLine(DropBlank(line[k + 1..]))
  {
    assert line == line[..k] + [COLON] + line[k + 1..];
    AfterColon(line[..k], line[k + 1..]);
    DropBlankFits(line[k + 1..]);
  }

  lemma LineFits(s: Source, line: Text)
    requires FitSource(s) && FitLine(line)
    ensures FitSource(ProcessLine(s, line))
  {
    if line == [] {
      DispatchFits(s);
    } else {
      var k := ColonAt(line);
      if 0 < k < |line| {
        ValueFits(line, k);
        FieldFits(s, line[..k], DropBlank(line[k + 1..]));
      } else if 0 < k {
        EmptyFits();
        FieldFits(s, line, []);
      }
    }
  }

  lemma {:induction false} ProcessFits(s: Source, lines: seq<Text>)
    requires FitSource(s) && forall i :: 0 <= i < |lines| ==> FitLine(lines[i])
    ensures FitSource(Process(s, lines))
    decreases |lines|
  {
    if lines != [] {
      LineFits(s, lines[0]);
      ProcessFits(ProcessLine(s, lines[0]), lines[1..]);
    }
  }

  lemma {:induction false} ScrubTwice(s: Text)
    ensures Decoded(Scrub(s))
    decreases |s|
  {
    if s != [] {
      var rest := Scrub(s[CharEnd(s)..]);
      ChunkIsChar(s);
      CharThen(Chunk(s), rest);
      ScrubTwice(s[CharEnd(s)..]);
    }
  }

  lemma DispatchedFit(stream: Text, lastId: Text)
    ensures forall i :: 0 <= i < |Interpret(stream, lastId)| ==> FitMessage(Interpret(stream, lastId)[i])
  {
    var text := Decode(stream);
    ScrubTwice(if |stream| >= 3 && stream[..3] == BYTE_ORDER_MARK then stream[3..] else stream);
    assert [] + text == text;
    StreamLinesFit(text, []);
    EmptyFits();
    ProcessFits(Source([], [], lastId, []), StreamLines(text, []));
  }

  lemma {:induction false} MessagesOfAt(es: seq<Event>, lastId: Text, i: nat)
    requires i < |es|
    ensures |MessagesOf(es, lastId)| == |es|
    ensures var m := MessagesOf(es, lastId)[i]; m.data == es[i].data && m.kind == KindOf(es[i].event)
  {
    if i > 0 {
      MessagesOfAt(es[1..], IdAfter(es[0], lastId), i - 1);
    } else if |es| > 1 {
      MessagesOfAt(es[1..], IdAfter(es[0], lastId), 0);
    }
  }

  /** The conditions on type and data that no reader can do without. */
  predicate Speakable(es: seq<Event>) {
    forall i :: 0 <= i < |es| ==> FitLine(es[i].event) && Free(es[i].data, CR)
  }

  lemma MustBeSpeakable(es: seq<Event>, lastId: Text)
    requires Interpret(Stream(es), lastId) == MessagesOf(es, lastId)
    ensures Speakable(es)
  {
    DispatchedFit(Stream(es), lastId);
    forall i | 0 <= i < |es| ensures FitLine(es[i].event) && Free(es[i].data, CR) {
      MessagesOfAt(es, lastId, i);
      assert FitMessage(Interpret(Stream(es), lastId)[i]);
      EmptyFits();
    }
  }

  // ---------- one printed event, with any id ----------

  /** A text that ends with a newline can be read for itself. */
  lemma {:induction false} StreamLinesConcat(a: Text, b: Text, line: Text)
    requires if a == [] then line == [] else a[|a| - 1] == LF
    ensures StreamLines(a + b, line) == StreamLines(a, line) + StreamLines(b, [])
    decreases |a|
  {
    if a == [] {
      assert a + b == b;
    } else {
      var k := if a[0] == CR && |a| > 1 && a[1] == LF then 2 else 1;
      var line' := if a[0] == LF || a[0] == CR then [] else line + [a[0]];
      assert (a + b)[k..] == a[k..] + b;
      assert |a| == 1 ==> a[0] == LF;
      StreamLinesConcat(a[k..], b, line');
      if a[0] == LF || a[0] == CR {
        Assoc([line], StreamLines(a[k..], []), StreamLines(b, []));
      }
    }
  }

  /** The lines the standard reads in a printed id. */
  function IdLines(id: Text): seq<Text> {
    StreamLines(Field(ID, id), [])
  }

  lemma CrFreeLines(s: Text)
    requires Free(s, CR)
    ensures StreamLines(s, []) == Lines(s)
  {
    StreamLinesAreLines(s, []);
    assert [] + s == s;
  }

  lemma NameLines(name: Text, value: Text)
    requires (name == EVENT || name == ID) && OneLine(value)
    ensures StreamLines(Field(name, value), []) == FieldLines(name, value)
  {
    CrFreeLines(Field(name, value));
    FieldLinesPrinted(name, value, []);
    assert Field(name, value) + [] == Field(name, value) && Lines([]) == [];
    assert FieldLines(name, value) + [] == FieldLines(name, value);
  }

  lemma DataFrameLines(data: Text)
    requires Free(data, CR)
    ensures StreamLines(DataLines(Split(data)) + [LF], []) == DataLineList(Split(data)) + [[]]
  {
    SplitPiecesFree(data, CR);
    DataLinesCrFree(Split(data));
    CrFreeLines(DataLines(Split(data)) + [LF]);
    JoinSplit(data);
    DataLinesPrinted(Split(data), [LF]);
    assert [] + [LF] + [] == [LF];
    LinesAfter([], []);
    assert Lines([]) == [] && [[]] + Lines([]) == [[]];
  }

  /** The lines of a printed event. */
  function ReadLines(e: Event): seq<Text> {
    FieldLines(EVENT, e.event) + (IdLines(e.id) + (DataLineList(Split(e.data)) + [[]]))
  }

  lemma FieldEnds(name: Text, value: Text)
    ensures Field(name, value) == [] || Field(name, value)[|Field(name, value)| - 1] == LF
  {}

  lemma FrameRead(e: Event, rest: Text)
    requires OneLine(e.event) && Free(e.data, CR)
    ensures StreamLines(Frame(e) + rest, []) == ReadLines(e) + StreamLines(rest, [])
  {
    var f, g, d := Field(EVENT, e.event), Field(ID, e.id), DataLines(Split(e.data)) + [LF];
    Assoc(f + g, DataLines(Split(e.data)), [LF]);
    Assoc(f, g, d);
    assert Frame(e) == f + (g + d);
    StreamLinesConcat(Frame(e), rest, []);
    FieldEnds(EVENT, e.event);
    StreamLinesConcat(f, g + d, []);
    FieldEnds(ID, e.id);
    StreamLinesConcat(g, d, []);
    NameLines(EVENT, e.event);
    DataFrameLines(e.data);
  }

  /** The reader's buffers before the data of an event: the type has been read, and the id's lines. */
  function AfterNames(e: Event, lastId: Text): Source {
    Process(Source([], e.event, lastId, []), IdLines(e.id))
  }

  /** What is dispatched does not depend on what was dispatched before. */
  lemma {:induction false} ProcessAfter(s: Source, before: seq<MessageEvent>, lines: seq<Text>)
    ensures Process(s.(dispatched := before + s.dispatched), lines) ==
            Process(s, lines).(dispatched := before + Process(s, lines).dispatched)
    decreases |lines|
  {
    if lines != [] {
      LineAfter(s, before, lines[0]);
      ProcessAfter(ProcessLine(s, lines[0]), before, lines[1..]);
    }
  }

  lemma LineAfter(s: Source, before: seq<MessageEvent>, line: Text)
    ensures ProcessLine(s.(dispatched := before + s.dispatched), line) ==
            ProcessLine(s, line).(dispatched := before + ProcessLine(s, line).dispatched)
  {
    if line == [] && s.data != [] {
      Assoc(before, s.dispatched, [Dispatch(s).dispatched[|s.dispatched|]]);
    }
  }

  /** The message at the end of an event whose names left the buffers `s`. */
  function LastMessage(s: Source, data: Text): MessageEvent {
    MessageEvent(KindOf(s.kind), s.data + data, s.lastId)
  }

  lemma EventRead(s: Source, e: Event)
    requires s.data == [] && s.kind == []
    ensures var n := AfterNames(e, s.lastId);
      Process(s, ReadLines(e)) ==
      Source([], [], n.lastId, s.dispatched + (n.dispatched + [LastMessage(n, e.data)]))
  {
    var a, b, c := FieldLines(EVENT, e.event), IdLines(e.id), DataLineList(Split(e.data)) + [[]];
    ProcessAppend(s, a, b + c);
    NamedProcessed(s, EVENT, e.event);
    var s1 := Process(s, a);
    assert s1 == s.(kind := e.event);
    ProcessAppend(s1, b, c);
    var s0, n := Source([], e.event, s.lastId, []), AfterNames(e, s.lastId);
    ProcessAfter(s0, s.dispatched, b);
    assert s1 == s0.(dispatched := s.dispatched + []);
    var s2 := n.(dispatched := s.dispatched + n.dispatched);
    DataDispatched(s2, e.data);
    Assoc(n.data, e.data, [LF]);
    assert ((n.data + e.data) + [LF])[..|n.data + e.data|] == n.data + e.data;
    Assoc(s.dispatched, n.dispatched, [LastMessage(n, e.data)]);
  }

  /** What the standard dispatches for printed events, whatever their ids are. */
  function Spoken(es: seq<Event>, lastId: Text): seq<MessageEvent> {
    if es == [] then []
    else
      var n := AfterNames(es[0], lastId);
      (n.dispatched + [LastMessage(n, es[0].data)]) + Spoken(es[1..], n.lastId)
  }

  lemma {:induction false} StreamSpoken(s: Source, es: seq<Event>)
    requires s.data == [] && s.kind == []
    requires forall i :: 0 <= i < |es| ==> OneLine(es[i].event) && Free(es[i].data, CR)
    ensures Process(s, StreamLines(Stream(es), [])).dispatched == s.dispatched + Spoken(es, s.lastId)
    decreases |es|
  {
    if es != [] {
      var n := AfterNames(es[0], s.lastId);
      var here := n.dispatched + [LastMessage(n, es[0].data)];
      FrameRead(es[0], Stream(es[1..]));
      ProcessAppend(s, ReadLines(es[0]), StreamLines(Stream(es[1..]), []));
      EventRead(s, es[0]);
      StreamSpoken(Source([], [], n.lastId, s.dispatched + here), es[1..]);
      Assoc(s.dispatched, here, Spoken(es[1..], n.lastId));
    }
  }

  // ---------- which events come back ----------

  /** The reader passes over all lines of the id: they leave the buffers as they would be without it. */
  predicate PassedOver(e: Event, lastId: Text) {
    var n := AfterNames(ScrubEvent(e), lastId);
    n.data == [] && n.dispatched == [] && n.lastId == lastId && KindOf(n.kind) == KindOf(e.event)
  }

  /** An event the standard's reader gets back as it was printed. The reader drops an id with a NUL, so
      all that matters of such an id is that its further lines, if any, do no harm. */
  ghost predicate Readable(e: Event, lastId: Text) {
    && OneLine(e.event) && ValidUtf8(e.event)
    && Free(e.data, CR) && ValidUtf8(e.data)
    && if Free(e.id, NUL) then OneLine(e.id) && ValidUtf8(e.id) else PassedOver(e, lastId)
  }

  ghost predicate AllReadable(es: seq<Event>, lastId: Text) {
    es == [] || (Readable(es[0], lastId) && AllReadable(es[1..], IdAfter(es[0], lastId)))
  }

  lemma OneLineId(e: Event, lastId: Text)
    requires OneLine(e.id)
    ensures AfterNames(e, lastId) == Source([], e.event, IdAfter(e, lastId), [])
  {
    NameLines(ID, e.id);
    NamedProcessed(Source([], e.event, lastId, []), ID, e.id);
  }

  /** So an id with a NUL that is on one line is passed over. */
  lemma NulOnOneLine(e: Event, lastId: Text)
    requires FitLine(e.event) && OneLine(e.id) && !Free(e.id, NUL)
    ensures PassedOver(e, lastId)
  {
    ScrubFreeIff(e.id, NUL);
    ScrubFreeIff(e.id, LF);
    ScrubFreeIff(e.id, CR);
    OneLineId(ScrubEvent(e), lastId);
  }

  lemma {:induction false} LineGoesOn(a: Text, s: Text, line: Text)
    requires OneLine(a)
    ensures StreamLines(a + s, line) == StreamLines(s, line + a)
  {
    if a == [] {
      assert a + s == s && line + a == line;
    } else {
      assert (a + s)[1..] == a[1..] + s && line + a == line + [a[0]] + a[1..];
      LineGoesOn(a[1..], s, line + [a[0]]);
    }
  }

  lemma {:induction false} FirstLine(s: Text, line: Text) returns (k: nat)
    requires !OneLine(s)
    ensures k < |s| && OneLine(s[..k]) && StreamLines(s, line) != [] && StreamLines(s, line)[0] == line + s[..k]
  {
    if s[0] == LF || s[0] == CR {
      k := 0;
    } else {
      k := FirstLine(s[1..], line + [s[0]]);
      assert line + [s[0]] + s[1..][..k] == line + s[..k + 1];
      k := k + 1;
    }
  }

  lemma {:induction false} IdsOneLine(s: Source, lines: seq<Text>)
    requires OneLine(s.lastId) && forall i :: 0 <= i < |lines| ==> OneLine(lines[i])
    ensures OneLine(Process(s, lines).lastId)
    decreases |lines|
  {
    if lines != [] {
      IdsOneLine(ProcessLine(s, lines[0]), lines[1..]);
    }
  }

  lemma {:induction false} StreamLinesOneLine(s: Text, line: Text)
    requires OneLine(line)
    ensures forall i :: 0 <= i < |StreamLines(s, line)| ==> OneLine(StreamLines(s, line)[i])
  {
    if s != [] {
      if s[0] == LF {
        StreamLinesOneLine(s[1..], []);
      } else if s[0] == CR {
        StreamLinesOneLine(if |s| > 1 && s[1] == LF then s[2..] else s[1..], []);
      } else {
        StreamLinesOneLine(s[1..], line + [s[0]]);
      }
    }
  }

  lemma IdLineRead(s: Source, value: Text)
    requires Free(value, NUL)
    ensures ProcessLine(s, ID + value) == s.(lastId := value)
  {
    assert ID + value == ID_NAME + [COLON, BLANK] + value;
    FieldLineProcessed(s, ID_NAME, value);
  }

  lemma IdLinesGoOn(id: Text)
    requires id != []
    ensures IdLines(id) == StreamLines(id + [LF], ID)
  {
    Assoc(ID, id, [LF]);
    LineGoesOn(ID, id + [LF], []);
    assert [] + ID == ID;
  }

  lemma IdFirstLine(id: Text) returns (value: Text, rest: seq<Text>)
    requires id != [] && Free(id, NUL)
    ensures IdLines(id) == [ID + value] + rest && OneLine(value) && Free(value, NUL)
  {
    var s := id + [LF];
    assert s[|id|] == LF;
    var k := FirstLine(s, ID);
    IdLinesGoOn(id);
    value, rest := s[..k], StreamLines(s, ID)[1..];
  }

  /** A printed id without NUL sets the reader's last id, at least to its first line. */
  lemma IdIsSet(e: Event, lastId: Text)
    requires e.id != [] && Free(e.id, NUL)
    ensures OneLine(AfterNames(e, lastId).lastId)
  {
    var value, rest := IdFirstLine(e.id);
    var s := Source([], e.event, lastId, []);
    StreamLinesOneLine(Field(ID, e.id), []);
    assert forall i :: 0 <= i < |rest| ==> rest[i] == IdLines(e.id)[i + 1];
    ProcessOne(s, ID + value, rest);
    IdLineRead(s, value);
    IdsOneLine(s.(lastId := value), rest);
  }

  lemma IdMustFit(e: Event, lastId: Text)
    requires Free(e.id, NUL) && AfterNames(ScrubEvent(e), lastId).lastId == IdAfter(e, lastId)
    ensures OneLine(e.id) && Decoded(e.id)
  {
    if e.id != [] {
      ScrubFreeIff(e.id, NUL);
      ScrubEmpty(e.id);
      IdIsSet(ScrubEvent(e), lastId);
      ScrubFreeIff(e.id, LF);
      ScrubFreeIff(e.id, CR);
      OneLineId(ScrubEvent(e), lastId);
    }
  }

  lemma DataMustFit(before: Text, data: Text)
    requires before + Scrub(data) == data
    ensures before == [] && Decoded(data)
  {
    ScrubLonger(data);
    assert |before + Scrub(data)| == |before| + |Scrub(data)|;
    assert before == [] && [] + Scrub(data) == Scrub(data);
  }

  /** Whether a printed event is read as exactly its own message. */
  predicate ReadAsMeant(e: Event, lastId: Text) {
    var n := AfterNames(ScrubEvent(e), lastId);
    n.dispatched == [] && LastMessage(n, Scrub(e.data)) == MessageOf(e, lastId)
  }

  lemma MeantIsReadable(e: Event, lastId: Text)
    requires FitLine(e.event) && Free(e.data, CR) && ReadAsMeant(e, lastId)
    ensures Readable(e, lastId)
  {
    DataMustFit(AfterNames(ScrubEvent(e), lastId).data, e.data);
    ScrubFixes(e.event);
    ScrubFixes(e.data);
    ScrubFixes(e.id);
    if Free(e.id, NUL) {
      IdMustFit(e, lastId);
    }
  }

  lemma ReadableIsMeant(e: Event, lastId: Text)
    requires Readable(e, lastId)
    ensures ReadAsMeant(e, lastId)
  {
    ScrubFixes(e.event);
    ScrubFixes(e.data);
    ScrubFixes(e.id);
    assert [] + e.data == e.data;
    if Free(e.id, NUL) {
      OneLineId(ScrubEvent(e), lastId);
    }
  }

  lemma {:induction false} SpokenLength(es: seq<Event>, lastId: Text)
    ensures |Spoken(es, lastId)| >= |es|
  {
    if es != [] {
      SpokenLength(es[1..], AfterNames(es[0], lastId).lastId);
    }
  }

  lemma SplitFirst<T>(a: seq<T>, x: T, b: seq<T>, y: T, c: seq<T>)
    requires |b| >= |c|
    ensures (a + [x]) + b == [y] + c <==> a == [] && x == y && b == c
  {
    if (a + [x]) + b == [y] + c {
      assert |(a + [x]) + b| == |a| + 1 + |b|;
      assert a == [] && ((a + [x]) + b)[0] == x && ((a + [x]) + b)[1..] == b;
      assert ([y] + c)[0] == y && ([y] + c)[1..] == c;
    }
  }

  lemma {:induction false} LengthOfMessages(es: seq<Event>, lastId: Text)
    ensures |MessagesOf(es, lastId)| == |es|
  {
    if es != [] {
      LengthOfMessages(es[1..], IdAfter(es[0], lastId));
    }
  }

  lemma {:induction false} SpokenAsMeant(es: seq<Event>, lastId: Text)
    requires Speakable(es)
    ensures Spoken(ScrubEvents(es), lastId) == MessagesOf(es, lastId) <==> AllReadable(es, lastId)
  {
    if es != [] {
      var e, rest := es[0], es[1..];
      assert ScrubEvents(es)[1..] == ScrubEvents(rest);
      var n := AfterNames(ScrubEvent(e), lastId);
      SpokenLength(ScrubEvents(rest), n.lastId);
      LengthOfMessages(rest, IdAfter(e, lastId));
      SplitFirst(n.dispatched, LastMessage(n, Scrub(e.data)), Spoken(ScrubEvents(rest), n.lastId),
                 MessageOf(e, lastId), MessagesOf(rest, IdAfter(e, lastId)));
      if ReadAsMeant(e, lastId) {
        MeantIsReadable(e, lastId);
        SpokenAsMeant(rest, IdAfter(e, lastId));
      } else if Readable(e, lastId) {
        ReadableIsMeant(e, lastId);
      }
    }
  }

  lemma {:induction false} ReadableIsSpeakable(es: seq<Event>, lastId: Text)
    requires AllReadable(es, lastId)
    ensures Speakable(es)
  {
    if es != [] {
      ReadableIsSpeakable(es[1..], IdAfter(es[0], lastId));
      ScrubFixes(es[0].event);
      assert forall i :: 0 < i < |es| ==> es[i] == es[1..][i - 1];
    }
  }

  lemma SpokenAnywhere(es: seq<Event>, lastId: Text)
    requires Speakable(es)
    ensures Interpret(Stream(es), lastId) == Spoken(ScrubEvents(es), lastId)
  {
    DecodePrinted(es);
    forall i | 0 <= i < |es|
      ensures OneLine(ScrubEvents(es)[i].event) && Free(ScrubEvents(es)[i].data, CR)
    {
      ScrubFreeIff(es[i].data, CR);
    }
    StreamSpoken(Source([], [], lastId, []), ScrubEvents(es));
  }

  /** For all events and every last id: the printed events come back from the standard's interpreter
      exactly if types are on one line, data have no CR, ids are on one line or, with a NUL, passed over,
      and all that is read is valid UTF-8. */
  lemma StandardReadsPrintedIff(es: seq<Event>, lastId: Text)
    ensures Interpret(Stream(es), lastId) == MessagesOf(es, lastId) <==> AllReadable(es, lastId)
  {
    if Interpret(Stream(es), lastId) == MessagesOf(es, lastId) {
      MustBeSpeakable(es, lastId);
    }
    if AllReadable(es, lastId) {
      ReadableIsSpeakable(es, lastId);
    }
    if Speakable(es) {
      SpokenAnywhere(es, lastId);
      SpokenAsMeant(es, lastId);
    }
  }

  /** The same for a single event, if its id is on one line or has no NUL. */
  ghost predicate PlainlyReadable(e: Event) {
    && OneLine(e.event) && OneLine(e.id) && Free(e.data, CR)
    && ValidUtf8(e.event) && ValidUtf8(e.data) && (Free(e.id, NUL) ==> ValidUtf8(e.id))
  }

  lemma ReadablePlainly(e: Event, lastId: Text)
    requires Free(e.id, NUL) || OneLine(e.id)
    ensures Readable(e, lastId) <==> PlainlyReadable(e)
  {
    ScrubFixes(e.event);
    if !Free(e.id, NUL) && FitLine(e.event) {
      NulOnOneLine(e, lastId);
    }
  }

  /** If no id has both a NUL and a line end, the condition is on each event alone. */
  lemma StandardReadsPlainIff(es: seq<Event>, lastId: Text)
    requires forall i :: 0 <= i < |es| ==> Free(es[i].id, NUL) || OneLine(es[i].id)
    ensures Interpret(Stream(es), lastId) == MessagesOf(es, lastId) <==>
            forall i :: 0 <= i < |es| ==> PlainlyReadable(es[i])
  {
    StandardReadsPrintedIff(es, lastId);
    AllPlainly(es, lastId);
  }

  lemma {:induction false} AllPlainly(es: seq<Event>, lastId: Text)
    requires forall i :: 0 <= i < |es| ==> Free(es[i].id, NUL) || OneLine(es[i].id)
    ensures AllReadable(es, lastId) <==> forall i :: 0 <= i < |es| ==> PlainlyReadable(es[i])
  {
    if es != [] {
      ReadablePlainly(es[0], lastId);
      AllPlainly(es[1..], IdAfter(es[0], lastId));
      assert forall i :: 0 < i < |es| ==> es[i] == es[1..][i - 1];
    }
  }
}
