/** The event stream interpretation of the WHATWG HTML Living Standard, sections 9.2.5 and 9.2.6, and
    what it makes of the printed events. */
module SseStandard {
  import opened SseText
  import opened SseUtf8
  import opened SseWire
  import opened SseRoundTrip

  // ---------- section 9.2.5: lines end in CRLF, LF or CR ----------

  function StreamLines(s: Text, line: Text): seq<Text> {
    if s == [] then []
    else if s[0] == LF then [line] + StreamLines(s[1..], [])
    else if s[0] == CR then [line] + StreamLines(if |s| > 1 && s[1] == LF then s[2..] else s[1..], [])
    else StreamLines(s[1..], line + [s[0]])
  }

  // ---------- section 9.2.6: interpreting the lines ----------

  const EVENT_NAME: Text := [101, 118, 101, 110, 116]                  // "event"
  const ID_NAME: Text := [105, 100]                                    // "id"
  const DATA_NAME: Text := [100, 97, 116, 97]                          // "data"
  const DEFAULT_KIND: Text := [109, 101, 115, 115, 97, 103, 101]       // "message"

  /** A dispatched MessageEvent. */
  datatype MessageEvent = MessageEvent(kind: Text, data: Text, lastId: Text)

  /** The interpreter's buffers, and what it has dispatched. */
  datatype Source = Source(data: Text, kind: Text, lastId: Text, dispatched: seq<MessageEvent>)

  /** The position of the first colon, or the length. */
  function ColonAt(line: Text): (k: nat)
    ensures k <= |line| && Free(line[..k], COLON) && (k < |line| ==> line[k] == COLON)
  {
    if line == [] || line[0] == COLON then 0 else 1 + ColonAt(line[1..])
  }

  function DropBlank(value: Text): Text {
    if value != [] && value[0] == BLANK then value[1..] else value
  }

  function ProcessField(s: Source, name: Text, value: Text): Source {
    if name == EVENT_NAME then s.(kind := value)
    else if name == DATA_NAME then s.(data := s.data + value + [LF])
    else if name == ID_NAME then (if Free(value, NUL) then s.(lastId := value) else s)
    else s
  }

  function Dispatch(s: Source): Source {
    if s.data == [] then s.(kind := [])
    else
      var data := if s.data[|s.data| - 1] == LF then s.data[..|s.data| - 1] else s.data;
      var m := MessageEvent(if s.kind == [] then DEFAULT_KIND else s.kind, data, s.lastId);
      s.(data := [], kind := [], dispatched := s.dispatched + [m])
  }

  function ProcessLine(s: Source, line: Text): Source {
    if line == [] then Dispatch(s)
    else
      var k := ColonAt(line);
      if k == 0 then s                                  // a comment
      else if k < |line| then ProcessField(s, line[..k], DropBlank(line[k + 1..]))
      else ProcessField(s, line, [])
  }

  function Process(s: Source, lines: seq<Text>): Source
    decreases |lines|
  {
    if lines == [] then s else Process(ProcessLine(s, lines[0]), lines[1..])
  }

  /** A whole decoded text; what is not followed by a line end, or by an empty line, is discarded. */
  function InterpretText(text: Text, lastId: Text): seq<MessageEvent> {
    Process(Source([], [], lastId, []), StreamLines(text, [])).dispatched
  }

  /** A whole stream of bytes: it is decoded as UTF-8 first. */
  function Interpret(stream: Text, lastId: Text): seq<MessageEvent> {
    InterpretText(Decode(stream), lastId)
  }

  // ---------- CR-free streams ----------

  /** Without CR the standard's lines are those of the client. */
  lemma {:induction false} StreamLinesAreLines(s: Text, line: Text)
    requires Free(s, CR) && Free(line, LF)
    ensures StreamLines(s, line) == Lines(line + s)
  {
    SplitPrefix(line, s);
    if s == [] {
      assert line + s == line;
    } else if s[0] == LF {
      StreamLinesAreLines(s[1..], []);
      assert [] + s[1..] == s[1..];
      assert line + s == line + [LF] + s[1..];
      LinesAfter(line, s[1..]);
      SplitFree(line);
    } else {
      StreamLinesAreLines(s[1..], line + [s[0]]);
      assert line + s == (line + [s[0]]) + s[1..];
    }
  }

  lemma {:induction false} ProcessAppend(s: Source, a: seq<Text>, b: seq<Text>)
    ensures Process(s, a + b) == Process(Process(s, a), b)
    decreases |a|
  {
    if a == [] {
      assert a + b == b;
    } else {
      assert (a + b)[1..] == a[1..] + b;
      ProcessAppend(ProcessLine(s, a[0]), a[1..], b);
    }
  }

  // ---------- the lines of one printed event ----------

  /** A field line as the printer writes it. */
  lemma FieldLineProcessed(s: Source, name: Text, value: Text)
    requires name != [] && Free(name, COLON)
    ensures ProcessLine(s, name + [COLON, BLANK] + value) == ProcessField(s, name, value)
  {
    var line := name + [COLON, BLANK] + value;
    ColonAfter(name, [BLANK] + value);
    assert line == name + [COLON] + ([BLANK] + value);
    assert line[..|name|] == name && line[|name| + 1..] == [BLANK] + value;
    assert ([BLANK] + value)[1..] == value;
  }

  lemma {:induction false} ColonAfter(name: Text, rest: Text)
    requires Free(name, COLON)
    ensures ColonAt(name + [COLON] + rest) == |name|
  {
    var line := name + [COLON] + rest;
    if name != [] {
      assert line[1..] == name[1..] + [COLON] + rest;
      ColonAfter(name[1..], rest);
    }
  }

  function FieldLines(name: Text, value: Text): seq<Text> {
    if value == [] then [] else [name + value]
  }

  function DataLineList(pieces: seq<Text>): seq<Text> {
    if pieces == [] then [] else [DATA + [BLANK] + pieces[0]] + DataLineList(pieces[1..])
  }

  /** The lines of a printed event whose name and id have no newline. */
  function FrameLines(e: Event): seq<Text> {
    FieldLines(EVENT, e.event) + FieldLines(ID, e.id) + DataLineList(Split(e.data)) + [[]]
  }

  lemma FieldLinesPrinted(name: Text, value: Text, rest: Text)
    requires name == EVENT || name == ID
    requires Free(value, LF)
    ensures Lines(Field(name, value) + rest) == FieldLines(name, value) + Lines(rest)
  {
    if value == [] {
      assert Field(name, value) + rest == rest;
    } else {
      NameFacts(name);
      LinesAfter(name + value, rest);
      SplitFree(name + value);
    }
  }

  lemma {:induction false} DataLinesPrinted(pieces: seq<Text>, rest: Text)
    requires forall i :: 0 <= i < |pieces| ==> Free(pieces[i], LF)
    ensures Lines(DataLines(pieces) + rest) == DataLineList(pieces) + Lines(rest)
  {
    if pieces == [] {
      assert DataLines(pieces) + rest == rest;
    } else {
      var line, more := DATA + [BLANK] + pieces[0], DataLines(pieces[1..]);
      assert (line + [LF] + more) + rest == line + [LF] + (more + rest);
      LinesAfter(line, more + rest);
      DataLineFree(pieces[0]);
      DataLinesPrinted(pieces[1..], rest);
      Assoc([line], DataLineList(pieces[1..]), Lines(rest));
    }
  }

  lemma FramePrinted(e: Event, rest: Text)
    requires Free(e.event, LF) && Free(e.id, LF)
    ensures Lines(Frame(e) + rest) == FrameLines(e) + Lines(rest)
  {
    var f, g, d := Field(EVENT, e.event), Field(ID, e.id), DataLines(Split(e.data));
    Assoc(f + g + d, [LF], rest);
    Assoc(f + g, d, [LF] + rest);
    Assoc(f, g, d + ([LF] + rest));
    FieldLinesPrinted(EVENT, e.event, g + (d + ([LF] + rest)));
    FieldLinesPrinted(ID, e.id, d + ([LF] + rest));
    JoinSplit(e.data);
    DataLinesPrinted(Split(e.data), [LF] + rest);
    BlankLineLines(rest);
    var a, b, c := FieldLines(EVENT, e.event), FieldLines(ID, e.id), DataLineList(Split(e.data));
    Assoc(c, [[]], Lines(rest));
    Assoc(b, c + [[]], Lines(rest));
    Assoc(a, b + (c + [[]]), Lines(rest));
    Assoc(b, c, [[]]);
    Assoc(a, b + c, [[]]);
    Assoc(a, b, c);
  }

  lemma BlankLineLines(rest: Text)
    ensures Lines([LF] + rest) == [[]] + Lines(rest)
  {
    assert [] + [LF] + rest == [LF] + rest;
    LinesAfter([], rest);
  }

  // ---------- interpreting one printed event ----------

  lemma OneDataProcessed(s: Source, piece: Text)
    ensures ProcessLine(s, DATA + [BLANK] + piece) == s.(data := s.data + piece + [LF])
  {
    assert DATA + [BLANK] + piece == DATA_NAME + [COLON, BLANK] + piece;
    FieldLineProcessed(s, DATA_NAME, piece);
  }

  lemma ProcessOne(s: Source, line: Text, lines: seq<Text>)
    ensures Process(s, [line] + lines) == Process(ProcessLine(s, line), lines)
  {
    assert ([line] + lines)[1..] == lines;
  }

  lemma {:induction false} DataProcessed(s: Source, pieces: seq<Text>)
    requires |pieces| > 0
    ensures Process(s, DataLineList(pieces)) == s.(data := s.data + (Join(pieces) + [LF]))
    decreases |pieces|
  {
    var piece, rest := pieces[0], pieces[1..];
    ProcessOne(s, DATA + [BLANK] + piece, DataLineList(rest));
    OneDataProcessed(s, piece);
    Assoc(s.data, piece, [LF]);
    if rest != [] {
      DataProcessed(s.(data := s.data + piece + [LF]), rest);
      JoinedData(s.data, piece, Join(rest));
    }
  }

  lemma JoinedData(data: Text, piece: Text, more: Text)
    ensures (data + piece + [LF]) + (more + [LF]) == data + ((piece + [LF] + more) + [LF])
  {}

  lemma NamedProcessed(s: Source, name: Text, value: Text)
    requires name == EVENT || name == ID
    ensures Process(s, FieldLines(name, value)) ==
            if value == [] then s else ProcessField(s, if name == EVENT then EVENT_NAME else ID_NAME, value)
  {
    if value != [] {
      var short := if name == EVENT then EVENT_NAME else ID_NAME;
      assert name + value == short + [COLON, BLANK] + value;
      FieldLineProcessed(s, short, value);
      assert [name + value][1..] == [];
    }
  }

  /** The message the standard dispatches for a printed event. */
  function MessageOf(e: Event, lastId: Text): MessageEvent {
    MessageEvent(if e.event == [] then DEFAULT_KIND else e.event, e.data, IdAfter(e, lastId))
  }

  function IdAfter(e: Event, lastId: Text): Text {
    if e.id == [] || !Free(e.id, NUL) then lastId else e.id
  }

  lemma BlankProcessed(s: Source)
    ensures Process(s, [[]]) == Dispatch(s)
  {
    var blank: seq<Text> := [[]];
    assert blank[1..] == [];
    assert Process(s, blank) == Process(ProcessLine(s, []), []);
  }

  lemma NamesProcessed(s: Source, e: Event)
    requires s.kind == []
    ensures Process(s, FieldLines(EVENT, e.event) + FieldLines(ID, e.id)) ==
            s.(kind := e.event, lastId := IdAfter(e, s.lastId))
  {
    var a, b := FieldLines(EVENT, e.event), FieldLines(ID, e.id);
    ProcessAppend(s, a, b);
    NamedProcessed(s, EVENT, e.event);
    NamedProcessed(Process(s, a), ID, e.id);
  }

  lemma DataDispatched(s: Source, data: Text)
    ensures Process(s, DataLineList(Split(data)) + [[]]) == Dispatch(s.(data := s.data + (data + [LF])))
  {
    var c := DataLineList(Split(data));
    ProcessAppend(s, c, [[]]);
    DataProcessed(s, Split(data));
    JoinSplit(data);
    BlankProcessed(Process(s, c));
  }

  lemma FrameProcessed(s: Source, e: Event)
    requires s.data == [] && s.kind == []
    ensures Process(s, FrameLines(e)) ==
            s.(lastId := IdAfter(e, s.lastId), dispatched := s.dispatched + [MessageOf(e, s.lastId)])
  {
    var a, b, c := FieldLines(EVENT, e.event), FieldLines(ID, e.id), DataLineList(Split(e.data));
    Assoc(a + b, c, [[]]);
    ProcessAppend(s, a + b, c + [[]]);
    NamesProcessed(s, e);
    DataDispatched(Process(s, a + b), e.data);
    assert [] + (e.data + [LF]) == e.data + [LF] && (e.data + [LF])[..|e.data|] == e.data;
  }

  // ---------- whole streams ----------

  function MessagesOf(es: seq<Event>, lastId: Text): seq<MessageEvent> {
    if es == [] then [] else [MessageOf(es[0], lastId)] + MessagesOf(es[1..], IdAfter(es[0], lastId))
  }

  predicate OneLineNames(es: seq<Event>) {
    forall i :: 0 <= i < |es| ==>
      Free(es[i].event, LF) && Free(es[i].event, CR) && Free(es[i].id, LF) && Free(es[i].id, CR)
  }

  predicate DataCrFree(es: seq<Event>) {
    forall i :: 0 <= i < |es| ==> Free(es[i].data, CR)
  }

  lemma {:induction false} StreamProcessed(s: Source, es: seq<Event>)
    requires OneLineNames(es) && s.data == [] && s.kind == []
    ensures Process(s, Lines(Stream(es))).dispatched == s.dispatched + MessagesOf(es, s.lastId)
    decreases |es|
  {
    if es == [] {
      assert Lines([]) == [];
    } else {
      FramePrinted(es[0], Stream(es[1..]));
      ProcessAppend(s, FrameLines(es[0]), Lines(Stream(es[1..])));
      FrameProcessed(s, es[0]);
      StreamProcessed(Process(s, FrameLines(es[0])), es[1..]);
      Assoc(s.dispatched, [MessageOf(es[0], s.lastId)], MessagesOf(es[1..], IdAfter(es[0], s.lastId)));
    }
  }

  lemma {:induction false} DataLinesCrFree(pieces: seq<Text>)
    requires forall i :: 0 <= i < |pieces| ==> Free(pieces[i], CR)
    ensures Free(DataLines(pieces), CR)
  {
    if pieces != [] {
      DataLinesCrFree(pieces[1..]);
    }
  }

  lemma {:induction false} StreamCrFree(es: seq<Event>)
    requires OneLineNames(es) && DataCrFree(es)
    ensures Free(Stream(es), CR)
  {
    if es != [] {
      StreamCrFree(es[1..]);
      SplitPiecesFree(es[0].data, CR);
      DataLinesCrFree(Split(es[0].data));
      assert Free(Field(EVENT, es[0].event), CR) && Free(Field(ID, es[0].id), CR);
      assert Free(Frame(es[0]), CR);
    }
  }

  /** A CR-free text of printed events. */
  lemma TextReadsPrinted(es: seq<Event>, lastId: Text)
    requires OneLineNames(es) && DataCrFree(es)
    ensures InterpretText(Stream(es), lastId) == MessagesOf(es, lastId)
  {
    StreamCrFree(es);
    StreamLinesAreLines(Stream(es), []);
    assert [] + Stream(es) == Stream(es);
    StreamProcessed(Source([], [], lastId, []), es);
  }

  // ---------- decoding the printed events ----------

  function ScrubEvent(e: Event): Event {
    Event(Scrub(e.event), Scrub(e.id), Scrub(e.data))
  }

  function ScrubEvents(es: seq<Event>): (r: seq<Event>)
    ensures |r| == |es| && forall i :: 0 <= i < |es| ==> r[i] == ScrubEvent(es[i])
  {
    if es == [] then [] else [ScrubEvent(es[0])] + ScrubEvents(es[1..])
  }

  predicate IsAscii(s: Text) {
    forall i :: 0 <= i < |s| ==> s[i] < 0x80
  }

  lemma LineScrub(name: Text, value: Text, rest: Text)
    requires IsAscii(name)
    ensures Scrub((name + value + [LF]) + rest) == (name + Scrub(value) + [LF]) + Scrub(rest)
  {
    ScrubAround(name + value, LF, rest);
    AsciiPrefix(name, value);
  }

  lemma FieldScrub(name: Text, value: Text, rest: Text)
    requires IsAscii(name)
    ensures Scrub(Field(name, value) + rest) == Field(name, Scrub(value)) + Scrub(rest)
  {
    ScrubEmpty(value);
    if value == [] {
      assert [] + rest == rest;
    } else {
      LineScrub(name, value, rest);
    }
  }

  lemma {:induction false} DataLinesScrub(pieces: seq<Text>, rest: Text)
    ensures Scrub(DataLines(pieces) + rest) == DataLines(ScrubEach(pieces)) + Scrub(rest)
  {
    if pieces == [] {
      assert [] + rest == rest;
    } else {
      var line, more := DATA + [BLANK] + pieces[0] + [LF], DataLines(pieces[1..]);
      Assoc(line, more, rest);
      LineScrub(DATA + [BLANK], pieces[0], more + rest);
      DataLinesScrub(pieces[1..], rest);
      Assoc(DATA + [BLANK] + Scrub(pieces[0]) + [LF], DataLines(ScrubEach(pieces[1..])), Scrub(rest));
    }
  }

  lemma FrameScrub(e: Event, rest: Text)
    ensures Scrub(Frame(e) + rest) == Frame(ScrubEvent(e)) + Scrub(rest)
  {
    var f, g, d := Field(EVENT, e.event), Field(ID, e.id), DataLines(Split(e.data));
    Assoc(f + g + d, [LF], rest);
    Assoc(f + g, d, [LF] + rest);
    Assoc(f, g, d + ([LF] + rest));
    FieldScrub(EVENT, e.event, g + (d + ([LF] + rest)));
    FieldScrub(ID, e.id, d + ([LF] + rest));
    DataLinesScrub(Split(e.data), [LF] + rest);
    SplitScrub(e.data);
    AsciiScrub(LF, rest);
    var f', g', d' := Field(EVENT, Scrub(e.event)), Field(ID, Scrub(e.id)), DataLines(Split(Scrub(e.data)));
    Assoc(f' + g' + d', [LF], Scrub(rest));
    Assoc(f' + g', d', [LF] + Scrub(rest));
    Assoc(f', g', d' + ([LF] + Scrub(rest)));
  }

  lemma {:induction false} StreamScrub(es: seq<Event>)
    ensures Scrub(Stream(es)) == Stream(ScrubEvents(es))
  {
    if es != [] {
      FrameScrub(es[0], Stream(es[1..]));
      StreamScrub(es[1..]);
    }
  }

  lemma FirstByte(e: Event)
    ensures Frame(e) != [] && Frame(e)[0] < 0x80
  {
    assert Split(e.data) != [];
  }

  /** Decoding the printed stream is printing the decoded events. */
  lemma DecodePrinted(es: seq<Event>)
    ensures Decode(Stream(es)) == Stream(ScrubEvents(es))
  {
    StreamScrub(es);
    if es != [] {
      FirstByte(es[0]);
      assert Stream(es)[0] == Frame(es[0])[0];
      assert |Stream(es)| >= 3 ==> Stream(es)[..3][0] != BYTE_ORDER_MARK[0];
    }
  }

  lemma ScrubbedNames(es: seq<Event>)
    ensures OneLineNames(ScrubEvents(es)) <==> OneLineNames(es)
    ensures DataCrFree(ScrubEvents(es)) <==> DataCrFree(es)
  {
    forall i | 0 <= i < |es|
      ensures Free(Scrub(es[i].event), LF) == Free(es[i].event, LF) && Free(Scrub(es[i].id), LF) == Free(es[i].id, LF)
      ensures Free(Scrub(es[i].event), CR) == Free(es[i].event, CR) && Free(Scrub(es[i].id), CR) == Free(es[i].id, CR)
      ensures Free(Scrub(es[i].data), CR) == Free(es[i].data, CR)
    {
      ScrubFreeIff(es[i].event, LF);
      ScrubFreeIff(es[i].event, CR);
      ScrubFreeIff(es[i].id, LF);
      ScrubFreeIff(es[i].id, CR);
      ScrubFreeIff(es[i].data, CR);
    }
  }

  /** For names and ids on one line and data without CR, whatever their other bytes are, the standard
      dispatches one message per sendSSE call, with the decoded type, data and last id. */
  lemma StandardReadsPrinted(es: seq<Event>, lastId: Text)
    requires OneLineNames(es) && DataCrFree(es)
    ensures Interpret(Stream(es), lastId) == MessagesOf(ScrubEvents(es), lastId)
  {
    DecodePrinted(es);
    ScrubbedNames(es);
    TextReadsPrinted(ScrubEvents(es), lastId);
  }

  // ---------- the client against the standard ----------

  function TrimmedLines(ms: seq<MessageEvent>): seq<Text> {
    if ms == [] then [] else TrimAll(Split(ms[0].data)) + TrimmedLines(ms[1..])
  }

  lemma {:induction false} MeantIsTrimmed(es: seq<Event>, lastId: Text)
    ensures Meant(es) == TrimmedLines(MessagesOf(es, lastId))
  {
    if es != [] {
      MeantIsTrimmed(es[1..], IdAfter(es[0], lastId));
      var ms := MessagesOf(es, lastId);
      assert ms[1..] == MessagesOf(es[1..], IdAfter(es[0], lastId));
    }
  }

  lemma {:induction false} TrimAllScrub(pieces: seq<Text>)
    ensures TrimAll(ScrubEach(pieces)) == ScrubEach(TrimAll(pieces))
  {
    if pieces != [] {
      TrimScrub(pieces[0]);
      TrimAllScrub(pieces[1..]);
    }
  }

  lemma {:induction false} ScrubEachConcat(a: seq<Text>, b: seq<Text>)
    ensures ScrubEach(a + b) == ScrubEach(a) + ScrubEach(b)
  {
    if a == [] {
      assert a + b == b;
    } else {
      assert (a + b)[1..] == a[1..] + b;
      ScrubEachConcat(a[1..], b);
    }
  }

  lemma {:induction false} MeantScrub(es: seq<Event>)
    ensures Meant(ScrubEvents(es)) == ScrubEach(Meant(es))
  {
    if es != [] {
      SplitScrub(es[0].data);
      TrimAllScrub(Split(es[0].data));
      ScrubEachConcat(TrimAll(Split(es[0].data)), Meant(es[1..]));
      MeantScrub(es[1..]);
    }
  }

  /** The trimmed lines of the data that the standard dispatches are this client's callbacks, decoded:
      the client itself decodes nothing. */
  lemma ClientDeliversDispatched(es: seq<Event>, lastId: Text)
    requires OneLineNames(es) && DataCrFree(es)
    ensures TrimmedLines(Interpret(Stream(es), lastId)) == ScrubEach(Callbacks(Stream(es)))
  {
    RoundTrip(es);
    StandardReadsPrinted(es, lastId);
    MeantIsTrimmed(ScrubEvents(es), lastId);
    MeantScrub(es);
  }
}
