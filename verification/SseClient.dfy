/** This client's callbacks against the data that the standard's interpreter dispatches, for data of any bytes. */
module SseClient {
  import opened SseText
  import opened SseUtf8
  import opened SseWire
  import opened SseRoundTrip
  import opened SseStandard
  import opened SseExact

  // ---------- the lines of all dispatched data ----------

  /** The value of a data line. */
  function DataValue(line: Text): seq<Text> {
    var k := ColonAt(line);
    if line[..k] != DATA_NAME then [] else if k < |line| then [DropBlank(line[k + 1..])] else [[]]
  }

  function DataValues(lines: seq<Text>): seq<Text> {
    if lines == [] then [] else DataValue(lines[0]) + DataValues(lines[1..])
  }

  /** The trimmed lines of the data that are waiting to be dispatched. */
  function Waiting(data: Text): seq<Text> {
    if data == [] then [] else TrimAll(Split(data[..|data| - 1]))
  }

  predicate EndsOrEmpty(data: Text) {
    data == [] || data[|data| - 1] == LF
  }

  lemma {:induction false} TrimAllAppend(a: seq<Text>, b: seq<Text>)
    ensures TrimAll(a + b) == TrimAll(a) + TrimAll(b)
  {
    if a == [] {
      assert a + b == b;
    } else {
      assert (a + b)[1..] == a[1..] + b;
      TrimAllAppend(a[1..], b);
    }
  }

  lemma {:induction false} TrimmedLinesAppend(a: seq<MessageEvent>, m: MessageEvent)
    ensures TrimmedLines(a + [m]) == TrimmedLines(a) + TrimAll(Split(m.data))
  {
    if a == [] {
      assert a + [m] == [m] && [m][1..] == [];
    } else {
      assert (a + [m])[1..] == a[1..] + [m];
      TrimmedLinesAppend(a[1..], m);
    }
  }

  lemma WaitingMore(data: Text, value: Text)
    requires EndsOrEmpty(data) && Free(value, LF)
    ensures Waiting(data + value + [LF]) == Waiting(data) + [TrimSpace(value)]
  {
    var all := data + value + [LF];
    assert all[..|all| - 1] == data + value;
    SplitFree(value);
    assert [value][1..] == [];
    assert TrimAll([value]) == [TrimSpace(value)] + TrimAll([]) == [TrimSpace(value)];
    if data == [] {
      assert data + value == value;
      assert Waiting(data) + [TrimSpace(value)] == [TrimSpace(value)];
    } else {
      var init := data[..|data| - 1];
      assert data + value == init + [LF] + value;
      SplitAt(init, value);
      assert Split(init) + Split(value) == Split(init) + [value];
      TrimAllAppend(Split(init), [value]);
    }
  }

  /** The trimmed lines of all data read so far. */
  function Collected(s: Source): seq<Text> {
    TrimmedLines(s.dispatched) + Waiting(s.data)
  }

  lemma BlankAdds(s: Source)
    ensures Collected(Dispatch(s)) == Collected(s) || !EndsOrEmpty(s.data)
    ensures EndsOrEmpty(Dispatch(s).data)
  {
    if s.data != [] {
      TrimmedLinesAppend(s.dispatched, Dispatch(s).dispatched[|s.dispatched|]);
    }
  }

  /** What a line adds to the data, dispatched or waiting. */
  lemma LineAdds(s: Source, line: Text)
    requires EndsOrEmpty(s.data) && OneLine(line)
    ensures EndsOrEmpty(ProcessLine(s, line).data)
    ensures Collected(ProcessLine(s, line)) == Collected(s) + TrimAll(DataValue(line))
  {
    var s' := ProcessLine(s, line);
    assert line[..|line|] == line;
    if line == [] {
      BlankAdds(s);
    } else if DataValue(line) != [] {
      var value := DataValue(line)[0];
      assert s' == s.(data := s.data + value + [LF]);
      WaitingMore(s.data, value);
      Assoc(TrimmedLines(s.dispatched), Waiting(s.data), [TrimSpace(value)]);
    } else {
      assert s'.data == s.data && s'.dispatched == s.dispatched;
    }
  }

  lemma {:induction false} LinesAdd(s: Source, lines: seq<Text>)
    requires EndsOrEmpty(s.data) && forall i :: 0 <= i < |lines| ==> OneLine(lines[i])
    ensures Collected(Process(s, lines)) == Collected(s) + TrimAll(DataValues(lines))
    decreases |lines|
  {
    if lines != [] {
      LineAdds(s, lines[0]);
      LinesAdd(ProcessLine(s, lines[0]), lines[1..]);
      TrimAllAppend(DataValue(lines[0]), DataValues(lines[1..]));
      Assoc(Collected(s), TrimAll(DataValue(lines[0])), TrimAll(DataValues(lines[1..])));
    }
  }

  lemma {:induction false} DataValuesAppend(a: seq<Text>, b: seq<Text>)
    ensures DataValues(a + b) == DataValues(a) + DataValues(b)
  {
    if a == [] {
      assert a + b == b;
    } else {
      assert (a + b)[1..] == a[1..] + b;
      DataValuesAppend(a[1..], b);
    }
  }

  lemma DataLineValue(value: Text)
    ensures DataValue(DATA + [BLANK] + value) == [value]
  {
    var line := DATA + [BLANK] + value;
    ColonAfter(DATA_NAME, [BLANK] + value);
    assert line == DATA_NAME + [COLON] + ([BLANK] + value);
    assert line[..4] == DATA_NAME && line[5..] == [BLANK] + value;
    assert ([BLANK] + value)[1..] == value;
  }

  lemma NameValue(name: Text, value: Text)
    requires name == EVENT || name == ID
    ensures DataValue(name + value) == []
  {
    var short := if name == EVENT then EVENT_NAME else ID_NAME;
    ColonAfter(short, [BLANK] + value);
    assert name + value == short + [COLON] + ([BLANK] + value);
    assert (name + value)[..|short|] == short;
  }

  // ---------- one line of printed data ----------

  /** The callbacks a reader of the standard would make for one line of the data. */
  function PieceValues(piece: Text): seq<Text> {
    TrimAll(DataValues(StreamLines(DATA + [BLANK] + piece + [LF], [])))
  }

  function PiecesValues(pieces: seq<Text>): seq<Text> {
    if pieces == [] then [] else PieceValues(pieces[0]) + PiecesValues(pieces[1..])
  }

  function AllPieces(es: seq<Event>): seq<Text> {
    if es == [] then [] else Split(es[0].data) + AllPieces(es[1..])
  }

  lemma {:induction false} PiecesAppend(a: seq<Text>, b: seq<Text>)
    ensures PiecesValues(a + b) == PiecesValues(a) + PiecesValues(b)
  {
    if a == [] {
      assert a + b == b;
    } else {
      assert (a + b)[1..] == a[1..] + b;
      PiecesAppend(a[1..], b);
      Assoc(PieceValues(a[0]), PiecesValues(a[1..]), PiecesValues(b));
    }
  }

  /** The trimmed values of the data lines of a text that can be read for itself. */
  function TextValues(text: Text): seq<Text> {
    TrimAll(DataValues(StreamLines(text, [])))
  }

  lemma TextValuesConcat(a: Text, b: Text)
    requires EndsOrEmpty(a)
    ensures TextValues(a + b) == TextValues(a) + TextValues(b)
  {
    StreamLinesConcat(a, b, []);
    DataValuesAppend(StreamLines(a, []), StreamLines(b, []));
    TrimAllAppend(DataValues(StreamLines(a, [])), DataValues(StreamLines(b, [])));
  }

  lemma OneValue(line: Text)
    ensures DataValues([line]) == DataValue(line)
  {
    var lines: seq<Text> := [line];
    assert lines[1..] == [];
    assert DataValues(lines) == DataValue(line) + DataValues([]);
  }

  lemma NameHasNoData(name: Text, value: Text)
    requires (name == EVENT || name == ID) && OneLine(value)
    ensures TextValues(Field(name, value)) == []
  {
    NameLines(name, value);
    if value == [] {
      assert DataValues(FieldLines(name, value)) == [];
    } else {
      OneValue(name + value);
      NameValue(name, value);
    }
  }

  lemma BlankHasNoData()
    ensures TextValues([LF]) == []
  {
    assert StreamLines([LF], []) == [[]] + StreamLines([], []);
    var blank: seq<Text> := [[]];
    assert StreamLines([LF], []) == blank && blank[1..] == [];
    var line: Text := [];
    assert ColonAt(line) == 0 && line[..0] == [];
  }

  lemma {:induction false} DataLinesValues(pieces: seq<Text>)
    ensures TextValues(DataLines(pieces)) == PiecesValues(pieces)
  {
    if pieces != [] {
      TextValuesConcat(DATA + [BLANK] + pieces[0] + [LF], DataLines(pieces[1..]));
      DataLinesValues(pieces[1..]);
    }
  }

  lemma {:induction false} DataLinesEnd(pieces: seq<Text>)
    ensures EndsOrEmpty(DataLines(pieces))
  {
    if pieces != [] {
      DataLinesEnd(pieces[1..]);
    }
  }

  /** A printed event without its blank line. */
  function Body(e: Event): Text {
    Field(EVENT, e.event) + (Field(ID, e.id) + DataLines(Split(e.data)))
  }

  lemma BodyEnds(e: Event)
    ensures Frame(e) == Body(e) + [LF] && EndsOrEmpty(Body(e))
  {
    DataLinesEnd(Split(e.data));
    Assoc(Field(EVENT, e.event), Field(ID, e.id), DataLines(Split(e.data)));
  }

  lemma FrameValues(e: Event)
    requires OneLine(e.event) && OneLine(e.id)
    ensures TextValues(Frame(e)) == PiecesValues(Split(e.data))
  {
    var f, g, d := Field(EVENT, e.event), Field(ID, e.id), DataLines(Split(e.data));
    BodyEnds(e);
    TextValuesConcat(Body(e), [LF]);
    FieldEnds(EVENT, e.event);
    FieldEnds(ID, e.id);
    TextValuesConcat(f, g + d);
    TextValuesConcat(g, d);
    NameHasNoData(EVENT, e.event);
    NameHasNoData(ID, e.id);
    DataLinesValues(Split(e.data));
    BlankHasNoData();
  }

  lemma {:induction false} StreamValues(es: seq<Event>)
    requires OneLineNames(es)
    ensures TextValues(Stream(es)) == PiecesValues(AllPieces(es))
  {
    if es != [] {
      BodyEnds(es[0]);
      TextValuesConcat(Frame(es[0]), Stream(es[1..]));
      FrameValues(es[0]);
      StreamValues(es[1..]);
      PiecesAppend(Split(es[0].data), AllPieces(es[1..]));
    }
  }

  lemma FrameDispatches(s: Source, e: Event)
    ensures Process(s, StreamLines(Frame(e), [])).data == []
  {
    BodyEnds(e);
    StreamLinesConcat(Body(e), [LF], []);
    var blank: seq<Text> := [[]];
    assert StreamLines([LF], []) == blank + StreamLines([], []) == blank;
    ProcessAppend(s, StreamLines(Body(e), []), [[]]);
    BlankProcessed(Process(s, StreamLines(Body(e), [])));
  }

  lemma {:induction false} StreamDispatches(s: Source, es: seq<Event>)
    requires s.data == []
    ensures Process(s, StreamLines(Stream(es), [])).data == []
    decreases |es|
  {
    if es != [] {
      BodyEnds(es[0]);
      StreamLinesConcat(Frame(es[0]), Stream(es[1..]), []);
      ProcessAppend(s, StreamLines(Frame(es[0]), []), StreamLines(Stream(es[1..]), []));
      FrameDispatches(s, es[0]);
      StreamDispatches(Process(s, StreamLines(Frame(es[0]), [])), es[1..]);
    }
  }

  lemma NothingCollected(s: Source)
    requires s.data == [] && s.dispatched == []
    ensures Collected(s) == []
  {}

  lemma AllDispatched(s: Source)
    requires s.data == []
    ensures Collected(s) == TrimmedLines(s.dispatched)
  {}

  /** The trimmed lines of the dispatched data, line by line of the printed data. */
  lemma DispatchedValues(es: seq<Event>, lastId: Text)
    requires OneLineNames(es)
    ensures TrimmedLines(InterpretText(Stream(es), lastId)) == PiecesValues(AllPieces(es))
  {
    var s, lines := Source([], [], lastId, []), StreamLines(Stream(es), []);
    StreamLinesOneLine(Stream(es), []);
    LinesAdd(s, lines);
    StreamDispatches(s, es);
    StreamValues(es);
    NothingCollected(s);
    AllDispatched(Process(s, lines));
    assert [] + TrimAll(DataValues(lines)) == TrimAll(DataValues(lines));
  }

  // ---------- what one line of data comes to ----------

  /** The position of the first CR, or the length. */
  function CrAt(s: Text): (k: nat)
    ensures k <= |s| && Free(s[..k], CR) && (k < |s| ==> s[k] == CR)
    ensures k == |s| <==> Free(s, CR)
  {
    if s == [] || s[0] == CR then 0 else 1 + CrAt(s[1..])
  }

  /** What stands after the first CR. */
  function CrTail(s: Text): Text {
    if CrAt(s) < |s| then s[CrAt(s) + 1..] else []
  }

  lemma CutAtCr(s: Text)
    requires !Free(s, CR)
    ensures s == s[..CrAt(s)] + [CR] + CrTail(s)
  {}

  /** A line of data that both readers make the same of: valid, and with nothing but white space after a CR. */
  ghost predicate PlainPiece(p: Text) {
    ValidUtf8(p) && TrimSpace(CrTail(p)) == []
  }

  lemma LineEnds(a: Text)
    requires OneLine(a)
    ensures StreamLines(a + [LF], []) == [a]
  {
    LineGoesOn(a, [LF], []);
    assert [] + a == a;
    assert StreamLines([LF], a) == [a] + StreamLines([], []);
  }

  /** What follows a CR inside a line of data. */
  function Tail(w: Text): seq<Text> {
    if w == [] then [] else StreamLines(w + [LF], [])
  }

  lemma LineBreaks(a: Text, w: Text)
    requires OneLine(a) && Free(w, LF)
    ensures StreamLines(a + ([CR] + w + [LF]), []) == [a] + Tail(w)
  {
    var rest := [CR] + w + [LF];
    LineGoesOn(a, rest, []);
    assert [] + a == a;
    assert rest[1..] == w + [LF] && (w == [] ==> rest[2..] == []);
  }

  lemma WholePiece(p: Text)
    requires OneLine(p)
    ensures PieceValues(p) == [TrimSpace(p)]
  {
    var a := DATA + [BLANK] + p;
    LineEnds(a);
    OneValue(a);
    DataLineValue(p);
    TrimOne(p);
  }

  lemma TrimOne(p: Text)
    ensures TrimAll([p]) == [TrimSpace(p)]
  {
    var values: seq<Text> := [p];
    assert values[1..] == [];
    assert TrimAll(values) == [TrimSpace(p)] + TrimAll([]);
  }

  lemma BrokenPiece(t: Text, w: Text)
    requires OneLine(t) && Free(w, LF)
    ensures PieceValues(t + [CR] + w) == [TrimSpace(t)] + TrimAll(DataValues(Tail(w)))
  {
    var a := DATA + [BLANK] + t;
    assert DATA + [BLANK] + (t + [CR] + w) + [LF] == a + ([CR] + w + [LF]);
    LineBreaks(a, w);
    DataValuesAppend([a], Tail(w));
    OneValue(a);
    DataLineValue(t);
    TrimAllAppend([t], DataValues(Tail(w)));
    TrimOne(t);
  }

  lemma PieceCount(p: Text)
    requires Free(p, LF)
    ensures |PieceValues(p)| >= 1
  {
    if Free(p, CR) {
      WholePiece(p);
    } else {
      CutAtCr(p);
      BrokenPiece(p[..CrAt(p)], CrTail(p));
    }
  }

  // ---------- white space ----------

  lemma {:induction false} FlatConcat(a: seq<Text>, b: seq<Text>)
    ensures Flat(a + b) == Flat(a) + Flat(b)
  {
    if a == [] {
      assert a + b == b;
    } else {
      assert (a + b)[1..] == a[1..] + b;
      FlatConcat(a[1..], b);
      Assoc(a[0], Flat(a[1..]), Flat(b));
    }
  }

  lemma AllSpace(s: Text) returns (ts: seq<Text>)
    requires TrimSpace(s) == []
    ensures Spaces(ts) && s == Flat(ts)
  {
    var before, after := TrimSpaceMeaning(s);
    FlatConcat(before, after);
    ts := before + after;
    assert [] + Flat(after) == Flat(after);
  }

  lemma {:induction false} SpacesScrub(ts: seq<Text>, x: Text)
    requires Spaces(ts)
    ensures Scrub(Flat(ts) + x) == Flat(ts) + Scrub(x)
  {
    if ts == [] {
      assert [] + x == x && [] + Scrub(x) == Scrub(x);
    } else {
      Assoc(ts[0], Flat(ts[1..]), x);
      SpaceIsChar(ts[0]);
      CharThen(ts[0], Flat(ts[1..]) + x);
      SpacesScrub(ts[1..], x);
      Assoc(ts[0], Flat(ts[1..]), Scrub(x));
    }
  }

  lemma SpacesLead(ts: seq<Text>)
    requires Spaces(ts)
    ensures Flat(ts) == [] || Leads(Flat(ts)[0])
  {
    if ts != [] {
      SpaceIsChar(ts[0]);
    }
  }

  lemma SpacesDecoded(ts: seq<Text>)
    requires Spaces(ts)
    ensures Decoded(Flat(ts))
  {
    SpacesScrub(ts, []);
    assert Flat(ts) + [] == Flat(ts);
  }

  lemma SameMiddle(a: Text, x: Text, y: Text, b: Text)
    ensures a + (x + b) == a + (y + b) <==> x == y
  {
    if a + (x + b) == a + (y + b) {
      assert |a + (x + b)| == |a| + |x| + |b| && |a + (y + b)| == |a| + |y| + |b|;
      assert x == (a + (x + b))[|a|..|a| + |x|];
      assert y == (a + (y + b))[|a|..|a| + |y|];
    }
  }

  /** Trimming takes away valid characters only. */
  lemma DecodedTrim(s: Text)
    ensures Decoded(TrimSpace(s)) <==> Decoded(s)
  {
    var before, after := TrimSpaceMeaning(s);
    var core := TrimSpace(s);
    SpacesScrub(before, core + Flat(after));
    SpacesLead(after);
    ScrubConcat(core, Flat(after));
    SpacesDecoded(after);
    SameMiddle(Flat(before), Scrub(core), core, Flat(after));
  }

  lemma {:induction false} TrimRightSpaces(a: Text, ts: seq<Text>)
    requires Spaces(ts)
    ensures TrimRight(a + Flat(ts)) == TrimRight(a)
    decreases |ts|
  {
    if ts == [] {
      assert a + [] == a;
    } else {
      var init, t := ts[..|ts| - 1], ts[|ts| - 1];
      assert ts == init + [t];
      FlatAppend(init, t);
      Assoc(a, Flat(init), t);
      TrimRightSpaceAfter(a + Flat(init), t);
      TrimRightSpaces(a, init);
    }
  }

  /** White space after a CR is trimmed with it. */
  lemma TrimCrTail(t: Text, w: Text)
    requires TrimSpace(w) == []
    ensures TrimSpace(t + [CR] + w) == TrimSpace(t)
  {
    var ts := AllSpace(w);
    TrimRightSpaces(t + [CR], ts);
    TrimRightSpaceAfter(t, [CR]);
    TrimEitherOrder(t + [CR] + w);
    TrimEitherOrder(t);
  }

  lemma {:induction false} KeepsEnd(a: Text, y: Text)
    requires a != [] && a[|a| - 1] < 0x80 && TrimRight(y) != []
    ensures TrimRight(a + y) == a + TrimRight(y)
    decreases |y|
  {
    TrailingInside(a, y);
    var n := TrailingSpace(y);
    if n > 0 {
      assert (a + y)[..|a + y| - n] == a + y[..|y| - n];
      KeepsEnd(a, y[..|y| - n]);
    }
  }

  lemma StartInside(a: Text, y: Text, n: nat)
    requires a != [] && y != [] && y[0] < 0x80 && 1 <= n <= 3
    ensures StartsIn(a + y, n) <==> StartsIn(a, n)
  {
    if n > |a| && n <= |a + y| {
      assert (a + y)[|a|] == y[0];
    }
  }

  lemma {:induction false} KeepsStart(a: Text, y: Text)
    requires y != [] && y[0] < 0x80 && TrimLeft(a) != []
    ensures TrimLeft(a + y) == TrimLeft(a) + y
    decreases |a|
  {
    StartInside(a, y, 1);
    StartInside(a, y, 2);
    StartInside(a, y, 3);
    var n := LeadingSpace(a);
    if n > 0 {
      assert (a + y)[n..] == a[n..] + y;
      KeepsStart(a[n..], y);
    }
  }

  lemma {:induction false} TrimLeftSpacesThen(t: Text, y: Text)
    requires TrimLeft(t) == []
    ensures TrimLeft(t + y) == TrimLeft(y)
    decreases |t|
  {
    if t == [] {
      assert t + y == y;
    } else {
      var u, v := FirstSpace(t);
      Assoc(u, v, y);
      LeadingSpaceThen(u, v + y);
      assert (u + (v + y))[|u|..] == v + y;
      TrimLeftSpacesThen(v, y);
    }
  }

  lemma CrTailKept(t: Text, w: Text)
    requires TrimSpace(w) != []
    ensures TrimRight(w) != [] && TrimLeft(TrimRight(w)) != []
    ensures TrimSpace(t + [CR] + w) == TrimLeft(t + ([CR] + TrimRight(w)))
  {
    TrimEitherOrder(w);
    KeepsEnd(t + [CR], w);
    TrimEitherOrder(t + [CR] + w);
    Assoc(t, [CR], TrimRight(w));
  }

  /** Anything else after a CR shows in what the client delivers. */
  lemma CrTailShows(t: Text, w: Text, x: Text)
    requires TrimSpace(w) != [] && Free(x, CR) && (TrimLeft(t) == [] ==> x == [])
    ensures TrimSpace(t + [CR] + w) != x
  {
    var y := TrimRight(w);
    CrTailKept(t, w);
    if TrimLeft(t) == [] {
      TrimLeftSpacesThen(t, [CR] + y);
      CrTrimmed(y);
    } else {
      KeepsStart(t, [CR] + y);
      assert (TrimLeft(t) + ([CR] + y))[|TrimLeft(t)|] == CR;
    }
  }

  lemma CrTrimmed(y: Text)
    ensures TrimLeft([CR] + y) == TrimLeft(y)
  {
    LeadingSpaceThen([CR], y);
    assert ([CR] + y)[1..] == y;
  }

  lemma {:induction false} SpacesFree(ts: seq<Text>)
    requires Spaces(ts)
    ensures Free(Flat(ts), DATA_NAME[0])
  {
    if ts != [] {
      SpaceFree(ts[0]);
      SpacesFree(ts[1..]);
    }
  }

  lemma SpaceFree(t: Text)
    requires IsSpace(t)
    ensures Free(t, DATA_NAME[0])
  {}

  lemma {:induction false} LinesFree(s: Text, line: Text, b: Byte)
    requires Free(s, b) && Free(line, b)
    ensures forall i :: 0 <= i < |StreamLines(s, line)| ==> Free(StreamLines(s, line)[i], b)
  {
    if s != [] {
      if s[0] == LF {
        LinesFree(s[1..], [], b);
      } else if s[0] == CR {
        LinesFree(if |s| > 1 && s[1] == LF then s[2..] else s[1..], [], b);
      } else {
        LinesFree(s[1..], line + [s[0]], b);
      }
    }
  }

  lemma {:induction false} NoDataLines(lines: seq<Text>)
    requires forall i :: 0 <= i < |lines| ==> Free(lines[i], DATA_NAME[0])
    ensures DataValues(lines) == []
  {
    if lines != [] {
      NoDataLine(lines[0]);
      NoDataLines(lines[1..]);
    }
  }

  lemma NoDataLine(line: Text)
    requires Free(line, DATA_NAME[0])
    ensures DataValue(line) == []
  {
    var k := ColonAt(line);
    if k > 0 {
      assert line[..k][0] == line[0];
    }
  }

  lemma SpaceTailHasNoData(w: Text)
    requires TrimSpace(w) == []
    ensures DataValues(Tail(w)) == []
  {
    if w != [] {
      var ts := AllSpace(w);
      SpacesFree(ts);
      LinesFree(w + [LF], [], DATA_NAME[0]);
      NoDataLines(StreamLines(w + [LF], []));
    }
  }

  // ---------- the exact condition ----------

  lemma OneLinePieceDecides(p: Text)
    requires OneLine(p)
    ensures PieceValues(Scrub(p)) == [TrimSpace(p)] <==> Decoded(p)
  {
    ScrubFreeIff(p, LF);
    ScrubFreeIff(p, CR);
    WholePiece(Scrub(p));
    TrimScrub(p);
    DecodedTrim(p);
  }

  lemma BrokenPieceDecides(t: Text, w: Text)
    requires OneLine(t) && Free(w, LF)
    ensures PieceValues(Scrub(t + [CR] + w)) == [TrimSpace(t + [CR] + w)] <==>
            Decoded(t + [CR] + w) && TrimSpace(w) == []
  {
    ScrubFreeIff(t, LF);
    ScrubFreeIff(t, CR);
    ScrubFreeIff(w, LF);
    ScrubAround(t, CR, w);
    BrokenPiece(Scrub(t), Scrub(w));
    TrimScrub(t);
    DecodedParts(t, CR, w);
    DecodedTrim(t);
    if TrimSpace(w) == [] {
      var ts := AllSpace(w);
      SpacesDecoded(ts);
      SpaceTailHasNoData(w);
      TrimCrTail(t, w);
      assert [TrimSpace(Scrub(t))] + [] == [TrimSpace(Scrub(t))];
    } else {
      TrimsFree(t);
      ScrubKeepsFree(TrimSpace(t), CR);
      CrTailShows(t, w, Scrub(TrimSpace(t)));
      assert PieceValues(Scrub(t + [CR] + w))[0] == Scrub(TrimSpace(t));
    }
  }

  lemma TrimsFree(t: Text)
    requires Free(t, CR)
    ensures Free(TrimSpace(t), CR) && (TrimLeft(t) == [] ==> Scrub(TrimSpace(t)) == [])
  {
    var before, after := TrimSpaceMeaning(t);
    var core := TrimSpace(t);
    forall i | 0 <= i < |core| ensures core[i] != CR {
      assert t[|Flat(before)| + i] == core[i];
    }
  }

  lemma PieceDecides(p: Text)
    requires Free(p, LF)
    ensures PieceValues(Scrub(p)) == [TrimSpace(p)] <==> PlainPiece(p)
  {
    ScrubFixes(p);
    if Free(p, CR) {
      OneLinePieceDecides(p);
      assert CrTail(p) == [];
    } else {
      var t, w := p[..CrAt(p)], CrTail(p);
      CutAtCr(p);
      BrokenPieceDecidesFor(p, t, w);
    }
  }

  lemma BrokenPieceDecidesFor(p: Text, t: Text, w: Text)
    requires OneLine(t) && Free(w, LF) && p == t + [CR] + w
    ensures PieceValues(Scrub(p)) == [TrimSpace(p)] <==> Decoded(p) && TrimSpace(w) == []
  {
    BrokenPieceDecides(t, w);
  }

  lemma {:induction false} ManyPieces(pieces: seq<Text>)
    requires forall i :: 0 <= i < |pieces| ==> Free(pieces[i], LF)
    ensures |PiecesValues(pieces)| >= |pieces|
  {
    if pieces != [] {
      PieceCount(pieces[0]);
      ManyPieces(pieces[1..]);
    }
  }

  lemma {:induction false} TrimAllLength(pieces: seq<Text>)
    ensures |TrimAll(pieces)| == |pieces|
  {
    if pieces != [] {
      TrimAllLength(pieces[1..]);
    }
  }

  lemma SplitOne<T>(a: seq<T>, b: seq<T>, y: T, c: seq<T>)
    requires |a| >= 1 && |b| >= |c|
    ensures a + b == [y] + c <==> a == [y] && b == c
  {
    if a + b == [y] + c {
      assert |a + b| == |a| + |b|;
      assert |a| == 1 && (a + b)[0] == a[0] && (a + b)[1..] == b;
      assert ([y] + c)[0] == y && ([y] + c)[1..] == c;
    }
  }

  lemma {:induction false} PiecesDecide(pieces: seq<Text>)
    requires forall i :: 0 <= i < |pieces| ==> Free(pieces[i], LF)
    ensures PiecesValues(ScrubEach(pieces)) == TrimAll(pieces) <==>
            forall i :: 0 <= i < |pieces| ==> PlainPiece(pieces[i])
  {
    if pieces != [] {
      var p, rest := pieces[0], pieces[1..];
      ScrubKeepsFree(p, LF);
      ScrubEachFree(rest);
      PieceCount(Scrub(p));
      ManyPieces(ScrubEach(rest));
      TrimAllLength(rest);
      SplitOne(PieceValues(Scrub(p)), PiecesValues(ScrubEach(rest)), TrimSpace(p), TrimAll(rest));
      PieceDecides(p);
      PiecesDecide(rest);
      assert forall i :: 0 < i < |pieces| ==> pieces[i] == rest[i - 1];
    }
  }

  lemma {:induction false} ScrubEachFree(pieces: seq<Text>)
    requires forall i :: 0 <= i < |pieces| ==> Free(pieces[i], LF)
    ensures forall i :: 0 <= i < |pieces| ==> Free(ScrubEach(pieces)[i], LF)
  {
    if pieces != [] {
      ScrubKeepsFree(pieces[0], LF);
      ScrubEachFree(pieces[1..]);
    }
  }

  lemma {:induction false} PiecesScrub(es: seq<Event>)
    ensures AllPieces(ScrubEvents(es)) == ScrubEach(AllPieces(es))
  {
    if es != [] {
      assert ScrubEvents(es)[1..] == ScrubEvents(es[1..]);
      SplitScrub(es[0].data);
      ScrubEachConcat(Split(es[0].data), AllPieces(es[1..]));
      PiecesScrub(es[1..]);
    }
  }

  lemma {:induction false} MeantPieces(es: seq<Event>)
    ensures Meant(es) == TrimAll(AllPieces(es))
    ensures forall i :: 0 <= i < |AllPieces(es)| ==> Free(AllPieces(es)[i], LF)
  {
    if es != [] {
      JoinSplit(es[0].data);
      MeantPieces(es[1..]);
      TrimAllAppend(Split(es[0].data), AllPieces(es[1..]));
    }
  }

  /** With names and ids on one line and data of any bytes: this client's callbacks are the trimmed lines of
      the data that the standard dispatches exactly if every line of the data is valid UTF-8 and has only
      white space after a CR. */
  lemma ClientAgreesIff(es: seq<Event>, lastId: Text)
    requires OneLineNames(es)
    ensures TrimmedLines(Interpret(Stream(es), lastId)) == Callbacks(Stream(es)) <==>
            forall i :: 0 <= i < |AllPieces(es)| ==> PlainPiece(AllPieces(es)[i])
  {
    RoundTrip(es);
    MeantPieces(es);
    DecodePrinted(es);
    ScrubbedNames(es);
    DispatchedValues(ScrubEvents(es), lastId);
    PiecesScrub(es);
    PiecesDecide(AllPieces(es));
  }
}
