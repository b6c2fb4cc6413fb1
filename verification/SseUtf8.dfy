/** The UTF-8 decode algorithm of the WHATWG Encoding Standard, with which section 9.2.6 of the HTML
    Living Standard reads an event stream. A decoded text is given by its own UTF-8 encoding, so that
    decoding is a function on byte strings that puts U+FFFD in place of what is not a character. */
module SseUtf8 {
  import opened SseText

  const REPLACEMENT: Text := [0xEF, 0xBF, 0xBD]
  const BYTE_ORDER_MARK: Text := [0xEF, 0xBB, 0xBF]

  /** The number of bytes announced by a lead byte, or 0 for a byte that leads nothing. */
  function Need(lead: Byte): nat {
    if lead < 0x80 then 1
    else if 0xC2 <= lead <= 0xDF then 2
    else if 0xE0 <= lead <= 0xEF then 3
    else if 0xF0 <= lead <= 0xF4 then 4
    else 0
  }

  /** Whether `b` may stand at offset `k` of the character that `lead` begins: no overlong forms, no
      surrogates, nothing above U+10FFFF. */
  predicate Continues(lead: Byte, k: nat, b: Byte) {
    && 0x80 <= b <= 0xBF
    && (k == 1 ==>
          (lead == 0xE0 ==> b >= 0xA0) && (lead == 0xED ==> b <= 0x9F) &&
          (lead == 0xF0 ==> b >= 0x90) && (lead == 0xF4 ==> b <= 0x8F))
  }

  /** How far the bytes of `s` go on to match the character its first byte begins. */
  function MatchFrom(s: Text, k: nat): (n: nat)
    requires 0 < k <= |s|
    ensures k <= n <= |s|
    ensures k <= Need(s[0]) ==> n <= Need(s[0])
    decreases |s| - k
  {
    if k < Need(s[0]) && k < |s| && Continues(s[0], k, s[k]) then MatchFrom(s, k + 1) else k
  }

  /** The length of the character at the start of `s`, or of what the decoder replaces there. */
  function CharEnd(s: Text): (n: nat)
    requires s != []
    ensures 0 < n <= |s|
  {
    MatchFrom(s, 1)
  }

  /** Whether `s` starts with a whole character. */
  predicate Whole(s: Text)
    requires s != []
  {
    CharEnd(s) == Need(s[0])
  }

  function Chunk(s: Text): (r: Text)
    requires s != []
    ensures r != []
  {
    if Whole(s) then s[..CharEnd(s)] else REPLACEMENT
  }

  /** The decoder after the byte order mark. */
  function Scrub(s: Text): Text
    decreases |s|
  {
    if s == [] then [] else Chunk(s) + Scrub(s[CharEnd(s)..])
  }

  function Decode(stream: Text): Text {
    Scrub(if |stream| >= 3 && stream[..3] == BYTE_ORDER_MARK then stream[3..] else stream)
  }

  /** Nothing in the text is replaced. */
  predicate AllWhole(s: Text)
    decreases |s|
  {
    s == [] || (Whole(s) && AllWhole(s[CharEnd(s)..]))
  }

  /** The first byte of a character: never the inside of another one. */
  predicate Leads(b: Byte) { b < 0x80 || b >= 0xC0 }

  // ---------- decoding and concatenation ----------

  lemma {:induction false} MatchPrefix(a: Text, b: Text, k: nat)
    requires 0 < k <= |a| && (b == [] || Leads(b[0]))
    ensures MatchFrom(a + b, k) == MatchFrom(a, k)
    decreases |a| - k
  {
    if k < Need(a[0]) && k < |a| && Continues(a[0], k, a[k]) {
      MatchPrefix(a, b, k + 1);
    }
  }

  lemma ConcatCut(a: Text, b: Text, n: nat)
    requires n <= |a|
    ensures (a + b)[..n] == a[..n] && (a + b)[n..] == a[n..] + b
  {}

  lemma FirstChunk(a: Text, b: Text)
    requires a != [] && (b == [] || Leads(b[0]))
    ensures CharEnd(a + b) == CharEnd(a) && Chunk(a + b) == Chunk(a)
  {
    MatchPrefix(a, b, 1);
    ConcatCut(a, b, CharEnd(a));
  }

  /** Characters do not reach across the start of another one. */
  lemma {:induction false} ScrubConcat(a: Text, b: Text)
    requires b == [] || Leads(b[0])
    ensures Scrub(a + b) == Scrub(a) + Scrub(b)
    decreases |a|
  {
    if a == [] {
      assert a + b == b;
    } else {
      var n := CharEnd(a);
      FirstChunk(a, b);
      ConcatCut(a, b, n);
      ScrubConcat(a[n..], b);
      Assoc(Chunk(a), Scrub(a[n..]), Scrub(b));
    }
  }

  lemma AsciiScrub(c: Byte, b: Text)
    requires c < 0x80
    ensures Scrub([c] + b) == [c] + Scrub(b)
  {
    assert ([c] + b)[1..] == b && ([c] + b)[..1] == [c];
  }

  /** An ASCII character is a boundary for the decoder. */
  lemma ScrubAround(a: Text, c: Byte, b: Text)
    requires c < 0x80
    ensures Scrub(a + [c] + b) == Scrub(a) + [c] + Scrub(b)
  {
    assert a + [c] + b == a + ([c] + b);
    ScrubConcat(a, [c] + b);
    AsciiScrub(c, b);
  }

  lemma {:induction false} AsciiPrefix(a: Text, b: Text)
    requires forall i :: 0 <= i < |a| ==> a[i] < 0x80
    ensures Scrub(a + b) == a + Scrub(b)
  {
    if a == [] {
      assert a + b == b;
    } else {
      var c, rest := a[0], a[1..];
      assert a == [c] + rest;
      Assoc([c], rest, b);
      AsciiScrub(c, rest + b);
      AsciiPrefix(rest, b);
      Assoc([c], rest, Scrub(b));
    }
  }

  lemma ScrubEmpty(s: Text)
    ensures Scrub(s) == [] <==> s == []
  {}

  /** Decoding neither adds nor removes an ASCII character. */
  lemma {:induction false} ScrubKeepsFree(s: Text, c: Byte)
    requires c < 0x80 && Free(s, c)
    ensures Free(Scrub(s), c)
    decreases |s|
  {
    if s != [] {
      ScrubKeepsFree(s[CharEnd(s)..], c);
    }
  }

  lemma ScrubFreeIff(s: Text, c: Byte)
    requires c < 0x80
    ensures Free(Scrub(s), c) <==> Free(s, c)
  {
    if Free(s, c) {
      ScrubKeepsFree(s, c);
    } else {
      var i :| 0 <= i < |s| && s[i] == c;
      assert s == s[..i] + [c] + s[i + 1..];
      ScrubAround(s[..i], c, s[i + 1..]);
      assert Scrub(s)[|Scrub(s[..i])|] == c;
    }
  }

  // ---------- texts that decoding leaves alone ----------

  lemma ReplacementIsWhole(s: Text)
    requires |s| >= 3 && s[..3] == REPLACEMENT
    ensures Whole(s)
  {
    assert s[0] == s[..3][0] && s[1] == s[..3][1] && s[2] == s[..3][2];
    assert MatchFrom(s, 3) == 3;
    assert MatchFrom(s, 2) == 3;
  }

  lemma {:induction false} ScrubFixesWhole(s: Text)
    ensures Scrub(s) == s <==> AllWhole(s)
    decreases |s|
  {
    if s != [] {
      var n := CharEnd(s);
      ScrubFixesWhole(s[n..]);
      assert s == s[..n] + s[n..];
      if Whole(s) {
        assert Scrub(s)[n..] == Scrub(s[n..]);
      } else if Scrub(s) == s {
        assert s[..3] == REPLACEMENT;
        ReplacementIsWhole(s);
      }
    }
  }

  // ---------- decoding and splitting ----------

  function ScrubEach(ts: seq<Text>): (r: seq<Text>)
    ensures |r| == |ts|
  {
    if ts == [] then [] else [Scrub(ts[0])] + ScrubEach(ts[1..])
  }

  lemma {:induction false} FirstNewline(s: Text) returns (i: nat)
    requires !Free(s, LF)
    ensures i < |s| && s[i] == LF && Free(s[..i], LF)
  {
    if s[0] == LF {
      i := 0;
    } else {
      i := FirstNewline(s[1..]);
      i := i + 1;
    }
  }

  /** The pieces of a decoded text are the decoded pieces. */
  lemma {:induction false} SplitScrub(s: Text)
    ensures Split(Scrub(s)) == ScrubEach(Split(s))
    decreases |s|
  {
    if Free(s, LF) {
      ScrubKeepsFree(s, LF);
      SplitFree(s);
      SplitFree(Scrub(s));
    } else {
      var i := FirstNewline(s);
      var a, b := s[..i], s[i + 1..];
      assert s == a + [LF] + b;
      ScrubAround(a, LF, b);
      SplitAt(a, b);
      SplitAt(Scrub(a), Scrub(b));
      ScrubKeepsFree(a, LF);
      SplitFree(a);
      SplitFree(Scrub(a));
      SplitScrub(b);
      assert ([a] + Split(b))[1..] == Split(b);
    }
  }

  // ---------- code points ----------

  /** The numbers that are characters. */
  predicate IsScalar(c: nat) {
    c < 0xD800 || 0xE000 <= c < 0x110000
  }

  /** A byte inside a character, from the low six bits of a number. */
  function Inner(c: nat): (b: Byte)
    ensures 0x80 <= b <= 0xBF
  {
    0x80 + c % 64
  }

  function Encode(c: nat): (r: Text)
    requires IsScalar(c)
    ensures r != []
  {
    if c < 0x80 then [c]
    else if c < 0x800 then [0xC0 + c / 64, Inner(c)]
    else if c < 0x10000 then [0xE0 + c / 4096, Inner(c / 64), Inner(c)]
    else [0xF0 + c / 262144, Inner(c / 4096), Inner(c / 64), Inner(c)]
  }

  /** One whole character and nothing else. */
  predicate IsChar(t: Text) {
    t != [] && Whole(t) && CharEnd(t) == |t|
  }

  lemma MatchSteps(t: Text)
    requires 2 <= |t| <= 4 && |t| == Need(t[0])
    ensures CharEnd(t) == |t| <==> forall k :: 1 <= k < |t| ==> Continues(t[0], k, t[k])
  {
    assert MatchFrom(t, |t|) == |t|;
    assert |t| >= 3 ==> MatchFrom(t, |t| - 1) == if Continues(t[0], |t| - 1, t[|t| - 1]) then |t| else |t| - 1;
    assert |t| == 4 ==> (MatchFrom(t, 2) == 4 <==> Continues(t[0], 2, t[2]) && Continues(t[0], 3, t[3]));
  }

  lemma EncodeIsChar(c: nat)
    requires IsScalar(c)
    ensures IsChar(Encode(c))
  {
    if c >= 0x80 {
      MatchSteps(Encode(c));
    }
  }

  function Bits(b: Byte, base: nat): int {
    b as int - base
  }

  lemma Digits(a: nat, b: nat, c: nat)
    requires b < 64 && c < 64
    ensures (a * 64 + b) / 64 == a && (a * 64 + b) % 64 == b
    ensures (a * 4096 + b * 64 + c) / 4096 == a
    ensures (a * 4096 + b * 64 + c) / 64 == a * 64 + b && (a * 4096 + b * 64 + c) % 64 == c
  {}

  lemma CharTwo(t: Text) returns (c: nat)
    requires IsChar(t) && |t| == 2
    ensures IsScalar(c) && t == Encode(c)
  {
    MatchSteps(t);
    c := Bits(t[0], 0xC0) * 64 + Bits(t[1], 0x80);
    Digits(Bits(t[0], 0xC0), Bits(t[1], 0x80), 0);
  }

  lemma CharThree(t: Text) returns (c: nat)
    requires IsChar(t) && |t| == 3
    ensures IsScalar(c) && t == Encode(c)
  {
    MatchSteps(t);
    var x, y, z := Bits(t[0], 0xE0), Bits(t[1], 0x80), Bits(t[2], 0x80);
    c := x * 4096 + y * 64 + z;
    Digits(x, y, z);
    Digits(x, y, 0);
  }

  lemma CharFour(t: Text) returns (c: nat)
    requires IsChar(t) && |t| == 4
    ensures IsScalar(c) && t == Encode(c)
  {
    MatchSteps(t);
    var w, x, y, z := Bits(t[0], 0xF0), Bits(t[1], 0x80), Bits(t[2], 0x80), Bits(t[3], 0x80);
    c := (w * 64 + x) * 4096 + y * 64 + z;
    Digits(w * 64 + x, y, z);
    Digits(w * 64 + x, y, 0);
    Digits(w, x, 0);
    assert c / 4096 == w * 64 + x;
    assert c / 262144 == w;
  }

  /** The decoder accepts exactly the encodings of the code points that are not surrogates. */
  lemma IsCharIff(t: Text)
    ensures IsChar(t) <==> exists c: nat :: IsScalar(c) && t == Encode(c)
  {
    if IsChar(t) {
      var c: nat;
      if |t| == 1 {
        c := t[0];
      } else if |t| == 2 {
        c := CharTwo(t);
      } else if |t| == 3 {
        c := CharThree(t);
      } else {
        c := CharFour(t);
      }
      assert IsScalar(c) && t == Encode(c);
    }
    if c: nat :| IsScalar(c) && t == Encode(c) {
      EncodeIsChar(c);
    }
  }

  lemma CharThen(t: Text, y: Text)
    requires IsChar(t)
    ensures Whole(t + y) && CharEnd(t + y) == |t| && Scrub(t + y) == t + Scrub(y)
  {
    CharMatch(t, y, 1);
    assert (t + y)[..|t|] == t && (t + y)[|t|..] == y;
  }

  lemma {:induction false} CharMatch(t: Text, y: Text, k: nat)
    requires t != [] && 0 < k <= |t| && MatchFrom(t, k) == |t| == Need(t[0])
    ensures MatchFrom(t + y, k) == |t|
    decreases |t| - k
  {
    if k < |t| {
      CharMatch(t, y, k + 1);
    }
  }

  // ---------- valid texts ----------

  predicate AllScalar(cs: seq<nat>) {
    forall i :: 0 <= i < |cs| ==> IsScalar(cs[i])
  }

  function EncodeAll(cs: seq<nat>): Text
    requires AllScalar(cs)
  {
    if cs == [] then [] else Encode(cs[0]) + EncodeAll(cs[1..])
  }

  /** Valid UTF-8: the encoding of a sequence of code points. */
  ghost predicate ValidUtf8(s: Text) {
    exists cs: seq<nat> :: AllScalar(cs) && EncodeAll(cs) == s
  }

  lemma {:induction false} EncodedIsWhole(cs: seq<nat>)
    requires AllScalar(cs)
    ensures AllWhole(EncodeAll(cs))
  {
    if cs != [] {
      var t, y := Encode(cs[0]), EncodeAll(cs[1..]);
      EncodeIsChar(cs[0]);
      CharThen(t, y);
      assert (t + y)[|t|..] == y;
      EncodedIsWhole(cs[1..]);
    }
  }

  lemma FirstChar(s: Text) returns (c: nat, y: Text)
    requires s != [] && AllWhole(s)
    ensures IsScalar(c) && s == Encode(c) + y && |y| < |s| && AllWhole(y)
  {
    ChunkIsChar(s);
    IsCharIff(Chunk(s));
    c :| IsScalar(c) && Chunk(s) == Encode(c);
    y := s[CharEnd(s)..];
  }

  lemma EncodeCons(c: nat, cs: seq<nat>)
    requires IsScalar(c) && AllScalar(cs)
    ensures AllScalar([c] + cs) && EncodeAll([c] + cs) == Encode(c) + EncodeAll(cs)
  {
    assert ([c] + cs)[1..] == cs;
  }

  lemma {:induction false} WholeIsEncoded(s: Text) returns (cs: seq<nat>)
    requires AllWhole(s)
    ensures AllScalar(cs) && EncodeAll(cs) == s
    decreases |s|
  {
    if s == [] {
      cs := [];
    } else {
      var c, y := FirstChar(s);
      var more := WholeIsEncoded(y);
      EncodeCons(c, more);
      cs := [c] + more;
    }
  }

  /** Decoding leaves exactly the valid texts as they are. */
  lemma ScrubFixes(s: Text)
    ensures Scrub(s) == s <==> ValidUtf8(s)
  {
    ScrubFixesWhole(s);
    if AllWhole(s) {
      var cs := WholeIsEncoded(s);
    }
    if cs: seq<nat> :| AllScalar(cs) && EncodeAll(cs) == s {
      EncodedIsWhole(cs);
    }
  }

  // ---------- white space ----------

  /** The code points with Unicode's property White_Space. */
  predicate IsWhiteSpace(c: nat) {
    || 9 <= c <= 13 || c == 32 || c == 0x85 || c == 0xA0 || c == 0x1680 || 0x2000 <= c <= 0x200A
    || c == 0x2028 || c == 0x2029 || c == 0x202F || c == 0x205F || c == 0x3000
  }

  lemma WhiteSpaceEncoded(c: nat)
    requires IsScalar(c)
    ensures IsSpace(Encode(c)) <==> IsWhiteSpace(c)
  {
    if 0x800 <= c < 0x10000 {
      WideEncoded(c);
    }
  }

  lemma WideEncoded(c: nat)
    requires 0x800 <= c < 0x10000 && IsScalar(c)
    ensures IsSpace(Encode(c)) <==> IsWhiteSpace(c)
  {
    var a, b, d := c / 4096, c / 64 % 64, c % 64;
    assert c == a * 4096 + b * 64 + d;
    WideDigits(a, b, d);
    assert Encode(c) == [0xE0 + a, 0x80 + b, 0x80 + d];
  }

  lemma WideDigits(a: nat, b: nat, d: nat)
    requires a < 16 && b < 64 && d < 64 && a * 4096 + b * 64 + d >= 0x800
    ensures IsWideSpace(0xE0 + a, 0x80 + b, 0x80 + d) <==> IsWhiteSpace(a * 4096 + b * 64 + d)
  {}

  /** What TrimSpace takes for white space are exactly the encodings of the white space characters. */
  lemma IsSpaceIff(t: Text)
    ensures IsSpace(t) <==> exists c: nat :: IsScalar(c) && IsWhiteSpace(c) && t == Encode(c)
  {
    if IsSpace(t) {
      SpaceIsChar(t);
      IsCharIff(t);
      var c: nat :| IsScalar(c) && t == Encode(c);
      WhiteSpaceEncoded(c);
    }
    if c: nat :| IsScalar(c) && IsWhiteSpace(c) && t == Encode(c) {
      WhiteSpaceEncoded(c);
    }
  }

  // ---------- decoding and trimming ----------

  lemma {:induction false} MatchedContinues(s: Text, k: nat, i: nat)
    requires 0 < k <= i < |s| && i < MatchFrom(s, k)
    ensures 0x80 <= s[i] <= 0xBF
    decreases |s| - k
  {
    if k < i {
      MatchedContinues(s, k + 1, i);
    }
  }

  /** What is read at the start of a text does not change when the text is cut later. */
  lemma {:induction false} MatchCut(s: Text, p: Text, k: nat)
    requires 0 < k <= |p| && p <= s && MatchFrom(s, k) <= |p|
    ensures MatchFrom(p, k) == MatchFrom(s, k)
    decreases |s| - k
  {
    if k < MatchFrom(s, k) {
      MatchCut(s, p, k + 1);
    }
  }

  lemma SpaceIsChar(t: Text)
    requires IsSpace(t)
    ensures IsChar(t) && Leads(t[0])
  {
    if |t| > 1 {
      MatchSteps(t);
    }
  }

  lemma LeadingScrub(s: Text)
    ensures LeadingSpace(Scrub(s)) > 0 ==> LeadingSpace(s) > 0
  {
    var k := LeadingSpace(Scrub(s));
    if k > 0 {
      FoundSpaces(Scrub(s));
      var t := Scrub(s)[..k];
      SpaceIsChar(t);
      assert Scrub(s) == t + Scrub(s)[k..];
      CharThen(t, Scrub(s)[k..]);
      assert Scrub(s)[0] == t[0] != 0xEF;
      ChunkIsChar(s);
      CharThen(Chunk(s), Scrub(s[CharEnd(s)..]));
      assert s[..k] == t;
      assert StartsIn(s, k);
    }
  }

  lemma ChunkIsChar(s: Text)
    requires s != []
    ensures IsChar(Chunk(s))
  {
    if Whole(s) {
      MatchCut(s, Chunk(s), 1);
    } else {
      ReplacementIsWhole(REPLACEMENT);
    }
  }

  lemma {:induction false} TrimLeftScrub(s: Text)
    ensures TrimLeft(Scrub(s)) == Scrub(TrimLeft(s))
    decreases |s|
  {
    if LeadingSpace(s) == 0 {
      LeadingScrub(s);
    } else {
      var t, y := FirstSpace(s);
      SpaceIsChar(t);
      CharThen(t, y);
      LeadingSpaceThen(t, Scrub(y));
      assert (t + Scrub(y))[|t|..] == Scrub(y);
      TrimLeftScrub(y);
    }
  }

  /** What the decoder makes of the first character does not depend on where the text ends. */
  lemma CutChunk(s: Text, c: Text, x: Text)
    requires s != [] && c == s[..CharEnd(s)] && c + x <= s
    ensures Scrub(c + x) == Chunk(s) + Scrub(x)
  {
    MatchCut(s, c + x, 1);
    assert (c + x)[|c|..] == x && (c + x)[..|c|] == c;
  }

  /** The last character of a decoded text: one of the text's own, or a replacement. */
  predicate EndsWithChar(s: Text, a: Text, b: Text, u: Text) {
    s == a + b && IsChar(u) && Scrub(s) == Scrub(a) + u && (u == REPLACEMENT || u == b)
  }

  lemma OnlyChunk(s: Text)
    requires s != [] && CharEnd(s) == |s|
    ensures EndsWithChar(s, [], s, Chunk(s))
  {
    ChunkIsChar(s);
    assert s[..|s|] == s && s[|s|..] == [];
    assert Scrub(s) == Chunk(s) + Scrub([]) == Chunk(s) == Scrub([]) + Chunk(s);
  }

  lemma LaterChunk(s: Text, c: Text, rest: Text, a: Text, b: Text, u: Text)
    requires s != [] && c == s[..CharEnd(s)] && rest == s[CharEnd(s)..] && EndsWithChar(rest, a, b, u)
    ensures EndsWithChar(s, c + a, b, u)
  {
    assert s == c + rest;
    Assoc(c, a, b);
    CutChunk(s, c, a);
    Assoc(Chunk(s), Scrub(a), u);
  }

  lemma {:induction false} LastChunk(s: Text) returns (a: Text, b: Text, u: Text)
    requires s != []
    ensures EndsWithChar(s, a, b, u)
    decreases |s|
  {
    var c, rest := s[..CharEnd(s)], s[CharEnd(s)..];
    if rest == [] {
      a, b, u := [], s, Chunk(s);
      OnlyChunk(s);
    } else {
      a, b, u := LastChunk(rest);
      LaterChunk(s, c, rest, a, b, u);
      a := c + a;
    }
  }

  /** The end of a text that begins inside or before its last character is no space. */
  lemma SpaceEndsWhole(a: Text, u: Text, m: nat)
    requires IsChar(u) && 1 <= m <= 3 && m <= |a + u| && m != |u|
    ensures !EndsIn(a + u, m)
  {
    var s := a + u;
    if m < |u| {
      assert s[|s| - m] == u[|u| - m];
      MatchedContinues(u, 1, |u| - m);
    } else {
      assert s[|s| - |u|] == u[0];
    }
  }

  lemma EndsAfter(y: Text, t: Text, n: nat)
    requires 1 <= n <= |t|
    ensures EndsIn(y + t, n) == EndsIn(t, n)
  {
    var s := y + t;
    assert s[|s| - n] == t[|t| - n];
    assert n > 1 ==> s[|s| - n + 1] == t[|t| - n + 1];
    assert n > 2 ==> s[|s| - n + 2] == t[|t| - n + 2];
  }

  lemma TrailingScrub(s: Text)
    ensures TrailingSpace(Scrub(s)) > 0 ==> TrailingSpace(s) > 0
  {
    var m := TrailingSpace(Scrub(s));
    if m > 0 {
      var a, b, u := LastChunk(s);
      if m != |u| {
        SpaceEndsWhole(Scrub(a), u, m);
      }
      SpaceAtEnd(Scrub(a), u);
      SpaceAtEnd(a, u);
    }
  }

  lemma SpaceAtEnd(y: Text, u: Text)
    requires 1 <= |u| <= 3
    ensures EndsIn(y + u, |u|) <==> IsSpace(u)
  {
    EndsAfter(y, u, |u|);
  }

  lemma TrailingSpaceAfter(y: Text, t: Text)
    requires IsSpace(t)
    ensures TrailingSpace(y + t) == |t|
  {
    SpaceAlone(t);
    EndsAfter(y, t, 1);
    if |t| >= 2 {
      EndsAfter(y, t, 2);
    }
    if |t| == 3 {
      EndsAfter(y, t, 3);
    }
  }

  lemma ScrubSpaceAfter(y: Text, t: Text)
    requires IsSpace(t)
    ensures Scrub(y + t) == Scrub(y) + t
  {
    SpaceIsChar(t);
    ScrubConcat(y, t);
    CharThen(t, []);
    assert t + [] == t;
  }

  lemma TrimRightSpaceAfter(y: Text, t: Text)
    requires IsSpace(t)
    ensures TrimRight(y + t) == TrimRight(y)
  {
    TrailingSpaceAfter(y, t);
    assert (y + t)[..|y|] == y;
  }

  lemma {:induction false} TrimRightScrub(s: Text)
    ensures TrimRight(Scrub(s)) == Scrub(TrimRight(s))
    decreases |s|
  {
    if TrailingSpace(s) == 0 {
      TrailingScrub(s);
    } else {
      var y, t := LastSpace(s);
      ScrubSpaceAfter(y, t);
      TrimRightSpaceAfter(Scrub(y), t);
      TrimRightScrub(y);
    }
  }

  /** Decoding and TrimSpace can be done in either order. */
  lemma TrimScrub(s: Text)
    ensures TrimSpace(Scrub(s)) == Scrub(TrimSpace(s))
  {
    TrimLeftScrub(s);
    TrimRightScrub(TrimLeft(s));
  }
}
