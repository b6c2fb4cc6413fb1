/** The byte strings of the SSE code, and the two functions of Go's strings package it relies on:
    Split at newlines and TrimSpace. Texts are byte strings, as in Go. */
module SseText {

  type Byte = x: int | 0 <= x < 256
  type Text = seq<Byte>

  const NUL: Byte := 0
  const LF: Byte := 10
  const CR: Byte := 13
  const BLANK: Byte := 32
  const COLON: Byte := 58

  predicate Free(s: Text, b: Byte) {
    forall i :: 0 <= i < |s| ==> s[i] != b
  }

  lemma Assoc<T>(a: seq<T>, b: seq<T>, c: seq<T>)
    ensures a + (b + c) == (a + b) + c
  {}

  // ---------- strings.Split(s, "\n") ----------

  function Split(s: Text): (r: seq<Text>)
    ensures |r| > 0
  {
    if s == [] then [[]]
    else
      var r := Split(s[1..]);
      if s[0] == LF then [[]] + r else [[s[0]] + r[0]] + r[1..]
  }

  /** The pieces with a newline between each two. */
  function Join(r: seq<Text>): Text
    requires |r| > 0
  {
    if |r| == 1 then r[0] else r[0] + [LF] + Join(r[1..])
  }

  lemma {:induction false} JoinSplit(s: Text)
    ensures Join(Split(s)) == s
    ensures forall i :: 0 <= i < |Split(s)| ==> Free(Split(s)[i], LF)
  {
    if s != [] {
      JoinSplit(s[1..]);
      var r := Split(s[1..]);
      if s[0] == LF {
        assert ([[]] + r)[1..] == r;
        assert s == [] + [LF] + s[1..];
      } else {
        var t := [[s[0]] + r[0]] + r[1..];
        assert t[1..] == r[1..];
        if |r| == 1 {
          assert s == [s[0]] + r[0];
        } else {
          assert [s[0]] + (r[0] + [LF] + Join(r[1..])) == ([s[0]] + r[0]) + [LF] + Join(r[1..]);
        }
        assert s == [s[0]] + s[1..];
      }
    }
  }

  lemma {:induction false} SplitFree(s: Text)
    requires Free(s, LF)
    ensures Split(s) == [s]
  {
    if s != [] {
      SplitFree(s[1..]);
      assert [s[0]] + s[1..] == s;
    }
  }

  lemma {:induction false} SplitPiecesFree(s: Text, b: Byte)
    requires Free(s, b)
    ensures forall i :: 0 <= i < |Split(s)| ==> Free(Split(s)[i], b)
  {
    if s != [] {
      SplitPiecesFree(s[1..], b);
    }
  }

  /** A newline-free start goes to the first piece. */
  lemma {:induction false} SplitPrefix(a: Text, s: Text)
    requires Free(a, LF)
    ensures Split(a + s) == [a + Split(s)[0]] + Split(s)[1..]
  {
    if a == [] {
      assert a + s == s && a + Split(s)[0] == Split(s)[0];
      assert Split(s) == [Split(s)[0]] + Split(s)[1..];
    } else {
      assert (a + s)[1..] == a[1..] + s;
      SplitPrefix(a[1..], s);
      assert [a[0]] + (a[1..] + Split(s)[0]) == a + Split(s)[0];
    }
  }

  lemma {:induction false} SplitAt(a: Text, b: Text)
    ensures Split(a + [LF] + b) == Split(a) + Split(b)
  {
    var s := a + [LF] + b;
    if a == [] {
      assert s[1..] == b;
    } else {
      assert s[1..] == a[1..] + [LF] + b;
      SplitAt(a[1..], b);
    }
  }

  // ---------- strings.TrimSpace ----------

  /** Whether the `n` bytes of `s` from `i` encode a character for which Go's unicode.IsSpace holds. */
  predicate SpaceAt(s: Text, i: nat, n: nat)
    requires i + n <= |s|
  {
    if n == 1 then 9 <= s[i] <= 13 || s[i] == 32
    else if n == 2 then s[i] == 0xC2 && (s[i + 1] == 0x85 || s[i + 1] == 0xA0)
    else n == 3 && IsWideSpace(s[i], s[i + 1], s[i + 2])
  }

  /** The UTF-8 encodings of the white space characters. */
  predicate IsSpace(t: Text) {
    SpaceAt(t, 0, |t|)
  }

  /** The spaces of three bytes: U+1680, U+2000 to U+200A, U+2028, U+2029, U+202F, U+205F, U+3000. */
  predicate IsWideSpace(a: Byte, b: Byte, c: Byte) {
    if a == 0xE2 then
      (b == 0x80 && (0x80 <= c <= 0x8A || c == 0xA8 || c == 0xA9 || c == 0xAF)) || (b == 0x81 && c == 0x9F)
    else (a == 0xE1 && b == 0x9A && c == 0x80) || (a == 0xE3 && b == 0x80 && c == 0x80)
  }

  predicate StartsIn(s: Text, n: nat) {
    n <= |s| && SpaceAt(s, 0, n)
  }

  predicate EndsIn(s: Text, n: nat) {
    n <= |s| && SpaceAt(s, |s| - n, n)
  }

  /** The length of the space character at the start of `s`, or 0. */
  function LeadingSpace(s: Text): (n: nat)
    ensures n <= |s| && n <= 3
  {
    if StartsIn(s, 1) then 1 else if StartsIn(s, 2) then 2 else if StartsIn(s, 3) then 3 else 0
  }

  function TrailingSpace(s: Text): (n: nat)
    ensures n <= |s| && n <= 3
  {
    if EndsIn(s, 1) then 1 else if EndsIn(s, 2) then 2 else if EndsIn(s, 3) then 3 else 0
  }

  lemma FoundSpaces(s: Text)
    ensures LeadingSpace(s) > 0 ==> IsSpace(s[..LeadingSpace(s)])
    ensures TrailingSpace(s) > 0 ==> IsSpace(s[|s| - TrailingSpace(s)..])
  {}

  function TrimLeft(s: Text): (r: Text)
    ensures |r| <= |s|
  {
    if LeadingSpace(s) == 0 then s else TrimLeft(s[LeadingSpace(s)..])
  }

  function TrimRight(s: Text): (r: Text)
    ensures r <= s
  {
    if TrailingSpace(s) == 0 then s else TrimRight(s[..|s| - TrailingSpace(s)])
  }

  function TrimSpace(s: Text): Text {
    TrimRight(TrimLeft(s))
  }

  // ---------- how trimming meets concatenation ----------

  /** Two encodings never overlap in part. */
  lemma NoOverlap(s: Text, i: nat, j: nat, k: nat)
    requires i < j < k <= |s| && IsSpace(s[i..k])
    ensures !IsSpace(s[i..j]) && !IsSpace(s[j..k])
    ensures s[j] >= 0x80 && s[i] >= 0x80
  {
    var t := s[i..k];
    assert t[j - i] == s[j] && t[0] == s[i];
    assert s[j..k][0] == t[j - i];
    assert s[i..j][0] == t[0];
  }

  /** A space at the end of `a + y` lies within `y`. */
  lemma EndsInside(a: Text, y: Text, n: nat)
    requires y != [] && a != [] && 1 <= n <= 3
    requires a[|a| - 1] < 0x80 || IsSpace(a)
    ensures EndsIn(a + y, n) <==> EndsIn(y, n)
  {
    if n <= |y| {
      assert (a + y)[|a + y| - n..] == y[|y| - n..];
    } else if n <= |a + y| {
      StraddleImpossible(a, y, n);
    }
  }

  lemma TrailingInside(a: Text, y: Text)
    requires y != [] && a != []
    requires a[|a| - 1] < 0x80 || IsSpace(a)
    ensures TrailingSpace(a + y) == TrailingSpace(y)
  {
    EndsInside(a, y, 1);
    EndsInside(a, y, 2);
    EndsInside(a, y, 3);
  }

  lemma StraddleImpossible(a: Text, y: Text, n: nat)
    requires y != [] && a != [] && |y| < n <= 3 && n <= |a + y|
    requires a[|a| - 1] < 0x80 || IsSpace(a)
    ensures !IsSpace((a + y)[|a + y| - n..])
  {
    var u := (a + y)[|a + y| - n..];
    var m := n - |y|;
    assert u[m - 1] == a[|a| - 1] && u[0] == a[|a| - m];
  }

  lemma TextEnd(a: Text, n: nat)
    requires a != [] && 0x20 < a[|a| - 1] < 0x80 && 1 <= n <= 3
    ensures !EndsIn(a, n)
  {
    if n <= |a| {
      assert a[|a| - n..][n - 1] == a[|a| - 1];
    }
  }

  lemma {:induction false} TrimRightTextThen(a: Text, y: Text)
    requires a != [] && 0x20 < a[|a| - 1] < 0x80
    ensures TrimRight(a + y) == a + TrimRight(y)
    decreases |y|
  {
    if y == [] {
      assert a + y == a;
      TextEnd(a, 1);
      TextEnd(a, 2);
      TextEnd(a, 3);
    } else {
      TrailingInside(a, y);
      var n := TrailingSpace(y);
      if n > 0 {
        assert (a + y)[..|a + y| - n] == a + y[..|y| - n];
        TrimRightTextThen(a, y[..|y| - n]);
      }
    }
  }

  /** Trimming the right end of a space followed by `y`. */
  lemma {:induction false} TrimRightSpaceThen(t: Text, y: Text)
    requires IsSpace(t)
    ensures TrimRight(t + y) == if TrimRight(y) == [] then [] else t + TrimRight(y)
    decreases |y|
  {
    if y == [] {
      assert t + y == t;
      SpaceVanishes(t);
    } else {
      TrailingInside(t, y);
      var n := TrailingSpace(y);
      if n > 0 {
        assert (t + y)[..|t + y| - n] == t + y[..|y| - n];
        TrimRightSpaceThen(t, y[..|y| - n]);
      }
    }
  }

  lemma SpaceProper(t: Text, n: nat)
    requires IsSpace(t) && 1 <= n < |t|
    ensures !StartsIn(t, n) && !EndsIn(t, n)
  {
    NoOverlap(t, 0, n, |t|);
    NoOverlap(t, 0, |t| - n, |t|);
    assert t[0..|t|] == t && t[0..n] == t[..n] && t[|t| - n..|t|] == t[|t| - n..];
  }

  lemma SpaceAlone(t: Text)
    requires IsSpace(t)
    ensures TrailingSpace(t) == |t|
  {
    if |t| >= 2 {
      SpaceProper(t, 1);
    }
    if |t| == 3 {
      SpaceProper(t, 2);
    }
    assert t[|t| - |t|..] == t;
    assert EndsIn(t, |t|);
  }

  lemma SpaceVanishes(t: Text)
    requires IsSpace(t)
    ensures TrimRight(t) == []
  {
    SpaceAlone(t);
    assert t[..|t| - |t|] == [];
  }

  lemma LeadingSpaceThen(t: Text, y: Text)
    requires IsSpace(t)
    ensures LeadingSpace(t + y) == |t|
  {
    var s := t + y;
    if |t| >= 2 {
      SpaceProper(t, 1);
      assert s[..1] == t[..1];
    }
    if |t| == 3 {
      SpaceProper(t, 2);
      assert s[..2] == t[..2];
    }
    assert s[..|t|] == t;
    assert StartsIn(s, |t|);
  }

  lemma PrefixHasNoLeading(s: Text, q: Text)
    requires q <= s && LeadingSpace(s) == 0
    ensures LeadingSpace(q) == 0
  {
    assert forall n {:trigger StartsIn(q, n)} :: 1 <= n <= 3 && StartsIn(q, n) ==> q[..n] == s[..n] && StartsIn(s, n);
  }

  /** The two ends can be trimmed in either order. */
  lemma {:induction false} TrimEitherOrder(s: Text)
    ensures TrimLeft(TrimRight(s)) == TrimRight(TrimLeft(s))
    decreases |s|
  {
    var n := LeadingSpace(s);
    if n == 0 {
      PrefixHasNoLeading(s, TrimRight(s));
    } else {
      var t, y := s[..n], s[n..];
      assert s == t + y;
      FoundSpaces(s);
      TrimEitherOrder(y);
      TrimRightSpaceThen(t, y);
      if TrimRight(y) != [] {
        LeadingSpaceThen(t, TrimRight(y));
        assert (t + TrimRight(y))[n..] == TrimRight(y);
      }
    }
  }

  lemma {:induction false} TrimRightTwice(s: Text)
    ensures TrimRight(TrimRight(s)) == TrimRight(s)
    decreases |s|
  {
    if TrailingSpace(s) > 0 {
      TrimRightTwice(s[..|s| - TrailingSpace(s)]);
    }
  }

  /** A trimmed right end and a space in front make no difference to TrimSpace. */
  lemma TrimAroundBlank(y: Text)
    ensures TrimSpace(TrimRight([BLANK] + y)) == TrimSpace(y)
  {
    TrimRightSpaceThen([BLANK], y);
    TrimEitherOrder(y);
    if TrimRight(y) != [] {
      LeadingSpaceThen([BLANK], TrimRight(y));
      assert ([BLANK] + TrimRight(y))[1..] == TrimRight(y);
      TrimRightTwice(TrimLeft(y));
    }
  }

  lemma TrimRightNewline(s: Text)
    ensures TrimRight(s + [LF]) == TrimRight(s)
  {
    assert (s + [LF])[|s|..] == [LF];
    assert (s + [LF])[..|s|] == s;
  }

  lemma NoStart(s: Text, n: nat)
    requires s != [] && 0x20 < s[0] < 0x80 && 1 <= n <= 3
    ensures !StartsIn(s, n)
  {
    if n <= |s| {
      assert s[..n][0] == s[0];
    }
  }

  /** A text that starts with a printing ASCII character keeps its start. */
  lemma TrimKeepsStart(a: Text, y: Text)
    requires a != [] && 0x20 < a[0] < 0x80 && 0x20 < a[|a| - 1] < 0x80
    ensures TrimSpace(a + y) == a + TrimRight(y)
  {
    var s := a + y;
    NoStart(s, 1);
    NoStart(s, 2);
    NoStart(s, 3);
    assert TrimLeft(s) == s;
    TrimRightTextThen(a, y);
  }

  // ---------- what TrimSpace means ----------

  function Flat(ts: seq<Text>): Text {
    if ts == [] then [] else ts[0] + Flat(ts[1..])
  }

  predicate Spaces(ts: seq<Text>) {
    forall i :: 0 <= i < |ts| ==> IsSpace(ts[i])
  }

  lemma {:induction false} FlatAppend(ts: seq<Text>, t: Text)
    ensures Flat(ts + [t]) == Flat(ts) + t
  {
    if ts == [] {
      assert ts + [t] == [t] && [t][1..] == [];
    } else {
      assert (ts + [t])[1..] == ts[1..] + [t];
      FlatAppend(ts[1..], t);
    }
  }

  lemma FlatCons(t: Text, ts: seq<Text>)
    ensures Flat([t] + ts) == t + Flat(ts)
  {
    assert ([t] + ts)[1..] == ts;
  }

  /** `s` is `rest` behind the spaces `ts`. */
  predicate Behind(s: Text, ts: seq<Text>, rest: Text) {
    Spaces(ts) && s == Flat(ts) + rest && LeadingSpace(rest) == 0
  }

  /** `s` is `rest` before the spaces `ts`. */
  predicate Before(s: Text, rest: Text, ts: seq<Text>) {
    Spaces(ts) && s == rest + Flat(ts) && TrailingSpace(rest) == 0
  }

  lemma BehindOneMore(t: Text, s: Text, ts: seq<Text>, rest: Text)
    requires IsSpace(t) && Behind(s, ts, rest)
    ensures Behind(t + s, [t] + ts, rest)
  {
    FlatCons(t, ts);
    Assoc(t, Flat(ts), rest);
  }

  lemma BeforeOneMore(s: Text, rest: Text, ts: seq<Text>, t: Text)
    requires IsSpace(t) && Before(s, rest, ts)
    ensures Before(s + t, rest, ts + [t])
  {
    FlatAppend(ts, t);
    Assoc(rest, Flat(ts), t);
  }

  lemma FirstSpace(s: Text) returns (t: Text, y: Text)
    requires LeadingSpace(s) > 0
    ensures s == t + y && IsSpace(t) && |y| < |s| && TrimLeft(s) == TrimLeft(y)
  {
    var n := LeadingSpace(s);
    FoundSpaces(s);
    t, y := s[..n], s[n..];
  }

  lemma LastSpace(s: Text) returns (y: Text, t: Text)
    requires TrailingSpace(s) > 0
    ensures s == y + t && IsSpace(t) && |y| < |s| && TrimRight(s) == TrimRight(y)
  {
    var n := |s| - TrailingSpace(s);
    FoundSpaces(s);
    y, t := s[..n], s[n..];
  }

  lemma {:induction false} TrimLeftMeaning(s: Text) returns (ts: seq<Text>)
    ensures Behind(s, ts, TrimLeft(s))
    decreases |s|
  {
    if LeadingSpace(s) == 0 {
      ts := [];
    } else {
      var t, y := FirstSpace(s);
      ts := TrimLeftMeaning(y);
      BehindOneMore(t, y, ts, TrimLeft(y));
      ts := [t] + ts;
    }
  }

  lemma {:induction false} TrimRightMeaning(s: Text) returns (ts: seq<Text>)
    ensures Before(s, TrimRight(s), ts)
    decreases |s|
  {
    if TrailingSpace(s) == 0 {
      ts := [];
    } else {
      var y, t := LastSpace(s);
      ts := TrimRightMeaning(y);
      BeforeOneMore(y, TrimRight(y), ts, t);
      ts := ts + [t];
    }
  }

  /** TrimSpace removes white space, nothing else, and all of it, at both ends. */
  lemma TrimSpaceMeaning(s: Text) returns (before: seq<Text>, after: seq<Text>)
    ensures Spaces(before) && Spaces(after) && s == Flat(before) + (TrimSpace(s) + Flat(after))
    ensures LeadingSpace(TrimSpace(s)) == 0 && TrailingSpace(TrimSpace(s)) == 0
  {
    before := TrimLeftMeaning(s);
    after := TrimRightMeaning(TrimLeft(s));
    PrefixHasNoLeading(TrimLeft(s), TrimSpace(s));
  }
}
