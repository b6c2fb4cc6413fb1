/** The cyclic scan of the load balancer (pkg/etdc_load_balancer.go:84-104) on list positions. */
module BalancerScan {
  import opened Options

  /** The position read `k` steps after `cur` in a list of `n`. */
  function Pos(cur: nat, k: nat, n: nat): (p: nat)
    requires n > 0
    ensures p < n
  {
    (cur + k) % n
  }

  ghost predicate NoneBefore(seen: nat -> bool, k: nat) {
    forall j: nat :: j < k ==> !seen(j)
  }

  /** What one call does. `seen(k)` is the answer of its `k`-th liveness read; it makes up to `n + 1`
      reads, so the position under `Current` gets a second one. */
  ghost predicate IsPick(n: nat, cur: nat, seen: nat -> bool, result: Option<nat>, cur': nat) {
    n > 0 &&
    match result
    case Some(p) => exists k: nat :: PickedAt(n, cur, seen, k) && p == Pos(cur, k, n) && cur' == Pos(cur, k + 1, n)
    case None => NoneBefore(seen, n + 1) && cur' == Pos(cur, n + 1, n)
  }

  ghost predicate PickedAt(n: nat, cur: nat, seen: nat -> bool, k: nat) {
    k <= n && seen(k) && NoneBefore(seen, k)
  }

  lemma NoneNext(seen: nat -> bool, k: nat)
    requires NoneBefore(seen, k) && !seen(k)
    ensures NoneBefore(seen, k + 1)
  {}

  lemma FoundIsPick(n: nat, cur: nat, seen: nat -> bool, k: nat)
    requires n > 0 && k <= n && seen(k) && NoneBefore(seen, k)
    ensures IsPick(n, cur, seen, Some(Pos(cur, k, n)), Pos(cur, k + 1, n))
  {
    assert PickedAt(n, cur, seen, k);
  }

  lemma NoneIsPick(n: nat, cur: nat, seen: nat -> bool)
    requires n > 0 && NoneBefore(seen, n + 1)
    ensures IsPick(n, cur, seen, None, Pos(cur, n + 1, n))
  {}

  lemma WhichRead(n: nat, cur: nat, seen: nat -> bool, result: Option<nat>, cur': nat) returns (k: nat)
    requires IsPick(n, cur, seen, result, cur') && result.Some?
    ensures PickedAt(n, cur, seen, k) && result == Some(Pos(cur, k, n)) && cur' == Pos(cur, k + 1, n)
  {
    k :| PickedAt(n, cur, seen, k) && result == Some(Pos(cur, k, n)) && cur' == Pos(cur, k + 1, n);
  }

  /** Consecutive calls between two list updates. */
  ghost predicate ArePicks(n: nat, curs: seq<nat>, seen: nat -> nat -> bool, picks: seq<Option<nat>>) {
    && n > 0
    && |curs| == |picks| + 1
    && curs[0] < n
    && forall i :: 0 <= i < |picks| ==> IsPick(n, curs[i], seen(i), picks[i], curs[i + 1])
  }

  lemma PosSteps(cur: nat, k: nat, n: nat)
    requires cur < n && k <= n
    ensures Pos(cur, k, n) == if cur + k < n then cur + k else cur + k - n
    ensures Pos(cur, k + 1, n) == if cur + k + 1 < n then cur + k + 1
                                  else if cur + k + 1 < 2 * n then cur + k + 1 - n else 0
  {
    SmallMod(cur + k, n);
    SmallMod(cur + k + 1, n);
  }

  lemma SmallMod(x: nat, n: nat)
    requires n > 0 && x <= 2 * n
    ensures x % n == if x < n then x else if x < 2 * n then x - n else 0
  {
    if n <= x < 2 * n {
      ModShift(x - n, n);
    } else if x == 2 * n {
      ModShift(n, n);
      ModShift(0, n);
    }
  }

  lemma ModShift(x: nat, n: nat)
    requires n > 0
    ensures (x + n) % n == x % n && (x + n) / n == x / n + 1
  {
    var q := x / n;
    assert x + n == (q + 1) * n + x % n;
    DivModUnique(x + n, n, q + 1, x % n);
  }

  lemma DivModUnique(x: nat, n: nat, q: nat, r: nat)
    requires n > 0 && r < n && x == q * n + r
    ensures x / n == q && x % n == r
  {
    var d: int := x / n - q;
    assert d * n == r - x % n by {
      assert x == (x / n) * n + x % n;
      assert d * n == (x / n) * n - q * n;
    }
    MulBounds(d, n);
  }

  lemma MulBounds(d: int, n: nat)
    ensures d >= 1 ==> d * n >= n
    ensures d <= -1 ==> d * n + n <= 0
  {}

  // ---------- bounded bypass ----------

  /** How many reads before position `p` is reached from `cur`. */
  function Distance(n: nat, cur: nat, p: nat): nat
    requires cur < n && p < n
  {
    if cur <= p then p - cur else p + n - cur
  }

  /** Whenever one of the calls reads position `p`, it is seen alive. */
  ghost predicate AlwaysSeen(n: nat, curs: seq<nat>, seen: nat -> nat -> bool, calls: nat, p: nat)
    requires n > 0 && |curs| >= calls
  {
    forall i: nat, k: nat :: i < calls && k <= n && Pos(curs[i], k, n) == p ==> seen(i)(k)
  }

  /** One call returns `p` or gets closer to it. */
  lemma PickCloser(n: nat, cur: nat, seen: nat -> bool, result: Option<nat>, cur': nat, p: nat)
    requires cur < n && p < n && IsPick(n, cur, seen, result, cur')
    requires forall k: nat :: k <= n && Pos(cur, k, n) == p ==> seen(k)
    ensures cur' < n
    ensures result == Some(p) || Distance(n, cur', p) < Distance(n, cur, p)
  {
    var d := Distance(n, cur, p);
    PosSteps(cur, d, n);
    assert Pos(cur, d, n) == p && seen(d);
    var k: nat :| PickedAt(n, cur, seen, k) && result == Some(Pos(cur, k, n)) && cur' == Pos(cur, k + 1, n);
    assert k <= d;
    PosSteps(cur, k, n);
  }

  /** A position that is alive whenever it is read is returned within `n` calls, whatever the other
      reads answer; more precisely within its distance from `Current`. */
  lemma {:induction false} BoundedBypass(n: nat, curs: seq<nat>, seen: nat -> nat -> bool,
                                         picks: seq<Option<nat>>, p: nat)
    requires ArePicks(n, curs, seen, picks) && p < n
    requires AlwaysSeen(n, curs, seen, |picks|, p)
    requires |picks| > Distance(n, curs[0], p)
    ensures exists i :: 0 <= i <= Distance(n, curs[0], p) && i < n && picks[i] == Some(p)
    decreases Distance(n, curs[0], p)
  {
    assert IsPick(n, curs[0], seen(0), picks[0], curs[1]);
    PickCloser(n, curs[0], seen(0), picks[0], curs[1], p);
    if picks[0] != Some(p) {
      var seen' := (i: nat) => seen(i + 1);
      forall i | 0 <= i < |picks[1..]|
        ensures IsPick(n, curs[1..][i], seen'(i), picks[1..][i], curs[1..][i + 1])
      {
        assert IsPick(n, curs[i + 1], seen(i + 1), picks[i + 1], curs[i + 2]);
      }
      BoundedBypass(n, curs[1..], seen', picks[1..], p);
      var i :| 0 <= i <= Distance(n, curs[1], p) && i < n && picks[1..][i] == Some(p);
      assert picks[i + 1] == Some(p);
    }
  }

  // ---------- liveness fixed ----------

  /** The reads of a call when nothing changes meanwhile. */
  function Fixed(alive: seq<bool>, cur: nat): nat -> bool
    requires alive != []
  {
    (k: nat) => alive[Pos(cur, k, |alive|)]
  }

  /** The number of alive positions before `c`. */
  function Below(alive: seq<bool>, c: nat): (r: nat)
    requires c <= |alive|
    ensures r <= c
  {
    if c == 0 then 0 else Below(alive, c - 1) + if alive[c - 1] then 1 else 0
  }

  /** The alive positions in increasing order, up to `c`. */
  function AliveUpTo(alive: seq<bool>, c: nat): (a: seq<nat>)
    requires c <= |alive|
    ensures |a| == Below(alive, c)
    ensures forall i :: 0 <= i < |a| ==> a[i] < c && alive[a[i]]
    ensures forall i, j :: 0 <= i < j < |a| ==> a[i] < a[j]
  {
    if c == 0 then [] else AliveUpTo(alive, c - 1) + if alive[c - 1] then [c - 1] else []
  }

  function AlivePositions(alive: seq<bool>): seq<nat> {
    AliveUpTo(alive, |alive|)
  }

  /** Alive position `p` is the entry number `Below(alive, p)`. */
  lemma {:induction false} AliveAt(alive: seq<bool>, c: nat, p: nat)
    requires p < c <= |alive| && alive[p]
    ensures Below(alive, p) < Below(alive, c) && AliveUpTo(alive, c)[Below(alive, p)] == p
  {
    if p < c - 1 {
      AliveAt(alive, c - 1, p);
    }
  }

  lemma {:induction false} NoneBetween(alive: seq<bool>, a: nat, b: nat)
    requires a <= b <= |alive| && forall i :: a <= i < b ==> !alive[i]
    ensures Below(alive, a) == Below(alive, b)
  {
    if a < b {
      NoneBetween(alive, a, b - 1);
    }
  }

  /** With liveness fixed a call returns nil exactly when nothing is alive; its `n + 1` increments
      then advance `Current` by one. */
  lemma NilIffNoneAlive(alive: seq<bool>, cur: nat, result: Option<nat>, cur': nat)
    requires cur < |alive| && IsPick(|alive|, cur, Fixed(alive, cur), result, cur')
    ensures result.None? <==> forall p :: 0 <= p < |alive| ==> !alive[p]
    ensures result.None? ==> cur' == (cur + 1) % |alive|
  {
    var n := |alive|;
    if result.None? {
      ModShift(cur + 1, n);
      forall p | 0 <= p < n ensures !alive[p] {
        PosSteps(cur, Distance(n, cur, p), n);
        assert !Fixed(alive, cur)(Distance(n, cur, p));
      }
    }
  }

  /** The turn of the entry that comes next from `cur`. */
  function Turn(alive: seq<bool>, cur: nat): nat
    requires cur <= |alive| && Below(alive, |alive|) > 0
  {
    Below(alive, cur) % Below(alive, |alive|)
  }

  /** The alive position found `k` steps from `cur` is the one whose turn it is. */
  lemma FoundInTurn(alive: seq<bool>, cur: nat, k: nat)
    requires cur < |alive| && k < |alive| && PickedAt(|alive|, cur, Fixed(alive, cur), k)
    ensures var p := Pos(cur, k, |alive|);
            alive[p] && Below(alive, p) < Below(alive, |alive|) && Turn(alive, cur) == Below(alive, p)
  {
    var n, p := |alive|, Pos(cur, k, |alive|);
    PosSteps(cur, k, n);
    assert Fixed(alive, cur)(k);
    AliveAt(alive, n, p);
    SkippedAreDead(alive, cur, k);
    if cur + k < n {
      NoneBetween(alive, cur, p);
      DivModUnique(Below(alive, p), Below(alive, n), 0, Below(alive, p));
    } else {
      NoneBetween(alive, cur, n);
      NoneBetween(alive, 0, p);
      DivModUnique(Below(alive, n), Below(alive, n), 1, 0);
    }
  }

  /** After position `p` was returned, `Current` is where the next turn begins. */
  lemma NextTurn(alive: seq<bool>, cur: nat, k: nat)
    requires cur < |alive| && k < |alive| && alive[Pos(cur, k, |alive|)]
    requires Below(alive, Pos(cur, k, |alive|)) < Below(alive, |alive|)
    ensures Turn(alive, Pos(cur, k + 1, |alive|)) == (Below(alive, Pos(cur, k, |alive|)) + 1) % Below(alive, |alive|)
  {
    var n, p := |alive|, Pos(cur, k, |alive|);
    PosSteps(cur, k, n);
    assert Pos(cur, k + 1, n) == if p + 1 < n then p + 1 else 0;
    assert Below(alive, p + 1) == Below(alive, p) + 1;
    DivModUnique(0, Below(alive, n), 0, 0);
    DivModUnique(Below(alive, n), Below(alive, n), 1, 0);
  }

  lemma FirstReadWins(alive: seq<bool>, cur: nat, k: nat)
    requires cur < |alive| && PickedAt(|alive|, cur, Fixed(alive, cur), k)
    ensures k < |alive|
  {
    var n := |alive|;
    PosSteps(cur, 0, n);
    PosSteps(cur, n, n);
    assert Fixed(alive, cur)(0) == Fixed(alive, cur)(n);
  }

  lemma SomeAlive(alive: seq<bool>)
    requires Below(alive, |alive|) > 0
    ensures exists p :: 0 <= p < |alive| && alive[p]
  {
    if forall p :: 0 <= p < |alive| ==> !alive[p] {
      NoneBetween(alive, 0, |alive|);
    }
  }

  /** With liveness fixed a call returns the first alive position cyclically from `Current`. */
  lemma PickIsFirstAlive(alive: seq<bool>, cur: nat, result: Option<nat>, cur': nat)
    requires cur < |alive| && IsPick(|alive|, cur, Fixed(alive, cur), result, cur')
    requires Below(alive, |alive|) > 0
    ensures result == Some(AlivePositions(alive)[Turn(alive, cur)])
    ensures cur' < |alive| && Turn(alive, cur') == (Turn(alive, cur) + 1) % Below(alive, |alive|)
  {
    var n := |alive|;
    SomeAlive(alive);
    NilIffNoneAlive(alive, cur, result, cur');
    var k := WhichRead(n, cur, Fixed(alive, cur), result, cur');
    FirstReadWins(alive, cur, k);
    FoundInTurn(alive, cur, k);
    AliveAt(alive, n, Pos(cur, k, n));
    NextTurn(alive, cur, k);
  }

  lemma SkippedAreDead(alive: seq<bool>, cur: nat, k: nat)
    requires cur < |alive| && k < |alive| && PickedAt(|alive|, cur, Fixed(alive, cur), k)
    ensures forall i :: cur <= i < cur + k && i < |alive| ==> !alive[i]
    ensures forall i :: 0 <= i < cur + k - |alive| ==> !alive[i]
  {
    var n := |alive|;
    forall i | cur <= i < cur + k && i < n ensures !alive[i] {
      PosSteps(cur, i - cur, n);
      assert !Fixed(alive, cur)(i - cur);
    }
    forall i | 0 <= i < cur + k - n ensures !alive[i] {
      PosSteps(cur, i + n - cur, n);
      assert !Fixed(alive, cur)(i + n - cur);
    }
  }

  /** Consecutive calls while no liveness changes. */
  ghost predicate AreFixedPicks(alive: seq<bool>, curs: seq<nat>, picks: seq<Option<nat>>) {
    && |curs| == |picks| + 1
    && curs[0] < |alive|
    && forall i :: 0 <= i < |picks| ==> IsPick(|alive|, curs[i], Fixed(alive, curs[i]), picks[i], curs[i + 1])
  }

  /** Closed form: the `i`-th call returns the alive position whose turn is `i` after the first. */
  lemma {:induction false} CyclicOrder(alive: seq<bool>, curs: seq<nat>, picks: seq<Option<nat>>, i: nat)
    requires AreFixedPicks(alive, curs, picks) && Below(alive, |alive|) > 0 && i <= |picks|
    ensures var m := Below(alive, |alive|);
      && curs[i] < |alive|
      && Turn(alive, curs[i]) == (Turn(alive, curs[0]) + i) % m
      && (i < |picks| ==> picks[i] == Some(AlivePositions(alive)[(Turn(alive, curs[0]) + i) % m]))
  {
    var m, t := Below(alive, |alive|), Turn(alive, curs[0]);
    if i == 0 {
      DivModUnique(t, m, 0, t);
    } else {
      CyclicOrder(alive, curs, picks, i - 1);
      PickIsFirstAlive(alive, curs[i - 1], picks[i - 1], curs[i]);
      ModSuccessor(t + i - 1, m);
    }
    if i < |picks| {
      PickIsFirstAlive(alive, curs[i], picks[i], curs[i + 1]);
    }
  }

  lemma ModSuccessor(x: nat, m: nat)
    requires m > 0
    ensures (x + 1) % m == (x % m + 1) % m
    ensures (x + 1) % m == if x % m == m - 1 then 0 else x % m + 1
    ensures (x + 1) / m == if x % m == m - 1 then x / m + 1 else x / m
  {
    var q, r := x / m, x % m;
    assert x == q * m + r;
    if r == m - 1 {
      assert x + 1 == (q + 1) * m;
      DivModUnique(x + 1, m, q + 1, 0);
      DivModUnique(r + 1, m, 1, 0);
    } else {
      DivModUnique(x + 1, m, q, r + 1);
      DivModUnique(r + 1, m, 0, r + 1);
    }
  }

  /** How many of the numbers below `x` are congruent to `r` modulo `m`. */
  function Congruent(m: nat, r: nat, x: nat): nat
    requires m > 0
  {
    if x == 0 then 0 else Congruent(m, r, x - 1) + if (x - 1) % m == r then 1 else 0
  }

  lemma {:induction false} CongruentClosed(m: nat, r: nat, x: nat)
    requires r < m
    ensures Congruent(m, r, x) == x / m + if x % m > r then 1 else 0
  {
    if x > 0 {
      CongruentClosed(m, r, x - 1);
      ModSuccessor(x - 1, m);
    } else {
      DivModUnique(0, m, 0, 0);
    }
  }

  /** How often position `p` was returned by the first `calls` calls. */
  function Served(picks: seq<Option<nat>>, p: nat, calls: nat): nat
    requires calls <= |picks|
  {
    if calls == 0 then 0 else Served(picks, p, calls - 1) + if picks[calls - 1] == Some(p) then 1 else 0
  }

  lemma {:induction false} ServedIsCongruent(alive: seq<bool>, curs: seq<nat>, picks: seq<Option<nat>>,
                                             r: nat, calls: nat)
    requires AreFixedPicks(alive, curs, picks) && calls <= |picks| && r < Below(alive, |alive|)
    ensures var m, t := Below(alive, |alive|), Turn(alive, curs[0]);
            Served(picks, AlivePositions(alive)[r], calls) == Congruent(m, r, t + calls) - Congruent(m, r, t)
  {
    if calls > 0 {
      ServedIsCongruent(alive, curs, picks, r, calls - 1);
      CyclicOrder(alive, curs, picks, calls - 1);
    }
  }

  /** Over any number of calls the counts of two alive positions differ by at most one. */
  lemma Fairness(alive: seq<bool>, curs: seq<nat>, picks: seq<Option<nat>>, p: nat, q: nat)
    requires AreFixedPicks(alive, curs, picks) && p < |alive| && q < |alive| && alive[p] && alive[q]
    ensures Served(picks, p, |picks|) <= Served(picks, q, |picks|) + 1
  {
    AliveAt(alive, |alive|, p);
    AliveAt(alive, |alive|, q);
    var m, t, c := Below(alive, |alive|), Turn(alive, curs[0]), |picks|;
    ServedIsCongruent(alive, curs, picks, Below(alive, p), c);
    ServedIsCongruent(alive, curs, picks, Below(alive, q), c);
    CongruentClosed(m, Below(alive, p), t + c);
    CongruentClosed(m, Below(alive, q), t + c);
    CongruentClosed(m, Below(alive, p), t);
    CongruentClosed(m, Below(alive, q), t);
    DivModUnique(t, m, 0, t);
  }

  lemma OneFullTurn(m: nat, r: nat, t: nat)
    requires r < m && t < m
    ensures Congruent(m, r, t + m) == Congruent(m, r, t) + 1
  {
    CongruentClosed(m, r, t + m);
    CongruentClosed(m, r, t);
    ModShift(t, m);
  }

  /** Any `m` consecutive calls, `m` being the number of alive positions, return each exactly once. */
  lemma ExactlyOncePerRound(alive: seq<bool>, curs: seq<nat>, picks: seq<Option<nat>>, p: nat)
    requires AreFixedPicks(alive, curs, picks) && p < |alive| && alive[p]
    requires |picks| == Below(alive, |alive|)
    ensures Served(picks, p, |picks|) == 1
  {
    AliveAt(alive, |alive|, p);
    var m, t, r := Below(alive, |alive|), Turn(alive, curs[0]), Below(alive, p);
    ServedIsCongruent(alive, curs, picks, r, m);
    OneFullTurn(m, r, t);
  }
}
