/**
 Merging the cubes of a minterm table. The table holds at most 128 cubes of at most 32
 literals; a pass scans all pairs, records merged cubes, and then keeps the unused ones.
 */
module QuineMcCluskey {

  const MAX_IMPLICANTS := 128
  const MAX_LITERALS := 32
  const DASH := -1

  /**
   `lits` as stored, one entry a literal position; only the first `n` positions of a table with `n` variables
   matter.
   */
  datatype Term = Term(lits: seq<int>, dc: bool)

  predicate Wide(t: Term) {
    |t.lits| == MAX_LITERALS
  }

  ghost predicate AllWide(terms: seq<Term>) {
    forall i :: 0 <= i < |terms| ==> Wide(terms[i])
  }

  // ---------------------------------------------------------------- what a table covers

  /** The cube covers the point: each literal is a dash or agrees. */
  ghost predicate Covers(t: Term, n: nat, point: seq<int>)
    requires Wide(t) && n <= MAX_LITERALS && |point| == n
  {
    forall k :: 0 <= k < n ==> t.lits[k] == DASH || t.lits[k] == point[k]
  }

  /** Some cube of the table covers the point. */
  ghost predicate Covered(terms: seq<Term>, n: nat, point: seq<int>)
    requires AllWide(terms) && n <= MAX_LITERALS && |point| == n
  {
    exists i :: 0 <= i < |terms| && Covers(terms[i], n, point)
  }

  /** Some cube that is not a don't-care covers the point. */
  ghost predicate Demanded(terms: seq<Term>, n: nat, point: seq<int>)
    requires AllWide(terms) && n <= MAX_LITERALS && |point| == n
  {
    exists i :: 0 <= i < |terms| && !terms[i].dc && Covers(terms[i], n, point)
  }

  ghost predicate IsPoint(point: seq<int>, n: nat) {
    |point| == n && forall k :: 0 <= k < n ==> point[k] == 0 || point[k] == 1
  }

  /** Every literal is 0, 1 or a dash. */
  ghost predicate Binary(terms: seq<Term>, n: nat)
    requires AllWide(terms) && n <= MAX_LITERALS
  {
    forall i, k :: 0 <= i < |terms| && 0 <= k < n ==> -1 <= terms[i].lits[k] <= 1
  }

  // ---------------------------------------------------------------- merging two cubes

  predicate DashFree(t: Term, n: nat)
    requires n <= |t.lits|
  {
    forall k :: 0 <= k < n ==> t.lits[k] != DASH
  }

  function Differing(a: seq<int>, b: seq<int>, n: nat): nat
    requires n <= |a| && n <= |b|
  {
    if n == 0 then 0 else Differing(a, b, n - 1) + (if a[n - 1] != b[n - 1] then 1 else 0)
  }

  predicate Mergeable(a: Term, b: Term, n: nat)
    requires n <= |a.lits| && n <= |b.lits|
  {
    DashFree(a, n) && DashFree(b, n) && Differing(a.lits, b.lits, n) == 1
  }

  /** Agreeing literals are kept, the others dashed. */
  function Merge(a: Term, b: Term, n: nat): (r: Term)
    requires Wide(a) && Wide(b) && n <= MAX_LITERALS
    ensures Wide(r) && forall k :: n <= k < MAX_LITERALS ==> r.lits[k] == -1
  {
    Term(seq(MAX_LITERALS, k requires 0 <= k < MAX_LITERALS =>
           if k < n && a.lits[k] == b.lits[k] then a.lits[k] else DASH), a.dc && b.dc)
  }

  /** The cube as copied to the next table: positions past the variables are cleared. */
  function Copied(t: Term, n: nat): (r: Term)
    requires Wide(t) && n <= MAX_LITERALS
    ensures Wide(r) && r.lits[..n] == t.lits[..n] && r.dc == t.dc
    ensures forall k :: n <= k < MAX_LITERALS ==> r.lits[k] == -1
  {
    Term(seq(MAX_LITERALS, k requires 0 <= k < MAX_LITERALS => if k < n then t.lits[k] else DASH), t.dc)
  }

  lemma {:induction false} NoDifference(a: seq<int>, b: seq<int>, n: nat)
    requires n <= |a| && n <= |b| && Differing(a, b, n) == 0
    ensures forall k :: 0 <= k < n ==> a[k] == b[k]
  {
    if n > 0 { NoDifference(a, b, n - 1); }
  }

  lemma {:induction false} OneDifference(a: seq<int>, b: seq<int>, n: nat) returns (d: nat)
    requires n <= |a| && n <= |b| && Differing(a, b, n) == 1
    ensures d < n && a[d] != b[d] && forall k :: 0 <= k < n && k != d ==> a[k] == b[k]
    decreases n
  {
    if a[n - 1] != b[n - 1] {
      NoDifference(a, b, n - 1);
      d := n - 1;
    } else {
      d := OneDifference(a, b, n - 1);
    }
  }

  /** Two cubes merge exactly when they have no dash and differ in exactly one literal. */
  lemma {:induction false} MergeableIff(a: Term, b: Term, n: nat)
    requires n <= |a.lits| && n <= |b.lits|
    ensures Mergeable(a, b, n) <==>
              && (forall k :: 0 <= k < n ==> a.lits[k] != -1 && b.lits[k] != -1)
              && exists d :: 0 <= d < n && a.lits[d] != b.lits[d]
                             && forall k :: 0 <= k < n && k != d ==> a.lits[k] == b.lits[k]
  {
    if Differing(a.lits, b.lits, n) == 1 {
      var d := OneDifference(a.lits, b.lits, n);
    }
    if d :| 0 <= d < n && a.lits[d] != b.lits[d] && forall k :: 0 <= k < n && k != d ==> a.lits[k] == b.lits[k] {
      DiffersAt(a.lits, b.lits, n, d);
    }
  }

  lemma {:induction false} DiffersAt(a: seq<int>, b: seq<int>, n: nat, d: nat)
    requires n <= |a| && n <= |b| && d < |a| && d < |b|
    requires forall k :: 0 <= k < n && k != d ==> a[k] == b[k]
    ensures Differing(a, b, n) == if d < n && a[d] != b[d] then 1 else 0
  {
    if n > 0 {
      DiffersAt(a, b, n - 1, d);
    }
  }

  /** On 0/1 literals, a merged cube covers exactly what its two cubes cover. */
  lemma MergeCovers(a: Term, b: Term, n: nat, point: seq<int>)
    requires Wide(a) && Wide(b) && n <= MAX_LITERALS && Mergeable(a, b, n) && IsPoint(point, n)
    requires forall k :: 0 <= k < n ==> -1 <= a.lits[k] <= 1 && -1 <= b.lits[k] <= 1
    ensures Covers(Merge(a, b, n), n, point) <==> Covers(a, n, point) || Covers(b, n, point)
  {
    var d := OneDifference(a.lits, b.lits, n);
    var m := Merge(a, b, n);
    if Covers(m, n, point) {
      var c := if a.lits[d] == point[d] then a else b;
      forall k | 0 <= k < n ensures c.lits[k] == point[k] {
        assert m.lits[k] == DASH || m.lits[k] == point[k];
      }
    }
  }

  predicate IsBit(v: int) {
    v == 0 || v == 1
  }

  /** Where the cubes differ, one has 0 and the other 1. */
  ghost predicate DifferInBits(a: Term, b: Term, n: nat)
    requires Wide(a) && Wide(b) && n <= MAX_LITERALS
  {
    forall k :: 0 <= k < n && a.lits[k] != b.lits[k] ==> IsBit(a.lits[k]) && IsBit(b.lits[k])
  }

  /** Where the cubes agree, some literal is neither 0 nor 1: no point is covered by either, or by the merger. */
  ghost predicate CoversNothing(a: Term, b: Term, n: nat)
    requires Wide(a) && Wide(b) && n <= MAX_LITERALS
  {
    exists k :: 0 <= k < n && a.lits[k] == b.lits[k] && !IsBit(a.lits[k])
  }

  /**
   On any literals, two cubes that are merged cover exactly what the merger covers just when these conditions
   hold.
   */
  lemma {:induction false} MergeIsExactIff(a: Term, b: Term, n: nat)
    requires Wide(a) && Wide(b) && n <= MAX_LITERALS && Mergeable(a, b, n)
    ensures (forall point {:trigger Covers(a, n, point)} :: IsPoint(point, n) ==>
               (Covers(Merge(a, b, n), n, point) <==> Covers(a, n, point) || Covers(b, n, point)))
            <==> DifferInBits(a, b, n) || CoversNothing(a, b, n)
  {
    var d := OneDifference(a.lits, b.lits, n);
    var m := Merge(a, b, n);
    if CoversNothing(a, b, n) {
      var k :| 0 <= k < n && a.lits[k] == b.lits[k] && !IsBit(a.lits[k]);
      assert m.lits[k] == a.lits[k] != DASH;
      forall point | IsPoint(point, n)
        ensures Covers(m, n, point) <==> Covers(a, n, point) || Covers(b, n, point)
      {
        assert IsBit(point[k]);
      }
    } else if DifferInBits(a, b, n) {
      forall point | IsPoint(point, n)
        ensures Covers(m, n, point) <==> Covers(a, n, point) || Covers(b, n, point)
      {
        MergeCovers(a, b, n, point);
      }
    } else {
      var v := if a.lits[d] != 0 && b.lits[d] != 0 then 0 else 1;
      var point := a.lits[..n][d := v];
      assert a.lits[d] != v && b.lits[d] != v;
      assert IsPoint(point, n) && Covers(m, n, point);
      assert !Covers(a, n, point) && !Covers(b, n, point);
    }
  }

  lemma MergeHasDash(a: Term, b: Term, n: nat)
    requires Wide(a) && Wide(b) && n <= MAX_LITERALS && Mergeable(a, b, n)
    ensures !DashFree(Merge(a, b, n), n)
  {
    var d := OneDifference(a.lits, b.lits, n);
    assert Merge(a, b, n).lits[d] == DASH;
  }

  // ---------------------------------------------------------------- one pass, as scanned

  /** Cubes made so far, and which old cubes went into one. */
  datatype Scan = Scan(made: seq<Term>, used: seq<bool>)

  /** Pairs `(i, j)`, `(i, j + 1)`, ... ; the row is left as soon as 128 cubes are made. */
  function RowFrom(terms: seq<Term>, n: nat, i: nat, j: nat, s: Scan): (r: Scan)
    requires AllWide(terms) && AllWide(s.made) && n <= MAX_LITERALS && i < j && i < |terms| == |s.used|
    ensures AllWide(r.made) && |r.used| == |terms| && |s.made| <= |r.made|
    decreases |terms| - j
  {
    if j >= |terms| then s
    else if Mergeable(terms[i], terms[j], n) then
      var next := Scan(s.made + [Merge(terms[i], terms[j], n)], s.used[i := true][j := true]);
      if |next.made| >= MAX_IMPLICANTS then next else RowFrom(terms, n, i, j + 1, next)
    else RowFrom(terms, n, i, j + 1, s)
  }

  function RowsFrom(terms: seq<Term>, n: nat, i: nat, s: Scan): (r: Scan)
    requires AllWide(terms) && AllWide(s.made) && n <= MAX_LITERALS && |terms| == |s.used|
    ensures AllWide(r.made) && |r.used| == |terms| && |s.made| <= |r.made|
    decreases |terms| - i
  {
    if i >= |terms| then s else RowsFrom(terms, n, i + 1, RowFrom(terms, n, i, i + 1, s))
  }

  function Leftover(terms: seq<Term>, n: nat, used: seq<bool>, i: nat, made: seq<Term>): (r: seq<Term>)
    requires AllWide(terms) && AllWide(made) && n <= MAX_LITERALS && |terms| == |used|
    ensures AllWide(r) && |made| <= |r|
    decreases |terms| - i
  {
    if i >= |terms| then made
    else Leftover(terms, n, used, i + 1, if used[i] then made else made + [Copied(terms[i], n)])
  }

  function Unscanned(terms: seq<Term>): Scan {
    Scan([], seq(|terms|, _ => false))
  }

  function Reduced(terms: seq<Term>, n: nat): (r: seq<Term>)
    requires AllWide(terms) && n <= MAX_LITERALS
    ensures AllWide(r)
  {
    if |terms| < 2 then terms
    else
      var s := RowsFrom(terms, n, 0, Unscanned(terms));
      Leftover(terms, n, s.used, 0, s.made)
  }

  /** The pass writes no cube past the end of the new table. */
  predicate Fits(terms: seq<Term>, n: nat)
    requires AllWide(terms) && n <= MAX_LITERALS
  {
    |terms| <= MAX_IMPLICANTS && |Reduced(terms, n)| <= MAX_IMPLICANTS
  }

  // ---------------------------------------------------------------- what a scan has done

  ghost predicate MadeFrom(terms: seq<Term>, n: nat, made: Term, a: nat, b: nat)
    requires AllWide(terms) && n <= MAX_LITERALS
  {
    a < |terms| && b < |terms| && Mergeable(terms[a], terms[b], n) && made == Merge(terms[a], terms[b], n)
  }

  /** Cube `x` of the list is a merger of two used cubes. */
  ghost predicate IsMerger(terms: seq<Term>, n: nat, s: Scan, x: nat)
    requires AllWide(terms) && n <= MAX_LITERALS && |s.used| == |terms|
  {
    x < |s.made| && exists a: nat, b: nat :: MadeFrom(terms, n, s.made[x], a, b) && s.used[a] && s.used[b]
  }

  /** Used cube `a` went into one of the mergers. */
  ghost predicate WentIn(terms: seq<Term>, n: nat, s: Scan, a: nat)
    requires AllWide(terms) && n <= MAX_LITERALS
  {
    exists x: nat, b: nat ::
      x < |s.made| && (MadeFrom(terms, n, s.made[x], a, b) || MadeFrom(terms, n, s.made[x], b, a))
  }

  ghost predicate Sound(terms: seq<Term>, n: nat, s: Scan)
    requires AllWide(terms) && n <= MAX_LITERALS && |s.used| == |terms|
  {
    && (forall x: nat :: x < |s.made| ==> IsMerger(terms, n, s, x))
    && (forall a: nat :: a < |terms| && s.used[a] ==> WentIn(terms, n, s, a))
  }

  /** Scanning from pair `(i, j)` on, no mergeable pair before it was passed over. */
  ghost predicate Thorough(terms: seq<Term>, n: nat, s: Scan, i: nat, j: nat)
    requires AllWide(terms) && n <= MAX_LITERALS && |s.used| == |terms|
  {
    forall a: nat, b: nat {:trigger Mergeable(terms[a], terms[b], n)} ::
      a < b < |terms| && (a < i || (a == i && b < j)) && Mergeable(terms[a], terms[b], n) ==> s.used[a] && s.used[b]
  }

  lemma MergeKeepsSound(terms: seq<Term>, n: nat, s: Scan, i: nat, j: nat)
    requires AllWide(terms) && n <= MAX_LITERALS && |s.used| == |terms| && Sound(terms, n, s)
    requires i < |terms| && j < |terms| && Mergeable(terms[i], terms[j], n)
    ensures Sound(terms, n, Scan(s.made + [Merge(terms[i], terms[j], n)], s.used[i := true][j := true]))
  {
    var m := Merge(terms[i], terms[j], n);
    var next := Scan(s.made + [m], s.used[i := true][j := true]);
    assert MadeFrom(terms, n, m, i, j);
    forall x: nat | x < |next.made| ensures IsMerger(terms, n, next, x) {
      if x < |s.made| {
        assert IsMerger(terms, n, s, x);
        var a: nat, b: nat :| MadeFrom(terms, n, s.made[x], a, b) && s.used[a] && s.used[b];
        assert MadeFrom(terms, n, next.made[x], a, b);
      } else {
        assert MadeFrom(terms, n, next.made[x], i, j);
      }
    }
    forall a: nat | a < |terms| && next.used[a] ensures WentIn(terms, n, next, a) {
      if a == i || a == j {
        assert MadeFrom(terms, n, next.made[|s.made|], i, j);
      } else {
        assert WentIn(terms, n, s, a);
        var x: nat, b: nat :| x < |s.made|
                              && (MadeFrom(terms, n, s.made[x], a, b) || MadeFrom(terms, n, s.made[x], b, a));
        assert next.made[x] == s.made[x];
      }
    }
  }

  lemma {:induction false} RowKeepsSound(terms: seq<Term>, n: nat, i: nat, j: nat, s: Scan)
    requires AllWide(terms) && AllWide(s.made) && n <= MAX_LITERALS && i < j && i < |terms| == |s.used|
    requires Sound(terms, n, s)
    ensures Sound(terms, n, RowFrom(terms, n, i, j, s))
    decreases |terms| - j
  {
    if j < |terms| {
      if Mergeable(terms[i], terms[j], n) {
        MergeKeepsSound(terms, n, s, i, j);
        var next := Scan(s.made + [Merge(terms[i], terms[j], n)], s.used[i := true][j := true]);
        if |next.made| < MAX_IMPLICANTS { RowKeepsSound(terms, n, i, j + 1, next); }
      } else {
        RowKeepsSound(terms, n, i, j + 1, s);
      }
    }
  }

  lemma {:induction false} RowsKeepSound(terms: seq<Term>, n: nat, i: nat, s: Scan)
    requires AllWide(terms) && AllWide(s.made) && n <= MAX_LITERALS && |terms| == |s.used| && Sound(terms, n, s)
    ensures Sound(terms, n, RowsFrom(terms, n, i, s))
    decreases |terms| - i
  {
    if i < |terms| {
      RowKeepsSound(terms, n, i, i + 1, s);
      RowsKeepSound(terms, n, i + 1, RowFrom(terms, n, i, i + 1, s));
    }
  }

  /** A row passes over a mergeable pair only when the table is full. */
  lemma {:induction false} RowIsThorough(terms: seq<Term>, n: nat, i: nat, j: nat, s: Scan)
    requires AllWide(terms) && AllWide(s.made) && n <= MAX_LITERALS && i < j && i < |terms| == |s.used|
    requires Thorough(terms, n, s, i, j)
    ensures var r := RowFrom(terms, n, i, j, s); |r.made| >= MAX_IMPLICANTS || Thorough(terms, n, r, i + 1, 0)
    decreases |terms| - j
  {
    if j < |terms| {
      if Mergeable(terms[i], terms[j], n) {
        var next := Scan(s.made + [Merge(terms[i], terms[j], n)], s.used[i := true][j := true]);
        if |next.made| < MAX_IMPLICANTS { RowIsThorough(terms, n, i, j + 1, next); }
      } else {
        RowIsThorough(terms, n, i, j + 1, s);
      }
    }
  }

  lemma {:induction false} RowsAreThorough(terms: seq<Term>, n: nat, i: nat, s: Scan)
    requires AllWide(terms) && AllWide(s.made) && n <= MAX_LITERALS && |terms| == |s.used|
    requires |s.made| >= MAX_IMPLICANTS || Thorough(terms, n, s, i, 0)
    ensures var r := RowsFrom(terms, n, i, s); |r.made| >= MAX_IMPLICANTS || Thorough(terms, n, r, |terms|, 0)
    decreases |terms| - i
  {
    if i < |terms| {
      if Thorough(terms, n, s, i, 0) {
        assert Thorough(terms, n, s, i, i + 1);
        RowIsThorough(terms, n, i, i + 1, s);
      }
      RowsAreThorough(terms, n, i + 1, RowFrom(terms, n, i, i + 1, s));
    }
  }

  lemma ScanIsSound(terms: seq<Term>, n: nat)
    requires AllWide(terms) && n <= MAX_LITERALS
    ensures Sound(terms, n, RowsFrom(terms, n, 0, Unscanned(terms)))
  {
    RowsKeepSound(terms, n, 0, Unscanned(terms));
  }

  /** What the second part of the pass adds: the mergers stay in front, and each unused cube is there. */
  lemma {:induction false} LeftoverHolds(terms: seq<Term>, n: nat, used: seq<bool>, i: nat, made: seq<Term>, x: nat)
    requires AllWide(terms) && AllWide(made) && n <= MAX_LITERALS && |terms| == |used|
    ensures var r := Leftover(terms, n, used, i, made);
            && made <= r
            && (i <= x < |terms| && !used[x] ==> Copied(terms[x], n) in r)
    decreases |terms| - i
  {
    if i < |terms| {
      var next := if used[i] then made else made + [Copied(terms[i], n)];
      LeftoverHolds(terms, n, used, i + 1, next, x);
      if !used[i] {
        var r := Leftover(terms, n, used, i, made);
        assert r[|made|] == next[|made|];
      }
    }
  }

  lemma {:induction false} LeftoverComesFrom(terms: seq<Term>, n: nat, used: seq<bool>, i: nat, made: seq<Term>, x: nat)
    returns (from: nat)
    requires AllWide(terms) && AllWide(made) && n <= MAX_LITERALS && |terms| == |used|
    requires |made| <= x < |Leftover(terms, n, used, i, made)|
    ensures from < |terms| && !used[from] && Leftover(terms, n, used, i, made)[x] == Copied(terms[from], n)
    decreases |terms| - i
  {
    var next := if used[i] then made else made + [Copied(terms[i], n)];
    if !used[i] && x == |made| {
      from := i;
      LeftoverHolds(terms, n, used, i + 1, next, 0);
    } else {
      from := LeftoverComesFrom(terms, n, used, i + 1, next, x);
    }
  }

  lemma {:induction false} CopiedCovers(t: Term, n: nat, point: seq<int>)
    requires Wide(t) && n <= MAX_LITERALS && |point| == n
    ensures Covers(Copied(t, n), n, point) <==> Covers(t, n, point)
  {
    var c := Copied(t, n);
    assert forall k :: 0 <= k < n ==> c.lits[k] == t.lits[k];
  }

  // ---------------------------------------------------------------- the cover is kept

  /** A cube of the new table covers nothing the old table did not. */
  lemma NothingNew(terms: seq<Term>, n: nat, x: nat, point: seq<int>)
    requires AllWide(terms) && n <= MAX_LITERALS && Binary(terms, n) && IsPoint(point, n)
    requires x < |Reduced(terms, n)| && Covers(Reduced(terms, n)[x], n, point)
    ensures Covered(terms, n, point)
  {
    if |terms| >= 2 {
      var s := RowsFrom(terms, n, 0, Unscanned(terms));
      if x < |s.made| {
        ScanIsSound(terms, n);
        assert IsMerger(terms, n, s, x);
        LeftoverHolds(terms, n, s.used, 0, s.made, 0);
        var a: nat, b: nat :| MadeFrom(terms, n, s.made[x], a, b) && s.used[a] && s.used[b];
        MergeCovers(terms[a], terms[b], n, point);
      } else {
        var from := LeftoverComesFrom(terms, n, s.used, 0, s.made, x);
        CopiedCovers(terms[from], n, point);
      }
    }
  }

  /** Where a cube's points are covered afterwards: by a merger, or by the cube itself. */
  lemma Kept(terms: seq<Term>, n: nat, a: nat, point: seq<int>) returns (x: nat)
    requires AllWide(terms) && n <= MAX_LITERALS && Binary(terms, n) && IsPoint(point, n)
    requires a < |terms| && Covers(terms[a], n, point)
    ensures x < |Reduced(terms, n)| && Covers(Reduced(terms, n)[x], n, point)
    ensures !terms[a].dc ==> !Reduced(terms, n)[x].dc
  {
    x := a;
    if |terms| >= 2 {
      var s := RowsFrom(terms, n, 0, Unscanned(terms));
      LeftoverHolds(terms, n, s.used, 0, s.made, a);
      if s.used[a] {
        ScanIsSound(terms, n);
        assert WentIn(terms, n, s, a);
        var m: nat, b: nat :| m < |s.made|
                              && (MadeFrom(terms, n, s.made[m], a, b) || MadeFrom(terms, n, s.made[m], b, a));
        if MadeFrom(terms, n, s.made[m], a, b) {
          MergeCovers(terms[a], terms[b], n, point);
        } else {
          MergeCovers(terms[b], terms[a], n, point);
        }
        x := m;
      } else {
        CopiedCovers(terms[a], n, point);
        x :| 0 <= x < |Reduced(terms, n)| && Reduced(terms, n)[x] == Copied(terms[a], n);
      }
    }
  }

  /** A pass covers exactly the same points. */
  lemma CoverKept(terms: seq<Term>, n: nat, point: seq<int>)
    requires AllWide(terms) && n <= MAX_LITERALS && Binary(terms, n) && IsPoint(point, n)
    ensures Covered(Reduced(terms, n), n, point) <==> Covered(terms, n, point)
  {
    if Covered(terms, n, point) {
      var a: nat :| a < |terms| && Covers(terms[a], n, point);
      var x := Kept(terms, n, a, point);
    }
    if Covered(Reduced(terms, n), n, point) {
      var x: nat :| x < |Reduced(terms, n)| && Covers(Reduced(terms, n)[x], n, point);
      NothingNew(terms, n, x, point);
    }
  }

  /** The cubes that are not don't-cares cover at least the old on-set and at most the old table. */
  lemma DemandKept(terms: seq<Term>, n: nat, point: seq<int>)
    requires AllWide(terms) && n <= MAX_LITERALS && Binary(terms, n) && IsPoint(point, n)
    ensures Demanded(terms, n, point) ==> Demanded(Reduced(terms, n), n, point)
    ensures Demanded(Reduced(terms, n), n, point) ==> Covered(terms, n, point)
  {
    if Demanded(terms, n, point) {
      var a: nat :| a < |terms| && !terms[a].dc && Covers(terms[a], n, point);
      var x := Kept(terms, n, a, point);
    }
    CoverKept(terms, n, point);
  }

  /** As long as the table does not fill up, every mergeable pair of a row is merged. */
  lemma {:induction false} RowRecords(terms: seq<Term>, n: nat, i: nat, j: nat, s: Scan, r: Scan, b: nat)
    requires AllWide(terms) && AllWide(s.made) && n <= MAX_LITERALS && i < j && i < |terms| == |s.used|
    requires r == RowFrom(terms, n, i, j, s)
    ensures s.made <= r.made
    ensures |r.made| < MAX_IMPLICANTS && j <= b < |terms| && Mergeable(terms[i], terms[b], n) ==>
              Merge(terms[i], terms[b], n) in r.made
    decreases |terms| - j
  {
    if j < |terms| {
      if Mergeable(terms[i], terms[j], n) {
        var next := Scan(s.made + [Merge(terms[i], terms[j], n)], s.used[i := true][j := true]);
        if |next.made| < MAX_IMPLICANTS {
          RowRecords(terms, n, i, j + 1, next, r, b);
          assert r.made[|s.made|] == next.made[|s.made|];
        }
      } else {
        RowRecords(terms, n, i, j + 1, s, r, b);
      }
    }
  }

  lemma {:induction false} RowsRecord(terms: seq<Term>, n: nat, i: nat, s: Scan, r: Scan, a: nat, b: nat)
    requires AllWide(terms) && AllWide(s.made) && n <= MAX_LITERALS && |terms| == |s.used|
    requires r == RowsFrom(terms, n, i, s)
    ensures s.made <= r.made
    ensures |r.made| < MAX_IMPLICANTS && i <= a < b < |terms| && Mergeable(terms[a], terms[b], n) ==>
              Merge(terms[a], terms[b], n) in r.made
    decreases |terms| - i
  {
    if i < |terms| {
      var next := RowFrom(terms, n, i, i + 1, s);
      RowRecords(terms, n, i, i + 1, s, next, b);
      RowsRecord(terms, n, i + 1, next, r, a, b);
    }
  }

  /** A don't-care and a cube that is none merge, and one of them covers the point. */
  ghost predicate DrawnIn(terms: seq<Term>, n: nat, point: seq<int>, a: nat, b: nat)
    requires AllWide(terms) && n <= MAX_LITERALS && |point| == n
  {
    && a < b < |terms| && Mergeable(terms[a], terms[b], n) && terms[a].dc != terms[b].dc
    && (Covers(terms[a], n, point) || Covers(terms[b], n, point))
  }

  /**
   What the cubes that are not don't-cares cover after a pass that does not fill the table: what they covered before,
   and the don't-cares that merge with one of them.
   */
  lemma {:induction false} DemandIs(terms: seq<Term>, n: nat, point: seq<int>)
    requires AllWide(terms) && n <= MAX_LITERALS && Binary(terms, n) && IsPoint(point, n)
    ensures Demanded(Reduced(terms, n), n, point) ==>
              Demanded(terms, n, point) || exists a: nat, b: nat :: DrawnIn(terms, n, point, a, b)
    ensures |Reduced(terms, n)| < MAX_IMPLICANTS ==>
              (Demanded(terms, n, point) || (exists a: nat, b: nat :: DrawnIn(terms, n, point, a, b))
               ==> Demanded(Reduced(terms, n), n, point))
  {
    DemandKept(terms, n, point);
    if Demanded(Reduced(terms, n), n, point) && |terms| >= 2 {
      DemandComesFrom(terms, n, point);
    }
    if a: nat, b: nat :| DrawnIn(terms, n, point, a, b) {
      DrawnInIsDemanded(terms, n, point, a, b);
    }
  }

  lemma {:induction false} DemandComesFrom(terms: seq<Term>, n: nat, point: seq<int>)
    requires AllWide(terms) && n <= MAX_LITERALS && Binary(terms, n) && IsPoint(point, n) && |terms| >= 2
    requires Demanded(Reduced(terms, n), n, point)
    ensures Demanded(terms, n, point) || exists a: nat, b: nat :: DrawnIn(terms, n, point, a, b)
  {
    var x: nat :| x < |Reduced(terms, n)| && !Reduced(terms, n)[x].dc && Covers(Reduced(terms, n)[x], n, point);
    var s := RowsFrom(terms, n, 0, Unscanned(terms));
    LeftoverHolds(terms, n, s.used, 0, s.made, 0);
    if x < |s.made| {
      ScanIsSound(terms, n);
      assert IsMerger(terms, n, s, x);
      var a: nat, b: nat :| MadeFrom(terms, n, s.made[x], a, b) && s.used[a] && s.used[b];
      MergeCovers(terms[a], terms[b], n, point);
      if !Demanded(terms, n, point) {
        InOrder(terms, n, point, a, b);
      }
    } else {
      var from := LeftoverComesFrom(terms, n, s.used, 0, s.made, x);
      CopiedCovers(terms[from], n, point);
    }
  }

  lemma {:induction false} InOrder(terms: seq<Term>, n: nat, point: seq<int>, a: nat, b: nat)
    requires AllWide(terms) && n <= MAX_LITERALS && |point| == n && a < |terms| && b < |terms|
    requires Mergeable(terms[a], terms[b], n) && terms[a].dc != terms[b].dc
    requires Covers(terms[a], n, point) || Covers(terms[b], n, point)
    ensures exists i: nat, j: nat :: DrawnIn(terms, n, point, i, j)
  {
    Symmetric(terms[a].lits, terms[b].lits, n);
    if a < b {
      assert DrawnIn(terms, n, point, a, b);
    } else {
      assert DrawnIn(terms, n, point, b, a);
    }
  }

  lemma {:induction false} DrawnInIsDemanded(terms: seq<Term>, n: nat, point: seq<int>, a: nat, b: nat)
    requires AllWide(terms) && n <= MAX_LITERALS && Binary(terms, n) && IsPoint(point, n) && |terms| >= 2
    requires DrawnIn(terms, n, point, a, b)
    ensures |Reduced(terms, n)| < MAX_IMPLICANTS ==> Demanded(Reduced(terms, n), n, point)
  {
    var s := RowsFrom(terms, n, 0, Unscanned(terms));
    RowsRecord(terms, n, 0, Unscanned(terms), s, a, b);
    LeftoverHolds(terms, n, s.used, 0, s.made, 0);
    if |Reduced(terms, n)| < MAX_IMPLICANTS {
      var x: nat :| x < |s.made| && s.made[x] == Merge(terms[a], terms[b], n);
      MergeCovers(terms[a], terms[b], n, point);
      assert Reduced(terms, n)[x] == s.made[x];
    }
  }

  /** A literal other than 0, 1 and dash may be merged into a cube that covers a point no cube covered. */
  lemma {:induction false} OddLiteralGrowsCover(v: int, rest: seq<int>)
    requires |rest| == MAX_LITERALS - 1 && (v < -1 || v > 1)
    ensures var terms := [Term([0] + rest, false), Term([v] + rest, false)];
            AllWide(terms) && !Covered(terms, 1, [1]) && Covered(Reduced(terms, 1), 1, [1])
  {
    var terms := [Term([0] + rest, false), Term([v] + rest, false)];
    assert Differing(terms[0].lits, terms[1].lits, 1) == Differing(terms[0].lits, terms[1].lits, 0) + 1;
    var m := Merge(terms[0], terms[1], 1);
    var s := Scan([m], Unscanned(terms).used[0 := true][1 := true]);
    assert RowFrom(terms, 1, 0, 1, Unscanned(terms)) == RowFrom(terms, 1, 0, 2, s) == s;
    assert RowsFrom(terms, 1, 1, s) == RowsFrom(terms, 1, 2, s) == s;
    assert RowsFrom(terms, 1, 0, Unscanned(terms)) == s;
    LeftoverHolds(terms, 1, s.used, 0, [m], 0);
    assert Covers(m, 1, [1]);
    assert Reduced(terms, 1)[0] == m;
  }

  /** Every literal is 0, 1, a dash or `v`. */
  ghost predicate LiteralsWith(terms: seq<Term>, n: nat, v: int)
    requires AllWide(terms) && n <= MAX_LITERALS
  {
    forall i, k :: 0 <= i < |terms| && 0 <= k < n ==> -1 <= terms[i].lits[k] <= 1 || terms[i].lits[k] == v
  }

  /** A pass over the table covers the same points as before. */
  ghost predicate SameCover(terms: seq<Term>, n: nat)
    requires AllWide(terms) && n <= MAX_LITERALS
  {
    forall point {:trigger Covered(terms, n, point)} ::
      IsPoint(point, n) ==> (Covered(Reduced(terms, n), n, point) <==> Covered(terms, n, point))
  }

  ghost predicate AlwaysSameCover(v: int) {
    forall terms, n: nat {:trigger SameCover(terms, n)} ::
      AllWide(terms) && n <= MAX_LITERALS && LiteralsWith(terms, n, v) ==> SameCover(terms, n)
  }

  /** Allowing the literal `v` leaves every table's cover alone exactly when it is 0, 1 or the dash itself. */
  lemma {:induction false} AlwaysSameCoverIff(v: int)
    ensures AlwaysSameCover(v) <==> -1 <= v <= 1
  {
    if -1 <= v <= 1 {
      forall terms, n: nat | AllWide(terms) && n <= MAX_LITERALS && LiteralsWith(terms, n, v)
        ensures SameCover(terms, n)
      {
        forall point | IsPoint(point, n)
          ensures Covered(Reduced(terms, n), n, point) <==> Covered(terms, n, point)
        {
          CoverKept(terms, n, point);
        }
      }
    } else {
      var rest := seq(MAX_LITERALS - 1, _ => 0);
      var terms := [Term([0] + rest, false), Term([v] + rest, false)];
      OddLiteralGrowsCover(v, rest);
      var grown := Covered(terms, 1, [1]);
      var same := SameCover(terms, 1);
    }
  }

  // ---------------------------------------------------------------- one pass is enough

  ghost predicate NoPair(terms: seq<Term>, n: nat)
    requires AllWide(terms) && n <= MAX_LITERALS
  {
    forall a: nat, b: nat {:trigger Mergeable(terms[a], terms[b], n)} ::
      a < b < |terms| ==> !Mergeable(terms[a], terms[b], n)
  }

  lemma {:induction false} NothingToScan(terms: seq<Term>, n: nat, i: nat, j: nat, s: Scan)
    requires AllWide(terms) && AllWide(s.made) && n <= MAX_LITERALS && i < j && i < |terms| == |s.used|
    requires NoPair(terms, n)
    ensures RowFrom(terms, n, i, j, s) == s
    decreases |terms| - j
  {
    if j < |terms| { NothingToScan(terms, n, i, j + 1, s); }
  }

  lemma {:induction false} NoRowToScan(terms: seq<Term>, n: nat, i: nat, s: Scan)
    requires AllWide(terms) && AllWide(s.made) && n <= MAX_LITERALS && |terms| == |s.used| && NoPair(terms, n)
    ensures RowsFrom(terms, n, i, s) == s
    decreases |terms| - i
  {
    if i < |terms| {
      NothingToScan(terms, n, i, i + 1, s);
      NoRowToScan(terms, n, i + 1, s);
    }
  }

  lemma {:induction false} AllLeftOver(terms: seq<Term>, n: nat, used: seq<bool>, i: nat)
    requires AllWide(terms) && n <= MAX_LITERALS && |terms| == |used| && i <= |terms|
    requires forall k :: 0 <= k < |terms| ==> !used[k] && Copied(terms[k], n) == terms[k]
    ensures Leftover(terms, n, used, i, terms[..i]) == terms
    decreases |terms| - i
  {
    if i < |terms| {
      assert terms[..i + 1] == terms[..i] + [Copied(terms[i], n)];
      AllLeftOver(terms, n, used, i + 1);
    } else {
      assert terms[..i] == terms;
    }
  }

  /** After a pass that fits, no two cubes can be merged: a merger has a dash, and unused cubes had no partner. */
  lemma NoPairLeft(terms: seq<Term>, n: nat, x: nat, y: nat)
    requires AllWide(terms) && n <= MAX_LITERALS && Fits(terms, n) && |terms| >= 2
    requires x < y < |Reduced(terms, n)|
    ensures !Mergeable(Reduced(terms, n)[x], Reduced(terms, n)[y], n)
  {
    var s := RowsFrom(terms, n, 0, Unscanned(terms));
    var r := Reduced(terms, n);
    ScanIsSound(terms, n);
    LeftoverHolds(terms, n, s.used, 0, s.made, 0);
    if x < |s.made| {
      assert IsMerger(terms, n, s, x);
      var a: nat, b: nat :| MadeFrom(terms, n, s.made[x], a, b) && s.used[a] && s.used[b];
      MergeHasDash(terms[a], terms[b], n);
    } else {
      assert Thorough(terms, n, Unscanned(terms), 0, 0);
      RowsAreThorough(terms, n, 0, Unscanned(terms));
      var a := LeftoverComesFrom(terms, n, s.used, 0, s.made, x);
      var b := LeftoverComesFrom(terms, n, s.used, 0, s.made, y);
      UnusedDoNotMerge(terms, n, s, a, b);
      SameOnVariables(terms[a], terms[b], n);
    }
  }

  lemma UnusedDoNotMerge(terms: seq<Term>, n: nat, s: Scan, a: nat, b: nat)
    requires AllWide(terms) && n <= MAX_LITERALS && |s.used| == |terms| && Thorough(terms, n, s, |terms|, 0)
    requires a < |terms| && b < |terms| && !s.used[a] && !s.used[b]
    ensures !Mergeable(terms[a], terms[b], n)
  {
    if Mergeable(terms[a], terms[b], n) {
      Symmetric(terms[a].lits, terms[b].lits, n);
      if a == b { SelfDiffers(terms[a].lits, n); }
      assert Mergeable(terms[b], terms[a], n);
    }
  }

  lemma {:induction false} Symmetric(a: seq<int>, b: seq<int>, n: nat)
    requires n <= |a| && n <= |b|
    ensures Differing(a, b, n) == Differing(b, a, n)
  {
    if n > 0 { Symmetric(a, b, n - 1); }
  }

  lemma {:induction false} SelfDiffers(a: seq<int>, n: nat)
    requires n <= |a|
    ensures Differing(a, a, n) == 0
  {
    if n > 0 { SelfDiffers(a, n - 1); }
  }

  lemma {:induction false} SameDifferences(a: seq<int>, b: seq<int>, c: seq<int>, d: seq<int>, n: nat)
    requires n <= |a| && n <= |b| && n <= |c| && n <= |d|
    requires forall k :: 0 <= k < n ==> a[k] == c[k] && b[k] == d[k]
    ensures Differing(a, b, n) == Differing(c, d, n)
  {
    if n > 0 { SameDifferences(a, b, c, d, n - 1); }
  }

  lemma SameOnVariables(a: Term, b: Term, n: nat)
    requires Wide(a) && Wide(b) && n <= MAX_LITERALS
    ensures Mergeable(Copied(a, n), Copied(b, n), n) <==> Mergeable(a, b, n)
  {
    var c, d := Copied(a, n), Copied(b, n);
    assert forall k :: 0 <= k < n ==> c.lits[k] == a.lits[k] && d.lits[k] == b.lits[k];
    SameDifferences(a.lits, b.lits, c.lits, d.lits, n);
  }

  lemma Cleared(terms: seq<Term>, n: nat, x: nat)
    requires AllWide(terms) && n <= MAX_LITERALS && |terms| >= 2 && x < |Reduced(terms, n)|
    ensures Copied(Reduced(terms, n)[x], n) == Reduced(terms, n)[x]
  {
    var s := RowsFrom(terms, n, 0, Unscanned(terms));
    if x < |s.made| {
      ScanIsSound(terms, n);
      LeftoverHolds(terms, n, s.used, 0, s.made, 0);
      assert IsMerger(terms, n, s, x);
    } else {
      var a := LeftoverComesFrom(terms, n, s.used, 0, s.made, x);
    }
  }

  /** The pass is idempotent: the loop of up to twenty passes reaches its end after the first. */
  lemma OnePassIsEnough(terms: seq<Term>, n: nat)
    requires AllWide(terms) && n <= MAX_LITERALS && Fits(terms, n)
    ensures Reduced(Reduced(terms, n), n) == Reduced(terms, n)
  {
    var r := Reduced(terms, n);
    if |terms| >= 2 && |r| >= 2 {
      forall x: nat, y: nat | x < y < |r| ensures !Mergeable(r[x], r[y], n) {
        NoPairLeft(terms, n, x, y);
      }
      forall x: nat | x < |r| ensures Copied(r[x], n) == r[x] {
        Cleared(terms, n, x);
      }
      NoRowToScan(r, n, 0, Unscanned(r));
      assert r[..0] == [];
      AllLeftOver(r, n, Unscanned(r).used, 0);
    }
  }

  // ---------------------------------------------------------------- when a pass fits

  /** Every table of at most `t` cubes with literals 0, 1 and dash can be passed over. */
  ghost predicate AlwaysFits(t: nat) {
    forall terms, n: nat {:trigger Fits(terms, n)} ::
      AllWide(terms) && n <= MAX_LITERALS && Binary(terms, n) && |terms| <= t ==> Fits(terms, n)
  }

  /** Whether the number of ones is odd. */
  function Odd(lits: seq<int>, n: nat): bool
    requires n <= |lits|
  {
    n > 0 && (Odd(lits, n - 1) != (lits[n - 1] == 1))
  }

  lemma {:induction false} DifferingIsOdd(a: seq<int>, b: seq<int>, n: nat)
    requires n <= |a| && n <= |b| && forall k :: 0 <= k < n ==> IsBit(a[k]) && IsBit(b[k])
    ensures Differing(a, b, n) % 2 == if Odd(a, n) == Odd(b, n) then 0 else 1
  {
    if n > 0 {
      DifferingIsOdd(a, b, n - 1);
    }
  }

  /** Cubes that merge have different parities. */
  lemma {:induction false} MergeableIsMixed(terms: seq<Term>, n: nat, i: nat, j: nat)
    requires AllWide(terms) && n <= MAX_LITERALS && Binary(terms, n) && i < |terms| && j < |terms|
    ensures Mergeable(terms[i], terms[j], n) ==> Odd(terms[i].lits, n) != Odd(terms[j].lits, n)
  {
    if Mergeable(terms[i], terms[j], n) {
      DifferingIsOdd(terms[i].lits, terms[j].lits, n);
    }
  }

  /** Flagged cubes of this parity from position `i` on. */
  ghost function Flagged(terms: seq<Term>, n: nat, used: seq<bool>, odd: bool, i: nat): nat
    requires AllWide(terms) && n <= MAX_LITERALS && |used| == |terms|
    decreases |terms| - i
  {
    if i >= |terms| then 0
    else Flagged(terms, n, used, odd, i + 1) + (if used[i] && Odd(terms[i].lits, n) == odd then 1 else 0)
  }

  lemma OneMore(a: nat, b: nat)
    ensures (a + 1) * b == a * b + b && a * (b + 1) == a * b + a
  {
  }

  ghost predicate Within(s: seq<bool>, r: seq<bool>) {
    |s| == |r| && forall k :: 0 <= k < |s| && s[k] ==> r[k]
  }

  lemma {:induction false} RowWithin(terms: seq<Term>, n: nat, i: nat, j: nat, s: Scan, r: Scan)
    requires AllWide(terms) && AllWide(s.made) && n <= MAX_LITERALS && i < j && i < |terms| == |s.used|
    requires r == RowFrom(terms, n, i, j, s)
    ensures Within(s.used, r.used)
    decreases |terms| - j
  {
    if j < |terms| && Mergeable(terms[i], terms[j], n) {
      var next := Scan(s.made + [Merge(terms[i], terms[j], n)], s.used[i := true][j := true]);
      if |next.made| < MAX_IMPLICANTS { RowWithin(terms, n, i, j + 1, next, r); }
    } else if j < |terms| {
      RowWithin(terms, n, i, j + 1, s, r);
    }
  }

  lemma {:induction false} RowsWithin(terms: seq<Term>, n: nat, i: nat, s: Scan, r: Scan)
    requires AllWide(terms) && AllWide(s.made) && n <= MAX_LITERALS && |terms| == |s.used|
    requires r == RowsFrom(terms, n, i, s)
    ensures Within(s.used, r.used)
    decreases |terms| - i
  {
    if i < |terms| {
      var next := RowFrom(terms, n, i, i + 1, s);
      RowWithin(terms, n, i, i + 1, s, next);
      RowsWithin(terms, n, i + 1, next, r);
    }
  }

  /** A row makes no more mergers than there are flagged cubes of the other parity behind it. */
  lemma {:induction false} RowMakes(terms: seq<Term>, n: nat, i: nat, j: nat, s: Scan, r: Scan, used: seq<bool>)
    requires AllWide(terms) && AllWide(s.made) && n <= MAX_LITERALS && i < j && i < |terms| == |s.used|
    requires Binary(terms, n) && r == RowFrom(terms, n, i, j, s) && Within(r.used, used)
    ensures |r.made| <= |s.made| + Flagged(terms, n, used, !Odd(terms[i].lits, n), j)
    ensures |r.made| > |s.made| ==> used[i]
    decreases |terms| - j
  {
    if j < |terms| {
      MergeableIsMixed(terms, n, i, j);
      if Mergeable(terms[i], terms[j], n) {
        var next := Scan(s.made + [Merge(terms[i], terms[j], n)], s.used[i := true][j := true]);
        if |next.made| < MAX_IMPLICANTS {
          RowWithin(terms, n, i, j + 1, next, r);
          RowMakes(terms, n, i, j + 1, next, r, used);
        }
        assert r.used[i] && r.used[j];
      } else {
        RowMakes(terms, n, i, j + 1, s, r, used);
      }
    }
  }

  /** All rows together make no more mergers than there are flagged pairs of different parity. */
  lemma {:induction false} RowsMake(terms: seq<Term>, n: nat, i: nat, s: Scan, r: Scan)
    requires AllWide(terms) && AllWide(s.made) && n <= MAX_LITERALS && |terms| == |s.used| && Binary(terms, n)
    requires r == RowsFrom(terms, n, i, s)
    ensures |r.made| <= |s.made| + Flagged(terms, n, r.used, true, i) * Flagged(terms, n, r.used, false, i)
    decreases |terms| - i
  {
    if i < |terms| {
      var next := RowFrom(terms, n, i, i + 1, s);
      RowsWithin(terms, n, i + 1, next, r);
      RowMakes(terms, n, i, i + 1, s, next, r.used);
      RowsMake(terms, n, i + 1, next, r);
      OneMore(Flagged(terms, n, r.used, true, i + 1), Flagged(terms, n, r.used, false, i + 1));
    }
  }

  lemma {:induction false} LeftoverCounts(terms: seq<Term>, n: nat, used: seq<bool>, i: nat, made: seq<Term>)
    requires AllWide(terms) && AllWide(made) && n <= MAX_LITERALS && |terms| == |used| && i <= |terms|
    ensures |Leftover(terms, n, used, i, made)| + Flagged(terms, n, used, true, i) + Flagged(terms, n, used, false, i)
         == |made| + |terms| - i
    decreases |terms| - i
  {
    if i < |terms| {
      LeftoverCounts(terms, n, used, i + 1, if used[i] then made else made + [Copied(terms[i], n)]);
    }
  }

  lemma ProductOfSum(a: nat, b: nat, s: nat)
    requires a + b <= s
    ensures 4 * (a * b) <= s * s
  {
    var d := a - b;
    assert (a + b) * (a + b) == 4 * (a * b) + d * d;
    assert (a + b) * (a + b) <= (a + b) * s <= s * s;
  }

  /** Of at most 22 cubes, no choice of odd and even ones gives too many pairs. */
  lemma PairsOfFew(odds: nat, evens: nat, t: nat)
    requires odds + evens <= t <= 22
    ensures odds * evens + t - odds - evens <= MAX_IMPLICANTS
  {
    if odds > 0 && evens > 0 {
      var a, b := odds - 1, evens - 1;
      ProductOfSum(a, b, 20);
      OneMore(a, b);
      OneMore(a, b + 1);
    }
  }

  lemma {:induction false} FewFit(terms: seq<Term>, n: nat)
    requires AllWide(terms) && n <= MAX_LITERALS && Binary(terms, n) && |terms| <= 22
    ensures Fits(terms, n)
  {
    if |terms| >= 2 {
      var s := RowsFrom(terms, n, 0, Unscanned(terms));
      RowsMake(terms, n, 0, Unscanned(terms), s);
      LeftoverCounts(terms, n, s.used, 0, s.made);
      PairsOfFew(Flagged(terms, n, s.used, true, 0), Flagged(terms, n, s.used, false, 0), |terms|);
    }
  }

  /** Cubes 0, 1, 0, 1, ... of one literal. */
  function Alternating(t: nat): (r: seq<Term>)
    ensures |r| == t && AllWide(r) && Binary(r, 1)
    ensures forall i, j :: 0 <= i < t && 0 <= j < t ==> (Mergeable(r[i], r[j], 1) <==> i % 2 != j % 2)
  {
    var r := seq(t, i requires 0 <= i => Term(seq(MAX_LITERALS, _ => i % 2), false));
    assert forall i, j :: 0 <= i < t && 0 <= j < t ==>
        Differing(r[i].lits, r[j].lits, 1) == Differing(r[i].lits, r[j].lits, 0) + (if i % 2 != j % 2 then 1 else 0);
    r
  }

  /** How many of the cubes from position `j` on cube `i` merges with. */
  function Partners(t: nat, i: nat, j: nat): nat
    decreases t - j
  {
    if j >= t then 0 else Partners(t, i, j + 1) + (if i % 2 != j % 2 then 1 else 0)
  }

  lemma {:induction false} PartnersAreHalf(t: nat, i: nat, j: nat)
    requires j <= t
    ensures Partners(t, i, j) == if i % 2 != j % 2 then (t - j + 1) / 2 else (t - j) / 2
    decreases t - j
  {
    if j < t {
      PartnersAreHalf(t, i, j + 1);
    }
  }

  /** A row merges all partners behind it, or goes on to 128, and beyond when already there. */
  lemma {:induction false} RowGains(t: nat, terms: seq<Term>, i: nat, j: nat, s: Scan, r: Scan)
    requires terms == Alternating(t) && AllWide(s.made) && i < j <= t == |s.used| && r == RowFrom(terms, 1, i, j, s)
    ensures || |r.made| >= |s.made| + Partners(t, i, j)
            || (|r.made| >= MAX_IMPLICANTS && |r.made| > |s.made|)
    decreases t - j
  {
    if j < t {
      if Mergeable(terms[i], terms[j], 1) {
        var next := Scan(s.made + [Merge(terms[i], terms[j], 1)], s.used[i := true][j := true]);
        if |next.made| < MAX_IMPLICANTS { RowGains(t, terms, i, j + 1, next, r); }
      } else {
        RowGains(t, terms, i, j + 1, s, r);
      }
    }
  }

  /** What the last `d` rows gain, when none is cut short. */
  function LastRows(d: nat): nat {
    if d == 0 then 0 else d / 2 + LastRows(d - 1)
  }

  lemma {:induction false} LastRowsValues()
    ensures LastRows(23) == 132 && LastRows(4) == 4
  {
    assert LastRows(8) == 16;
    assert LastRows(16) == 64;
  }

  /** Rows 0 to 18 of the 23 reach 128, and the next ones go on. */
  ghost predicate Overflowing(i: nat, made: nat)
    requires i <= 23
  {
    (i <= 18 && made + LastRows(23 - i) >= 132) || (i <= 21 && made >= 128) || made >= 129
  }

  lemma OverflowingNext(i: nat, made: nat, more: nat)
    requires i < 23 && Overflowing(i, made)
    requires more >= made + Partners(23, i, i + 1) || (more >= 128 && more > made)
    ensures Overflowing(i + 1, more)
  {
    LastRowsValues();
    PartnersAreHalf(23, i, i + 1);
  }

  lemma {:induction false} RowsOverflow(terms: seq<Term>, i: nat, s: Scan, r: Scan)
    requires terms == Alternating(23) && AllWide(s.made) && i <= 23 == |s.used| && r == RowsFrom(terms, 1, i, s)
    requires Overflowing(i, |s.made|)
    ensures |r.made| >= 129
    decreases 23 - i
  {
    if i < 23 {
      var next := RowFrom(terms, 1, i, i + 1, s);
      RowGains(23, terms, i, i + 1, s, next);
      OverflowingNext(i, |s.made|, |next.made|);
      RowsOverflow(terms, i + 1, next, r);
    }
  }

  lemma {:induction false} OverflowDoesNotFit(terms: seq<Term>)
    requires terms == Alternating(23)
    ensures !Fits(terms, 1)
  {
    var s := RowsFrom(terms, 1, 0, Unscanned(terms));
    LastRowsValues();
    RowsOverflow(terms, 0, Unscanned(terms), s);
    assert |Leftover(terms, 1, s.used, 0, s.made)| >= |s.made|;
  }

  /** A table can be passed over, whatever its 0, 1 and dash literals, exactly when it has at most 22 cubes. */
  lemma {:induction false} AlwaysFitsIff(t: nat)
    ensures AlwaysFits(t) <==> t <= 22
  {
    if t <= 22 {
      forall terms, n: nat | AllWide(terms) && n <= MAX_LITERALS && Binary(terms, n) && |terms| <= t
        ensures Fits(terms, n)
      {
        FewFit(terms, n);
      }
    } else {
      OverflowDoesNotFit(Alternating(23));
    }
  }

  // ---------------------------------------------------------------- the code

  class MintermTable {
    var terms: seq<Term>
    const varCount: nat

    ghost predicate Valid() reads this {
      varCount <= MAX_LITERALS && |terms| <= MAX_IMPLICANTS && AllWide(terms)
    }

    constructor (varCount: nat)
      requires varCount <= MAX_LITERALS
      ensures Valid() && terms == [] && this.varCount == varCount
    {
      terms := [];
      this.varCount := varCount;
    }

    /** The first `count` values, and dashes behind them. */
    static function Padded(values: seq<int>): (r: seq<int>)
      ensures |r| == 32
      ensures forall k :: 0 <= k < 32 && k < |values| ==> r[k] == values[k]
      ensures forall k :: |values| <= k < 32 ==> r[k] == -1
    {
      seq(MAX_LITERALS, k requires 0 <= k < MAX_LITERALS => if k < |values| then values[k] else DASH)
    }

    method Add(values: seq<int>)
      requires Valid()
      modifies this
      ensures Valid()
      ensures terms == old(terms) + (if |old(terms)| >= MAX_IMPLICANTS then [] else [Term(Padded(values), false)])
    {
      if |terms| >= MAX_IMPLICANTS {
        return;
      }
      terms := terms + [Term(Padded(values), false)];
    }

    method AddDontCare(values: seq<int>)
      requires Valid()
      modifies this
      ensures Valid()
      ensures terms == old(terms) + (if |old(terms)| >= MAX_IMPLICANTS then [] else [Term(Padded(values), true)])
    {
      if |terms| >= MAX_IMPLICANTS {
        return;
      }
      terms := terms + [Term(Padded(values), true)];
    }

    /** In how many of the first `n` literals the cubes differ, or -1 when a dash is met. */
    static method CountDiffBits(a: Term, b: Term, n: nat) returns (diff: int)
      requires n <= |a.lits| && n <= |b.lits|
      ensures diff == if DashFree(a, n) && DashFree(b, n) then Differing(a.lits, b.lits, n) else -1
    {
      diff := 0;
      var i := 0;
      while i < n
        invariant 0 <= i <= n && DashFree(a, i) && DashFree(b, i) && diff == Differing(a.lits, b.lits, i)
      {
        if a.lits[i] == DASH || b.lits[i] == DASH {
          return -1;
        }
        if a.lits[i] != b.lits[i] {
          diff := diff + 1;
        }
        i := i + 1;
      }
    }

    /** Row `i` of the scan. */
    method ScanRow(i: nat, used: array<bool>, next: array<Term>, count: nat) returns (newCount: nat)
      requires Valid() && i < |terms| == used.Length && next.Length == MAX_IMPLICANTS && count <= next.Length
      requires AllWide(next[..count])
      requires |RowFrom(terms, varCount, i, i + 1, Scan(next[..count], used[..])).made| <= MAX_IMPLICANTS
      modifies used, next
      ensures newCount <= next.Length && AllWide(next[..newCount])
      ensures Scan(next[..newCount], used[..])
           == RowFrom(terms, varCount, i, i + 1, Scan(old(next[..count]), old(used[..])))
    {
      newCount := count;
      ghost var goal := RowFrom(terms, varCount, i, i + 1, Scan(next[..count], used[..]));
      var j := i + 1;
      while j < |terms|
        invariant i < j <= |terms| && newCount <= next.Length && AllWide(next[..newCount])
        invariant RowFrom(terms, varCount, i, j, Scan(next[..newCount], used[..])) == goal
      {
        var diff := CountDiffBits(terms[i], terms[j], varCount);
        if diff == 1 {
          ghost var usedBefore, madeBefore := used[..], next[..newCount];
          var m := Merge(terms[i], terms[j], varCount);
          assert |goal.made| >= newCount + 1;
          used[i] := true;
          used[j] := true;
          next[newCount] := m;
          newCount := newCount + 1;
          assert used[..] == usedBefore[i := true][j := true];
          assert next[..newCount] == madeBefore + [m];
          if newCount >= MAX_IMPLICANTS {
            return;
          }
        }
        j := j + 1;
      }
    }

    /** Copies the unused cubes behind the mergers. */
    method AppendUnused(used: array<bool>, next: array<Term>, count: nat) returns (newCount: nat)
      requires Valid() && |terms| == used.Length && next.Length == MAX_IMPLICANTS && count <= next.Length
      requires AllWide(next[..count]) && |Leftover(terms, varCount, used[..], 0, next[..count])| <= MAX_IMPLICANTS
      modifies next
      ensures newCount <= next.Length
      ensures next[..newCount] == Leftover(terms, varCount, used[..], 0, old(next[..count]))
    {
      newCount := count;
      var i := 0;
      ghost var goal := Leftover(terms, varCount, used[..], 0, next[..count]);
      while i < |terms|
        invariant 0 <= i <= |terms| && newCount <= next.Length && AllWide(next[..newCount])
        invariant Leftover(terms, varCount, used[..], i, next[..newCount]) == goal
      {
        if !used[i] {
          ghost var before := next[..newCount];
          assert |before + [Copied(terms[i], varCount)]| <= |goal|;
          next[newCount] := Copied(terms[i], varCount);
          newCount := newCount + 1;
          assert next[..newCount] == before + [Copied(terms[i], varCount)];
        }
        i := i + 1;
      }
    }

    /** One pass over the table; false when there is nothing to pair. */
    method Reduce() returns (ok: bool)
      requires Valid() && Fits(terms, varCount)
      modifies this
      ensures Valid() && terms == Reduced(old(terms), varCount) && ok == (|old(terms)| >= 2)
    {
      if |terms| < 2 {
        return false;
      }
      var used := new bool[|terms|](_ => false);
      var next := new Term[MAX_IMPLICANTS](_ => Term([], false));
      var count := 0;
      var i := 0;
      ghost var goal := RowsFrom(terms, varCount, 0, Unscanned(terms));
      assert next[..count] == [] && used[..] == Unscanned(terms).used;
      while i < |terms|
        invariant 0 <= i <= |terms| && 0 <= count <= next.Length && AllWide(next[..count]) && terms == old(terms)
        invariant RowsFrom(terms, varCount, i, Scan(next[..count], used[..])) == goal
      {
        count := ScanRow(i, used, next, count);
        i := i + 1;
      }
      count := AppendUnused(used, next, count);
      terms := next[..count];
      return true;
    }

    /** Up to twenty passes over a copy of the table. */
    method Minimize() returns (result: MintermTable, found: bool)
      requires Valid() && Fits(terms, varCount)
      ensures fresh(result) && result.Valid() && result.varCount == varCount
      ensures result.terms == Reduced(terms, varCount) && found == (|result.terms| > 0)
    {
      result := new MintermTable(varCount);
      result.terms := terms;
      var iterations := 0;
      OnePassIsEnough(terms, varCount);
      while |result.terms| > 1 && iterations < 20
        invariant fresh(result) && result.Valid() && result.varCount == varCount
        invariant result.terms == if iterations == 0 then terms else Reduced(terms, varCount)
        invariant 0 <= iterations <= 20
        decreases 20 - iterations
      {
        var ok := result.Reduce();
        if !ok { break; }
        iterations := iterations + 1;
      }
      found := |result.terms| > 0;
    }
  }
}
