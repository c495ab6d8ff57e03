/**
 The router's binary heap. Push is the textbook one. Pop compares the children of the
 hole with the entry that used to be there, so on an ordered heap it never sifts the
 displaced last entry down; it still loses and invents nothing.
 */
module AStarHeap {

  datatype Entry = Entry(node: nat, cost: real)

  function Parent(i: nat): (p: nat)
    requires i > 0
    ensures i == 2 * p + 1 || i == 2 * p + 2
  {
    (i - 1) / 2
  }

  /** Entry `i` costs at least as much as its parent. */
  ghost predicate AboveParent(h: seq<Entry>, i: nat)
    requires 0 < i < |h|
  {
    h[Parent(i)].cost <= h[i].cost
  }

  ghost predicate Ordered(h: seq<Entry>) {
    forall i {:trigger AboveParent(h, i)} :: 0 < i < |h| ==> AboveParent(h, i)
  }

  /** Every entry below hole `i` would still be in order with `cost` put in the hole. */
  ghost predicate OrderedAround(h: seq<Entry>, i: nat, cost: real)
    requires i < |h|
  {
    && (forall k {:trigger AboveParent(h, k)} :: 0 < k < |h| && k != i ==> AboveParent(h, k))
    && (forall k {:trigger AboveParent(h, k)} :: 0 < k < |h| && Parent(k) == i ==> cost <= h[k].cost)
    && (i > 0 ==> forall k {:trigger AboveParent(h, k)} ::
          0 < k < |h| && Parent(k) == i ==> h[Parent(i)].cost <= h[k].cost)
  }

  lemma HoleMovesUp(h: seq<Entry>, i: nat, cost: real)
    requires 0 < i < |h| && OrderedAround(h, i, cost) && cost < h[Parent(i)].cost
    ensures OrderedAround(h[i := h[Parent(i)]], Parent(i), cost)
  {
    var p := Parent(i);
    var t := h[i := h[p]];
    forall k | 0 < k < |t| && k != p ensures AboveParent(t, k) {
      assert AboveParent(h, k) || k == i;
    }
    forall k | 0 < k < |t| && Parent(k) == p ensures cost <= t[k].cost {
      assert AboveParent(h, k) || k == i;
    }
    if p > 0 {
      assert AboveParent(h, p);
      forall k | 0 < k < |t| && Parent(k) == p ensures t[Parent(p)].cost <= t[k].cost {
        assert AboveParent(h, k) || k == i;
      }
    }
  }

  lemma HoleFilled(h: seq<Entry>, i: nat, e: Entry)
    requires i < |h| && OrderedAround(h, i, e.cost) && (i > 0 ==> h[Parent(i)].cost <= e.cost)
    ensures Ordered(h[i := e])
  {
    var t := h[i := e];
    forall k | 0 < k < |t| ensures AboveParent(t, k) {
      assert AboveParent(h, k) || k == i;
    }
  }

  lemma HoleAtEnd(h: seq<Entry>, e: Entry)
    requires Ordered(h)
    ensures OrderedAround(h + [e], |h|, e.cost)
  {
    var t := h + [e];
    forall k | 0 < k < |t| && k != |h| ensures AboveParent(t, k) {
      assert AboveParent(h, k);
    }
    forall k | 0 < k < |t| ensures Parent(k) < |h| { }
  }

  // ---------------------------------------------------------------- the two operations

  /** Entry `e` rises from hole `i` until its parent costs no more. */
  function Bubbled(h: seq<Entry>, i: nat, e: Entry): (r: seq<Entry>)
    requires i < |h|
    ensures |r| == |h|
    decreases i
  {
    if i == 0 || h[Parent(i)].cost <= e.cost then h[i := e]
    else Bubbled(h[i := h[Parent(i)]], Parent(i), e)
  }

  function Pushed(h: seq<Entry>, e: Entry): (r: seq<Entry>)
    ensures |r| == |h| + 1
  {
    Bubbled(h + [e], |h|, e)
  }

  /** The least of entry `i`, which is the one last moved out of it, and its children. */
  function Smallest(h: seq<Entry>, i: nat): (s: nat)
    requires i < |h|
    ensures s < |h| && (s == i || s == 2 * i + 1 || s == 2 * i + 2)
  {
    var l, r := 2 * i + 1, 2 * i + 2;
    var s := if l < |h| && h[l].cost < h[i].cost then l else i;
    if r < |h| && h[r].cost < h[s].cost then r else s
  }

  /** The hole sinks from `i` while a child costs less than what was in it; `last` fills it. */
  function Sifted(h: seq<Entry>, i: nat, last: Entry): (r: seq<Entry>)
    requires i < |h|
    ensures |r| == |h|
    decreases |h| - i
  {
    var s := Smallest(h, i);
    if s == i then h[i := last] else Sifted(h[i := h[s]], s, last)
  }

  function Popped(h: seq<Entry>): (r: seq<Entry>)
    requires h != []
    ensures |r| == |h| - 1
  {
    var n := |h| - 1;
    if n == 0 then [] else Sifted(h[..n], 0, h[n])
  }

  /** An entry that costs no less than the root leaves the root in its place. */
  lemma {:induction false} BubbledRoot(h: seq<Entry>, i: nat, e: Entry)
    requires 0 < i < |h| && h[0].cost <= e.cost
    ensures Bubbled(h, i, e)[0] == h[0]
    decreases i
  {
    if h[Parent(i)].cost > e.cost {
      BubbledRoot(h[i := h[Parent(i)]], Parent(i), e);
    }
  }

  lemma {:induction false} PushedRoot(h: seq<Entry>, e: Entry)
    requires h != [] && h[0].cost <= e.cost
    ensures Pushed(h, e)[0] == h[0]
  {
    BubbledRoot(h + [e], |h|, e);
  }

  /** Three pushes in order of cost are enough to lose the order: after one pop the dearest entry comes out next. */
  lemma {:induction false} OrderIsLost(x: Entry, y: Entry, z: Entry)
    requires x.cost <= y.cost < z.cost
    ensures var h := Pushed(Pushed(Pushed([], x), y), z);
            && h == [x, y, z] && Ordered(h)
            && Popped(h) == [z, y] && !Ordered(Popped(h)) && !LeastOf(Popped(h)[0], Popped(h))
  {
    var one, two := Pushed([], x), Pushed(Pushed([], x), y);
    assert one == [x] && two == [x, y];
    var h := Pushed(two, z);
    assert h == [x, y, z];
    assert Ordered(h) by {
      assert Parent(1) == 0 && Parent(2) == 0;
    }
    assert h[..2] == [x, y] && Smallest([x, y], 0) == 0;
    assert Popped(h) == [z, y];
    assert !AboveParent([z, y], 1);
  }

  /** The heap with the root gone and the last entry put in its place, nothing sifted. */
  function Replaced(h: seq<Entry>): seq<Entry>
    requires h != []
  {
    if |h| == 1 then [] else [h[|h| - 1]] + h[1..|h| - 1]
  }

  lemma {:induction false} SwapKeepsMultiset(s: seq<Entry>, i: nat, j: nat, e: Entry)
    requires i < |s| && j < |s|
    ensures multiset(s[i := e]) == multiset(s[i := s[j]][j := e])
  {
    if i != j {
      var a, b := s[i := e], s[i := s[j]][j := e];
      assert b == a[i := a[j]][j := a[i]];
      assert multiset(a[i := a[j]]) == multiset(a) - multiset{a[i]} + multiset{a[j]};
      assert multiset(b) == multiset(a[i := a[j]]) - multiset{a[j]} + multiset{a[i]};
    }
  }

  lemma ReplacedMultiset(h: seq<Entry>)
    requires h != []
    ensures multiset(Replaced(h)) == multiset(h) - multiset{h[0]}
  {
    if |h| == 1 {
      assert h == [h[0]];
    } else {
      var x, mid, y := h[0], h[1..|h| - 1], h[|h| - 1];
      assert h == [x] + mid + [y];
      LastToFront(x, mid, y);
    }
  }

  lemma ReplacedInPlace(h: seq<Entry>)
    requires |h| > 1
    ensures Replaced(h) == h[..|h| - 1][0 := h[|h| - 1]]
  {
  }

  lemma {:induction false} LastToFront(x: Entry, mid: seq<Entry>, y: Entry)
    ensures multiset([y] + mid) == multiset([x] + mid + [y]) - multiset{x}
  {
    var s := [x] + mid;
    assert multiset(s + [y]) == multiset(s) + multiset([y]);
  }

  // ---------------------------------------------------------------- where entries go

  /** `p` is `n` or one of its ancestors. */
  ghost predicate OnWayUp(p: nat, n: nat) {
    p == n || (n > 0 && OnWayUp(p, Parent(n)))
  }

  lemma {:induction false} WayUpIsBelow(p: nat, n: nat)
    requires OnWayUp(p, n)
    ensures p <= n
  {
    if p != n {
      WayUpIsBelow(p, Parent(n));
    }
  }

  /** The entry ends at `p`, having changed places with just those ancestors of `i` that cost more. */
  ghost predicate Rises(h: seq<Entry>, i: nat, e: Entry, r: seq<Entry>, p: nat)
    requires i < |h| == |r|
  {
    && p <= i && OnWayUp(p, i) && r[p] == e && (p == 0 || h[Parent(p)].cost <= e.cost)
    && (forall j: nat :: j <= i && OnWayUp(j, i) && j > p ==> h[Parent(j)].cost > e.cost)
    && (forall j: nat :: j < |h| && j != p ==>
          r[j] == if j <= i && OnWayUp(j, i) && j > p then h[Parent(j)] else h[j])
  }

  lemma {:induction false} BubbledRises(h: seq<Entry>, i: nat, e: Entry, r: seq<Entry>) returns (p: nat)
    requires i < |h| && r == Bubbled(h, i, e)
    ensures Rises(h, i, e, r, p)
    decreases i
  {
    if i == 0 || h[Parent(i)].cost <= e.cost {
      p := i;
    } else {
      var q := Parent(i);
      p := BubbledRises(h[i := h[q]], q, e, r);
      RisesOver(h, i, e, r, p);
    }
  }

  lemma {:induction false} RisesOver(h: seq<Entry>, i: nat, e: Entry, r: seq<Entry>, p: nat)
    requires 0 < i < |h| == |r| && h[Parent(i)].cost > e.cost && Rises(h[i := h[Parent(i)]], Parent(i), e, r, p)
    ensures Rises(h, i, e, r, p)
  {
    var q, g := Parent(i), h[i := h[Parent(i)]];
    forall j: nat | j < i && OnWayUp(j, i) ensures j <= q && OnWayUp(j, q) {
      WayUpIsBelow(j, q);
    }
    forall j: nat | j <= i && OnWayUp(j, i) && j > p ensures h[Parent(j)].cost > e.cost {
      assert j < i ==> g[Parent(j)].cost > e.cost;
    }
    forall j: nat | j < |h| && j != p
      ensures r[j] == if j <= i && OnWayUp(j, i) && j > p then h[Parent(j)] else h[j]
    {
      assert r[j] == if j <= q && OnWayUp(j, q) && j > p then g[Parent(j)] else g[j];
    }
  }

  /** A pushed entry rises past the ancestors that cost more, and stops below one that costs as much. */
  lemma {:induction false} PushedRises(h: seq<Entry>, e: Entry) returns (p: nat)
    ensures Rises(h + [e], |h|, e, Pushed(h, e), p)
  {
    p := BubbledRises(h + [e], |h|, e, Pushed(h, e));
  }

  /** `s` is the child of `i` that costs least, the left one of two equal ones, and costs less than `i`. */
  predicate Descends(h: seq<Entry>, i: nat, s: nat) {
    && i < s < |h| && h[s].cost < h[i].cost
    && (|| (s == 2 * i + 1 && (2 * i + 2 >= |h| || h[s].cost <= h[2 * i + 2].cost))
        || (s == 2 * i + 2 && h[s].cost < h[2 * i + 1].cost))
  }

  ghost predicate Bottom(h: seq<Entry>, i: nat) {
    forall s: nat :: !Descends(h, i, s)
  }

  ghost predicate MovesUp(h: seq<Entry>, r: seq<Entry>, way: seq<nat>, k: nat)
    requires k + 1 < |way| && forall j :: 0 <= j < |way| ==> way[j] < |h| == |r|
  {
    Descends(h, way[k], way[k + 1]) && r[way[k]] == h[way[k + 1]]
  }

  /**
   Costs are compared along the way down from `i` as they stood before; each entry there moves up by one place, and
   the last leaf ends where no child costs less than what it replaces.
   */
  ghost predicate Sinks(h: seq<Entry>, i: nat, last: Entry, r: seq<Entry>, way: seq<nat>) {
    && |r| == |h| && way != [] && way[0] == i && (forall k :: 0 <= k < |way| ==> i <= way[k] < |h|)
    && (forall k: nat {:trigger MovesUp(h, r, way, k)} :: k + 1 < |way| ==> MovesUp(h, r, way, k))
    && Bottom(h, way[|way| - 1]) && r[way[|way| - 1]] == last
    && (forall j :: 0 <= j < |h| && j !in way ==> r[j] == h[j])
  }

  lemma {:induction false} SmallestDescends(h: seq<Entry>, i: nat)
    requires i < |h|
    ensures Smallest(h, i) != i ==> Descends(h, i, Smallest(h, i))
    ensures Smallest(h, i) == i ==> Bottom(h, i)
  {
  }

  lemma {:induction false} SiftedSinks(h: seq<Entry>, i: nat, last: Entry, r: seq<Entry>) returns (way: seq<nat>)
    requires i < |h| && r == Sifted(h, i, last)
    ensures Sinks(h, i, last, r, way)
    decreases |h| - i
  {
    SmallestDescends(h, i);
    var s := Smallest(h, i);
    if s == i {
      way := [i];
    } else {
      var below := SiftedSinks(h[i := h[s]], s, last, r);
      way := [i] + below;
      SinksFrom(h, i, s, last, r, below);
    }
  }

  lemma {:induction false} SinksFrom(h: seq<Entry>, i: nat, s: nat, last: Entry, r: seq<Entry>, below: seq<nat>)
    requires Descends(h, i, s) && Sinks(h[i := h[s]], s, last, r, below)
    ensures Sinks(h, i, last, r, [i] + below)
  {
    var g, way := h[i := h[s]], [i] + below;
    forall k: nat | k < |below| ensures forall x: nat :: Descends(g, below[k], x) == Descends(h, below[k], x) {
    }
    assert i !in below;
    forall k: nat | k + 1 < |way| ensures MovesUp(h, r, way, k) {
      if k > 0 {
        assert MovesUp(g, r, below, k - 1);
      }
    }
    forall j | 0 <= j < |h| && j !in way ensures r[j] == h[j] {
      assert j !in below && j != i;
    }
  }

  /** A pop of a larger heap sinks the last leaf from the root, comparing costs as they stood. */
  lemma {:induction false} PoppedSinks(h: seq<Entry>) returns (way: seq<nat>)
    requires |h| > 1
    ensures Sinks(h[..|h| - 1], 0, h[|h| - 1], Popped(h), way)
  {
    way := SiftedSinks(h[..|h| - 1], 0, h[|h| - 1], Popped(h));
  }

  // ---------------------------------------------------------------- what they keep

  lemma {:induction false} BubbledHolds(h: seq<Entry>, i: nat, e: Entry)
    requires i < |h|
    ensures multiset(Bubbled(h, i, e)) == multiset(h[i := e])
    decreases i
  {
    if i > 0 && h[Parent(i)].cost > e.cost {
      SwapKeepsMultiset(h, i, Parent(i), e);
      BubbledHolds(h[i := h[Parent(i)]], Parent(i), e);
    }
  }

  /** A push adds its entry to the multiset of entries. */
  lemma {:induction false} PushedHolds(h: seq<Entry>, e: Entry)
    ensures multiset(Pushed(h, e)) == multiset(h) + multiset{e}
  {
    BubbledHolds(h + [e], |h|, e);
    assert (h + [e])[|h| := e] == h + [e];
  }

  lemma {:induction false} BubbledOrdered(h: seq<Entry>, i: nat, e: Entry)
    requires i < |h| && OrderedAround(h, i, e.cost)
    ensures Ordered(Bubbled(h, i, e))
    decreases i
  {
    if i == 0 || h[Parent(i)].cost <= e.cost {
      HoleFilled(h, i, e);
    } else {
      HoleMovesUp(h, i, e.cost);
      BubbledOrdered(h[i := h[Parent(i)]], Parent(i), e);
    }
  }

  /** A push keeps an ordered heap ordered. */
  lemma {:induction false} PushedOrdered(h: seq<Entry>, e: Entry)
    requires Ordered(h)
    ensures Ordered(Pushed(h, e))
  {
    HoleAtEnd(h, e);
    BubbledOrdered(h + [e], |h|, e);
  }

  lemma {:induction false} SiftedHolds(h: seq<Entry>, i: nat, last: Entry)
    requires i < |h|
    ensures multiset(Sifted(h, i, last)) == multiset(h[i := last])
    decreases |h| - i
  {
    var s := Smallest(h, i);
    if s != i {
      SwapKeepsMultiset(h, i, s, last);
      SiftedHolds(h[i := h[s]], s, last);
    }
  }

  /** A pop takes the first entry out of the multiset of entries, and no other. */
  lemma {:induction false} PoppedHolds(h: seq<Entry>)
    requires h != []
    ensures multiset(Popped(h)) == multiset(h) - multiset{h[0]}
  {
    ReplacedMultiset(h);
    if |h| > 1 {
      ReplacedInPlace(h);
      SiftedHolds(h[..|h| - 1], 0, h[|h| - 1]);
    }
  }

  /** On an ordered heap nothing is sifted: the stale root is never above a child. */
  lemma {:induction false} PoppedOrdered(h: seq<Entry>)
    requires h != [] && Ordered(h)
    ensures Popped(h) == Replaced(h)
  {
    if |h| > 1 {
      ReplacedInPlace(h);
      assert |h| > 2 ==> AboveParent(h, 1);
      assert |h| > 3 ==> AboveParent(h, 2);
      assert Smallest(h[..|h| - 1], 0) == 0;
    }
  }

  class Heap {
    var entries: seq<Entry>

    constructor ()
      ensures entries == []
    {
      entries := [];
    }

    method Push(node: nat, cost: real)
      modifies this
      ensures entries == Pushed(old(entries), Entry(node, cost))
      ensures multiset(entries) == multiset(old(entries)) + multiset{Entry(node, cost)}
      ensures Ordered(old(entries)) ==> Ordered(entries)
    {
      ghost var e := Entry(node, cost);
      PushedHolds(entries, e);
      if Ordered(entries) { PushedOrdered(entries, e); }
      var i := |entries|;
      entries := entries + [Entry(node, cost)];
      while i > 0
        invariant 0 <= i < |entries| && Bubbled(entries, i, e) == Pushed(old(entries), e)
      {
        var p := (i - 1) / 2;
        if entries[p].cost <= cost {
          break;
        }
        entries := entries[i := entries[p]];
        i := p;
      }
      entries := entries[i := Entry(node, cost)];
    }

    method Pop() returns (top: nat)
      requires entries != []
      modifies this
      ensures top == old(entries[0]).node && entries == Popped(old(entries))
      ensures multiset(entries) == multiset(old(entries)) - multiset{old(entries[0])}
      ensures Ordered(old(entries)) ==> entries == Replaced(old(entries))
    {
      PoppedHolds(entries);
      if Ordered(entries) { PoppedOrdered(entries); }
      top := entries[0].node;
      var last := entries[|entries| - 1];
      entries := entries[..|entries| - 1];
      var size := |entries|;
      if size == 0 {
        return;
      }
      var i := 0;
      while true
        invariant 0 <= i < size == |entries| && Sifted(entries, i, last) == Popped(old(entries))
        decreases size - i
      {
        var l, r, smallest := 2 * i + 1, 2 * i + 2, i;
        if l < size && entries[l].cost < entries[smallest].cost {
          smallest := l;
        }
        if r < size && entries[r].cost < entries[smallest].cost {
          smallest := r;
        }
        if smallest == i {
          break;
        }
        entries := entries[i := entries[smallest]];
        i := smallest;
      }
      entries := entries[i := last];
    }
  }

  ghost predicate LeastOf(e: Entry, h: seq<Entry>) {
    forall i :: 0 <= i < |h| ==> e.cost <= h[i].cost
  }

  /** On an ordered heap the first entry to come out is a least one. */
  lemma {:induction false} RootIsLeast(h: seq<Entry>, i: nat)
    requires Ordered(h) && i < |h|
    ensures h[0].cost <= h[i].cost
    decreases i
  {
    if i > 0 {
      assert AboveParent(h, i);
      RootIsLeast(h, Parent(i));
    }
  }

  /**
   The entry that comes out after it is a least one of those left exactly when the last
   leaf costs no more than either child of the root; otherwise the order is lost.
   */
  lemma SecondPopIsLeastIff(h: seq<Entry>)
    requires Ordered(h) && |h| >= 2
    ensures LeastOf(Replaced(h)[0], Replaced(h)) <==>
              h[|h| - 1].cost <= h[1].cost && (|h| > 2 ==> h[|h| - 1].cost <= h[2].cost)
    ensures Ordered(Replaced(h)) <==> LeastOf(Replaced(h)[0], Replaced(h))
  {
    var r := Replaced(h);
    var last := h[|h| - 1];
    forall i | 0 < i < |r| ensures r[i] == h[i] { }
    if last.cost <= h[1].cost && (|h| > 2 ==> last.cost <= h[2].cost) {
      forall i: nat | 0 < i < |r| ensures last.cost <= r[i].cost {
        ChildBelow(h, i);
      }
      forall i | 0 < i < |r| ensures AboveParent(r, i) {
        assert AboveParent(h, i);
      }
    } else {
      RootBelow(h);
      var c := if last.cost > h[1].cost then 1 else 2;
      assert c < |r| && r[c].cost < r[0].cost && !AboveParent(r, c);
    }
  }

  /** The last leaf costs at least as much as some child of the root; with two entries it is that child. */
  lemma RootBelow(h: seq<Entry>)
    requires Ordered(h) && |h| >= 2
    ensures |h| == 2 ==> h[|h| - 1].cost <= h[1].cost
    ensures |h| == 3 ==> h[|h| - 1].cost <= h[2].cost
  {
  }

  /** Every entry but the root costs at least as much as one of the root's children. */
  lemma {:induction false} ChildBelow(h: seq<Entry>, i: nat)
    requires Ordered(h) && 0 < i < |h|
    ensures h[1].cost <= h[i].cost || (|h| > 2 && h[2].cost <= h[i].cost)
    decreases i
  {
    if i > 2 {
      assert AboveParent(h, i);
      ChildBelow(h, Parent(i));
    }
  }
}
