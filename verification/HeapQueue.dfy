/** The binary heap of Python's `heapq`, in an array that grows: `(expires, nonce)` pairs compared
    lexicographically. Positions: the parent of `i` is `(i - 1) / 2`. */
module HeapQueue {
  import opened Text

  datatype Item = Item(expires: int, nonce: string)

  /** Python's `<` on the pairs. */
  predicate Less(x: Item, y: Item) {
    x.expires < y.expires || (x.expires == y.expires && StringLess(x.nonce, y.nonce))
  }

  predicate AtMost(x: Item, y: Item) {
    !Less(y, x)
  }

  lemma LessIsAtMost(x: Item, y: Item)
    requires Less(x, y)
    ensures AtMost(x, y)
  {
    StringOrderTotal(x.nonce, y.nonce);
  }

  lemma AtMostTransitive(x: Item, y: Item, z: Item)
    requires AtMost(x, y) && AtMost(y, z)
    ensures AtMost(x, z)
  {
    if x.expires == y.expires == z.expires {
      StringOrderTransitive(x.nonce, y.nonce, z.nonce);
    }
  }

  function Parent(i: nat): nat {
    if i == 0 then 0 else (i - 1) / 2
  }

  /** The item at `i` is no smaller than its parent. */
  predicate Ordered(s: seq<Item>, i: nat)
    requires i < |s|
  {
    AtMost(s[Parent(i)], s[i])
  }

  predicate IsHeap(s: seq<Item>) {
    forall i :: 0 < i < |s| ==> Ordered(s, i)
  }

  lemma {:induction false} RootIsLeast(s: seq<Item>, i: nat)
    requires IsHeap(s) && i < |s|
    ensures AtMost(s[0], s[i])
  {
    hide Less, AtMost;
    if i == 0 {
      AtMostReflexive(s[0]);
    } else {
      RootIsLeast(s, Parent(i));
      assert Ordered(s, i);
      AtMostTransitive(s[0], s[Parent(i)], s[i]);
    }
  }

  lemma AtMostReflexive(x: Item)
    ensures AtMost(x, x)
  {
    StringOrderTotal(x.nonce, x.nonce);
  }

  // ---------- holes ----------

  /** `s` is a heap except at the hole `p`, whose children are no smaller than its parent. */
  ghost predicate HeapButFor(s: seq<Item>, p: nat) {
    && p < |s|
    && (forall i :: 0 < i < |s| && i != p && Parent(i) != p ==> Ordered(s, i))
    && (forall c :: 0 < c < |s| && c != p && Parent(c) == p && p > 0 ==> AtMost(s[Parent(p)], s[c]))
  }

  /** `x` in the hole would be no larger than the hole's children. */
  ghost predicate FitsAbove(s: seq<Item>, p: nat, x: Item) {
    forall c :: 0 < c < |s| && c != p && Parent(c) == p ==> AtMost(x, s[c])
  }

  /** Moving the parent down into the hole moves the hole up. */
  lemma RaiseHole(s: seq<Item>, p: nat, x: Item)
    requires HeapButFor(s, p) && FitsAbove(s, p, x) && p > 0 && Less(x, s[Parent(p)])
    ensures HeapButFor(s[p := s[Parent(p)]], Parent(p)) && FitsAbove(s[p := s[Parent(p)]], Parent(p), x)
  {
    hide Less, AtMost;
    var q := Parent(p);
    var t := s[p := s[q]];
    LessIsAtMost(x, s[q]);
    if q > 0 {
      assert Ordered(s, q);
    }
    forall i | 0 < i < |t| && i != q && Parent(i) != q
      ensures Ordered(t, i)
    {
      if Parent(i) != p {
        assert Ordered(s, i);
      }
    }
    forall c | 0 < c < |t| && c != q && Parent(c) == q
      ensures AtMost(x, t[c]) && (q > 0 ==> AtMost(t[Parent(q)], t[c]))
    {
      if c != p {
        assert Ordered(s, c);
        AtMostTransitive(x, s[q], s[c]);
        if q > 0 {
          AtMostTransitive(s[Parent(q)], s[q], s[c]);
        }
      }
    }
  }

  lemma FillHole(s: seq<Item>, p: nat, x: Item)
    requires HeapButFor(s, p) && FitsAbove(s, p, x) && (p > 0 ==> AtMost(s[Parent(p)], x))
    ensures IsHeap(s[p := x])
  {
    hide Less, AtMost;
    var t := s[p := x];
    forall i | 0 < i < |t|
      ensures Ordered(t, i)
    {
      if i != p && Parent(i) != p {
        assert Ordered(s, i);
      }
    }
  }

  /** Moving the smaller child up into the hole moves the hole down. */
  lemma LowerHole(s: seq<Item>, p: nat, c: nat)
    requires HeapButFor(s, p) && 0 < c < |s| && Parent(c) == p && c != p
    requires forall d :: 0 < d < |s| && d != p && Parent(d) == p ==> AtMost(s[c], s[d])
    ensures HeapButFor(s[p := s[c]], c)
  {
    hide Less, AtMost;
    var t := s[p := s[c]];
    forall i | 0 < i < |t| && i != c && Parent(i) != c
      ensures Ordered(t, i)
    {
      if i != p && Parent(i) != p {
        assert Ordered(s, i);
      }
    }
    forall d | 0 < d < |t| && d != c && Parent(d) == c
      ensures AtMost(t[Parent(c)], t[d])
    {
      assert Ordered(s, d);
    }
  }

  lemma MoveHole(s: seq<Item>, p: nat, q: nat, x: Item)
    requires p < |s| && q < |s| && p != q
    ensures multiset(s[p := s[q]][q := x]) == multiset(s[p := x])
  {
    assert multiset(s[p := s[q]]) == multiset(s) - multiset{s[p]} + multiset{s[q]};
    assert multiset(s[p := x]) == multiset(s) - multiset{s[p]} + multiset{x};
  }

  // ---------- levels ----------

  /** The level of a position: 0 for the root, one more for each step down. */
  function Level(i: nat): nat {
    if i == 0 then 0 else 1 + Level(Parent(i))
  }

  /** `Level(i)` is the binary logarithm of `i + 1`, rounded down. */
  lemma {:induction false} LevelIsLog(i: nat)
    ensures Pow2(Level(i)) <= i + 1 < 2 * Pow2(Level(i))
  {
    if i > 0 {
      LevelIsLog(Parent(i));
    }
  }

  lemma {:induction false} LevelMonotone(i: nat, j: nat)
    requires i <= j
    ensures Level(i) <= Level(j)
  {
    if i > 0 {
      LevelMonotone(Parent(i), Parent(j));
    }
  }

  // ---------- the queue ----------

  class Queue {
    var a: array<Item>
    var n: nat

    ghost predicate Valid()
      reads this, a
    {
      n <= a.Length && IsHeap(a[..n])
    }

    ghost function Items(): seq<Item>
      reads this, a
      requires n <= a.Length
    {
      a[..n]
    }

    constructor ()
      ensures Valid() && n == 0 && fresh(a)
    {
      a, n := new Item[0], 0;
    }

    /** `heap[i] = x`. */
    method Put(i: nat, x: Item)
      requires i < n <= a.Length
      modifies a
      ensures a[..n] == old(a[..n])[i := x]
    {
      a[i] := x;
    }

    /** `_siftdown(heap, 0, p)`: the item at `p` rises to its place. */
    method SiftDown(p: nat) returns (ghost moves: nat)
      requires p < n <= a.Length && HeapButFor(a[..n], p) && FitsAbove(a[..n], p, a[p])
      modifies a
      ensures IsHeap(a[..n]) && multiset(a[..n]) == multiset(old(a[..n]))
      ensures moves <= Level(p)
    {
      hide IsHeap, HeapButFor, FitsAbove, Less, AtMost;
      var x, pos := a[p], p;
      ghost var start := a[..n];
      moves := 0;
      assert start[pos := x] == start;
      while pos > 0
        invariant pos < n && HeapButFor(a[..n], pos) && FitsAbove(a[..n], pos, x)
        invariant multiset(a[..n][pos := x]) == multiset(start)
        invariant moves + Level(pos) == Level(p)
      {
        var parent := (pos - 1) / 2;
        if AtMost(a[parent], x) {
          break;
        }
        MoveHole(a[..n], pos, parent, x);
        NotAtMostIsLess(a[parent], x);
        RaiseHole(a[..n], pos, x);
        Put(pos, a[parent]);
        pos, moves := parent, moves + 1;
      }
      FillHole(a[..n], pos, x);
      Put(pos, x);
    }

    /** `_siftup(heap, 0)`: the hole at the root falls to a leaf along smaller children, and the item
        that was at the root rises from there. */
    method SiftUp() returns (ghost down: nat, ghost up: nat)
      requires 0 < n <= a.Length && HeapButFor(a[..n], 0)
      modifies a
      ensures IsHeap(a[..n]) && multiset(a[..n]) == multiset(old(a[..n]))
      ensures down <= Level(n - 1) && up <= down
    {
      hide *;
      var x, pos, child := a[0], 0, 1;
      down := 0;
      FallBegins(a[..n]);
      while child < n
        invariant pos < n && child == 2 * pos + 1 && Falling(a[..n], pos, x, old(a[..n]), down)
        decreases n - pos
      {
        var right := child + 1;
        if right < n && !Less(a[child], a[right]) {
          child := right;
        }
        HoleFalls(a[..n], pos, child, x, old(a[..n]), down);
        Put(pos, a[child]);
        pos, down := child, down + 1;
        child := 2 * pos + 1;
      }
      FallEnds(a[..n], pos, x, old(a[..n]), down);
      Put(pos, x);
      up := SiftDown(pos);
    }

    /** Makes room as a Python list does. */
    method Grow()
      requires n <= a.Length
      modifies this`a
      ensures fresh(a) && n < a.Length && a[..n] == old(a[..n])
    {
      var b := new Item[2 * n + 1];
      forall i | 0 <= i < n {
        b[i] := a[i];
      }
      a := b;
    }

    /** `heappush`. */
    method Push(x: Item) returns (ghost moves: nat)
      requires Valid()
      modifies this, a
      ensures Valid() && n == old(n) + 1 && (a == old(a) || fresh(a))
      ensures multiset(Items()) == multiset(old(Items())) + multiset{x}
      ensures moves <= Level(n - 1)
    {
      hide IsHeap, HeapButFor, FitsAbove, Less, AtMost;
      ghost var s := a[..n];
      if n == a.Length {
        Grow();
      }
      a[n] := x;
      n := n + 1;
      assert a[..n] == s + [x];
      LastHole(s, x);
      moves := SiftDown(n - 1);
    }

    /** `heappop`. */
    method Pop() returns (x: Item, ghost down: nat, ghost up: nat)
      requires Valid() && n > 0
      modifies this, a
      ensures Valid() && a == old(a) && n == old(n) - 1
      ensures x == old(a[0])
      ensures multiset(old(Items())) == multiset(Items()) + multiset{x}
      ensures up <= down <= Level(old(n) - 1)
    {
      hide IsHeap, HeapButFor, FitsAbove, Less, AtMost;
      ghost var s := a[..n];
      n := n - 1;
      x := a[n];
      down, up := 0, 0;
      if n > 0 {
        var last := x;
        x := a[0];
        a[0] := last;
        assert a[..n] == s[..n][0 := last];
        RootHole(s, n, last);
        LastToRoot(s, n);
        LevelMonotone(n - 1, n);
        down, up := SiftUp();
      } else {
        assert s == [x];
        ShortHeap(a[..n]);
      }
    }
  }

  lemma NotAtMostIsLess(x: Item, y: Item)
    requires !AtMost(x, y)
    ensures Less(y, x)
  {
  }

  lemma SmallerChild(s: seq<Item>, p: nat, c: nat)
    requires p < |s| && c < |s| && (c == 2 * p + 1 || c == 2 * p + 2)
    requires c == 2 * p + 1 ==> (c + 1 < |s| ==> Less(s[c], s[c + 1]))
    requires c == 2 * p + 2 ==> !Less(s[c - 1], s[c])
    ensures Parent(c) == p && Level(c) == Level(p) + 1
    ensures forall d :: 0 < d < |s| && d != p && Parent(d) == p ==> AtMost(s[c], s[d])
  {
    forall d | 0 < d < |s| && d != p && Parent(d) == p
      ensures AtMost(s[c], s[d])
    {
      if d == c {
        AtMostReflexive(s[c]);
      } else if d == c + 1 {
        LessIsAtMost(s[c], s[d]);
      }
    }
  }

  /** The hole has fallen from the root to `p` in `down` steps; with `x` in it the items are those of
      `start`. */
  ghost predicate Falling(s: seq<Item>, p: nat, x: Item, start: seq<Item>, down: nat) {
    && HeapButFor(s, p) && multiset(s[p := x]) == multiset(start)
    && down == Level(p)
  }

  lemma HoleInRange(s: seq<Item>, p: nat)
    requires HeapButFor(s, p)
    ensures p < |s|
  {
  }

  lemma FallBegins(s: seq<Item>)
    requires s != [] && HeapButFor(s, 0)
    ensures Falling(s, 0, s[0], s, 0)
  {
    assert s[0 := s[0]] == s;
  }

  lemma HoleFalls(s: seq<Item>, p: nat, c: nat, x: Item, start: seq<Item>, down: nat)
    requires Falling(s, p, x, start, down) && c < |s| && (c == 2 * p + 1 || c == 2 * p + 2)
    requires c == 2 * p + 1 ==> (c + 1 < |s| ==> Less(s[c], s[c + 1]))
    requires c == 2 * p + 2 ==> !Less(s[c - 1], s[c])
    ensures p < |s| && Falling(s[p := s[c]], c, x, start, down + 1)
  {
    hide Less, AtMost;
    SmallerChild(s, p, c);
    MoveHole(s, p, c, x);
    LowerHole(s, p, c);
  }

  /** At a leaf the item can be put back; it fits, and may have to rise. */
  lemma FallEnds(s: seq<Item>, p: nat, x: Item, start: seq<Item>, down: nat)
    requires Falling(s, p, x, start, down) && 2 * p + 1 >= |s|
    ensures p < |s| && HeapButFor(s[p := x], p) && FitsAbove(s[p := x], p, x)
    ensures multiset(s[p := x]) == multiset(start) && down == Level(p) <= Level(|s| - 1)
  {
    hide HeapButFor, FitsAbove, Level;
    HoleInRange(s, p);
    LeafHole(s, p, x);
    LevelMonotone(p, |s| - 1);
  }

  lemma LeafHole(s: seq<Item>, p: nat, x: Item)
    requires HeapButFor(s, p) && 2 * p + 1 >= |s|
    ensures HeapButFor(s[p := x], p) && FitsAbove(s[p := x], p, x)
  {
    hide Less, AtMost;
    var t := s[p := x];
    forall i | 0 < i < |t| && i != p && Parent(i) != p
      ensures Ordered(t, i)
    {
      assert Ordered(s, i);
    }
  }

  lemma LastHole(s: seq<Item>, x: Item)
    requires IsHeap(s)
    ensures HeapButFor(s + [x], |s|) && FitsAbove(s + [x], |s|, x)
  {
    hide Less, AtMost;
    forall i | 0 < i < |s|
      ensures Ordered(s + [x], i)
    {
      assert Ordered(s, i);
    }
  }

  lemma RootHole(s: seq<Item>, n: nat, x: Item)
    requires IsHeap(s) && 0 < n <= |s|
    ensures HeapButFor(s[..n][0 := x], 0)
  {
    hide Less, AtMost;
    var t := s[..n][0 := x];
    forall i | 0 < i < |t| && Parent(i) != 0
      ensures Ordered(t, i)
    {
      assert Ordered(s, i);
    }
  }

  lemma LastToRoot(s: seq<Item>, n: nat)
    requires 0 < n && |s| == n + 1
    ensures multiset(s) == multiset(s[..n][0 := s[n]]) + multiset{s[0]}
  {
    assert s == s[..n] + [s[n]];
    assert multiset(s[..n][0 := s[n]]) == multiset(s[..n]) - multiset{s[..n][0]} + multiset{s[n]};
  }

  lemma ShortHeap(s: seq<Item>)
    requires |s| <= 1
    ensures IsHeap(s)
  {
  }
}
