/** The replay guard: a dictionary of live nonces whose expired entries are found through a heap.
    It is proved to be the store that rebuilds its whole dictionary on every call. */
module NonceStore {
  import opened HeapQueue

  type Nonces = map<string, int>

  // ---------- the store it refines ----------

  /** The entries that have not expired by `now`. */
  function Live(seen: Nonces, now: int): Nonces {
    map n | n in seen && seen[n] >= now :: seen[n]
  }

  /** The dictionary after one call of the rebuild-everything store. */
  function AfterCall(seen: Nonces, nonce: string, expires: int, now: int): Nonces {
    var live := Live(seen, now);
    if nonce in live then live else live[nonce := expires]
  }

  /** A call succeeds when the nonce is not among the live ones. */
  predicate Fresh(seen: Nonces, nonce: string, now: int) {
    nonce !in Live(seen, now)
  }

  datatype Call = Call(nonce: string, expires: int, now: int)

  function AfterCalls(seen: Nonces, calls: seq<Call>): Nonces {
    if calls == [] then seen
    else
      var n := |calls| - 1;
      AfterCall(AfterCalls(seen, calls[..n]), calls[n].nonce, calls[n].expires, calls[n].now)
  }

  /** What the calls answer. */
  function Answers(seen: Nonces, calls: seq<Call>): (r: seq<bool>)
    ensures |r| == |calls|
  {
    if calls == [] then []
    else
      var n := |calls| - 1;
      Answers(seen, calls[..n]) + [Fresh(AfterCalls(seen, calls[..n]), calls[n].nonce, calls[n].now)]
  }

  lemma {:induction false} AnswerAt(seen: Nonces, calls: seq<Call>, i: nat)
    requires i < |calls|
    ensures Answers(seen, calls)[i] <==> Fresh(AfterCalls(seen, calls[..i]), calls[i].nonce, calls[i].now)
  {
    hide Fresh, AfterCalls;
    var n := |calls| - 1;
    if i < n {
      AnswerAt(seen, calls[..n], i);
      assert calls[..n][..i] == calls[..i] && calls[..n][i] == calls[i];
    }
  }

  /** An entry stays in the dictionary, unchanged, through calls made up to its expiry. */
  lemma {:induction false} EntryKept(seen: Nonces, calls: seq<Call>, i: nat, j: nat, nonce: string, expires: int)
    requires i <= j <= |calls|
    requires nonce in AfterCalls(seen, calls[..i]) && AfterCalls(seen, calls[..i])[nonce] == expires
    requires forall m :: i <= m < j ==> calls[m].now <= expires
    ensures nonce in AfterCalls(seen, calls[..j]) && AfterCalls(seen, calls[..j])[nonce] == expires
    decreases j - i
  {
    if i < j {
      EntryKept(seen, calls, i, j - 1, nonce, expires);
      assert calls[..j][..j - 1] == calls[..j - 1] && calls[..j][j - 1] == calls[j - 1];
    }
  }

  /** The guard on its own: with a clock that does not go back, a nonce taken with expiry e is refused at
      every later call up to e, whatever expiries those calls bring. */
  lemma TakenUntilExpiry(seen: Nonces, calls: seq<Call>, i: nat, j: nat)
    requires i < j < |calls| && calls[j].nonce == calls[i].nonce
    requires forall m, n :: 0 <= m < n < |calls| ==> calls[m].now <= calls[n].now
    requires Answers(seen, calls)[i] && calls[j].now <= calls[i].expires
    ensures !Answers(seen, calls)[j]
  {
    AnswerAt(seen, calls, i);
    AnswerAt(seen, calls, j);
    hide Answers;
    assert calls[..i + 1][..i] == calls[..i] && calls[..i + 1][i] == calls[i];
    assert forall m :: i < m < j ==> calls[m].now <= calls[j].now;
    EntryKept(seen, calls, i + 1, j, calls[i].nonce, calls[i].expires);
  }

  // ---------- dictionary and heap ----------

  ghost function ItemsOf(seen: Nonces): set<Item> {
    set n | n in seen :: Item(seen[n], n)
  }

  /** The heap holds exactly the dictionary's items, each once. */
  ghost predicate Mirrors(items: seq<Item>, seen: Nonces) {
    multiset(items) == multiset(ItemsOf(seen))
  }

  lemma InItems(seen: Nonces, x: Item)
    ensures x in ItemsOf(seen) <==> x.nonce in seen && seen[x.nonce] == x.expires
  {
  }

  lemma RemoveItem(seen: Nonces, n: string)
    requires n in seen
    ensures ItemsOf(seen - {n}) == ItemsOf(seen) - {Item(seen[n], n)}
  {
    forall y
      ensures y in ItemsOf(seen - {n}) <==> y in ItemsOf(seen) - {Item(seen[n], n)}
    {
      InItems(seen - {n}, y);
      InItems(seen, y);
    }
  }

  lemma MirroredItem(items: seq<Item>, seen: Nonces, x: Item)
    requires Mirrors(items, seen)
    ensures x in items <==> x.nonce in seen && seen[x.nonce] == x.expires
  {
    assert x in items <==> x in multiset(items);
    assert x in multiset(ItemsOf(seen)) <==> x in ItemsOf(seen);
  }

  lemma MirrorRemove(before: seq<Item>, after: seq<Item>, x: Item, seen: Nonces)
    requires Mirrors(before, seen) && multiset(before) == multiset(after) + multiset{x}
    ensures x.nonce in seen && seen[x.nonce] == x.expires
    ensures Mirrors(after, seen - {x.nonce})
  {
    assert x in multiset(before);
    MirroredItem(before, seen, x);
    RemoveItem(seen, x.nonce);
    assert multiset(after) == multiset(before) - multiset{x};
    assert multiset(ItemsOf(seen) - {x}) == multiset(ItemsOf(seen)) - multiset{x};
  }

  lemma MirrorAdd(before: seq<Item>, after: seq<Item>, x: Item, seen: Nonces)
    requires Mirrors(before, seen) && multiset(after) == multiset(before) + multiset{x} && x.nonce !in seen
    ensures Mirrors(after, seen[x.nonce := x.expires])
  {
    var more := seen[x.nonce := x.expires];
    forall y
      ensures y in ItemsOf(more) <==> y in ItemsOf(seen) + {x}
    {
      InItems(more, y);
      InItems(seen, y);
    }
    assert ItemsOf(more) == ItemsOf(seen) + {x};
    assert multiset(ItemsOf(seen) + {x}) == multiset(ItemsOf(seen)) + multiset{x};
  }

  /** If the least item of the heap has not expired, nothing has. */
  lemma NothingExpired(items: seq<Item>, seen: Nonces, now: int)
    requires Mirrors(items, seen) && IsHeap(items) && (items != [] ==> items[0].expires >= now)
    ensures forall n :: n in seen ==> seen[n] >= now
  {
    forall n | n in seen
      ensures seen[n] >= now
    {
      var x := Item(seen[n], n);
      MirroredItem(items, seen, x);
      var i :| 0 <= i < |items| && items[i] == x;
      RootIsLeast(items, i);
    }
  }

  lemma MirrorSize(items: seq<Item>, seen: Nonces)
    requires Mirrors(items, seen)
    ensures |items| == |seen|
  {
    SizeOfItems(seen);
    assert |items| == |multiset(items)|;
    assert |multiset(ItemsOf(seen))| == |ItemsOf(seen)|;
  }

  lemma {:induction false} SizeOfItems(seen: Nonces)
    ensures |ItemsOf(seen)| == |seen|
    decreases |seen|
  {
    if seen != map[] {
      var n :| n in seen;
      var fewer := seen - {n};
      assert |fewer| == |seen| - 1 by { assert fewer.Keys == seen.Keys - {n}; }
      SizeOfItems(fewer);
      RemoveItem(seen, n);
    }
  }

  lemma DropExpired(seen: Nonces, n: string, now: int)
    requires n in seen && seen[n] < now
    ensures Live(seen - {n}, now) == Live(seen, now)
  {
  }

  lemma AllLive(seen: Nonces, now: int)
    requires forall n :: n in seen ==> seen[n] >= now
    ensures Live(seen, now) == seen
  {
  }

  // ---------- the store ----------

  class Store {
    var seen: Nonces
    const heap: Queue
    ghost var calls: nat
    ghost var pushes: nat
    ghost var pops: nat

    ghost predicate Valid()
      reads this, heap, heap.a
    {
      && heap.Valid()
      && Mirrors(heap.Items(), seen)
      && pops + heap.n == pushes <= calls
    }

    ghost function Repr(): set<object>
      reads this, heap
    {
      {this, heap, heap.a}
    }

    constructor ()
      ensures Valid() && fresh(Repr()) && seen == map[] && calls == 0
    {
      seen, calls, pushes, pops := map[], 0, 0, 0;
      heap := new Queue();
      new;
      assert heap.Items() == [] && ItemsOf(map[]) == {};
    }

    /** The number of nonces held. */
    method Size() returns (n: nat)
      requires Valid()
      ensures n == |seen| == heap.n
    {
      MirrorSize(heap.Items(), seen);
      n := |seen|;
    }

    /** Lines 53 to 56: pops every expired item and deletes its nonce. */
    method Evict(now: int)
      requires Valid()
      modifies Repr()
      ensures Valid() && heap.a == old(heap.a)
      ensures seen == Live(old(seen), now)
      ensures calls == old(calls) && pushes == old(pushes)
    {
      hide IsHeap, Mirrors, Live;
      ghost var live := Live(seen, now);
      while heap.n > 0 && heap.a[0].expires < now
        invariant Valid() && heap.a == old(heap.a)
        invariant Live(seen, now) == live
        invariant calls == old(calls) && pushes == old(pushes)
        decreases heap.n
      {
        ghost var items := heap.Items();
        var x, _, _ := heap.Pop();
        pops := pops + 1;
        MirrorRemove(items, heap.Items(), x, seen);
        DropExpired(seen, x.nonce, now);
        assert x.nonce in seen && seen[x.nonce] == x.expires;  // so the test below always succeeds
        if x.nonce in seen && seen[x.nonce] == x.expires {
          seen := seen - {x.nonce};
        }
      }
      NothingExpired(heap.Items(), seen, now);
      AllLive(seen, now);
    }

    /** `check_and_add`. Every nonce is pushed at most once and popped at most once. */
    method CheckAndAdd(nonce: string, expires: int, now: int) returns (ok: bool)
      requires Valid()
      modifies Repr()
      ensures Valid() && fresh(Repr() - old(Repr()))
      ensures ok <==> Fresh(old(seen), nonce, now)
      ensures seen == AfterCall(old(seen), nonce, expires, now)
      ensures calls == old(calls) + 1 && pops <= pushes <= calls
      ensures pushes == old(pushes) + (if ok then 1 else 0)
    {
      hide IsHeap, Mirrors, Live;
      Evict(now);
      calls := calls + 1;
      if nonce in seen {
        return false;
      }
      ghost var items := heap.Items();
      ghost var before := seen;
      seen := seen[nonce := expires];
      var _ := heap.Push(Item(expires, nonce));
      pushes := pushes + 1;
      MirrorAdd(items, heap.Items(), Item(expires, nonce), before);
      return true;
    }

    /** For every sequence of calls, whatever the clock does, the answers and the dictionary are
        those of the rebuild-everything store. */
    method Run(script: seq<Call>) returns (answers: seq<bool>)
      requires Valid()
      modifies Repr()
      ensures Valid() && fresh(Repr() - old(Repr()))
      ensures answers == Answers(old(seen), script)
      ensures seen == AfterCalls(old(seen), script)
      ensures calls == old(calls) + |script| && pops <= pushes <= calls
    {
      hide IsHeap, Mirrors, Live, Fresh, AfterCall;
      answers := [];
      for i := 0 to |script|
        invariant Valid() && fresh(Repr() - old(Repr()))
        invariant answers == Answers(old(seen), script[..i]) && seen == AfterCalls(old(seen), script[..i])
        invariant calls == old(calls) + i
      {
        var ok := CheckAndAdd(script[i].nonce, script[i].expires, script[i].now);
        answers := answers + [ok];
        assert script[..i + 1][..i] == script[..i];
      }
      assert script[..|script|] == script;
    }
  }
}
