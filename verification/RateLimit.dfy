/** One bucket of the sliding-window limiter: a deque of admission times. It is proved to answer as a
    limiter that remembers every admission and counts those inside the window. */
module RateLimit {

  /** Pops from the left while the head is older than `cutoff`. */
  function Evict(hits: seq<int>, cutoff: int): seq<int> {
    if hits != [] && hits[0] < cutoff then Evict(hits[1..], cutoff) else hits
  }

  predicate Admit(limit: int, window: int, hits: seq<int>, now: int) {
    |Evict(hits, now - window)| < limit
  }

  /** The deque after a request at `now`. */
  function Serve(limit: int, window: int, hits: seq<int>, now: int): seq<int> {
    var kept := Evict(hits, now - window);
    if |kept| >= limit then kept else kept + [now]
  }

  /** The deque after requests at these times, from an empty one. */
  function HitsAfter(limit: int, window: int, nows: seq<int>): seq<int> {
    if nows == [] then []
    else Serve(limit, window, HitsAfter(limit, window, nows[..|nows| - 1]), nows[|nows| - 1])
  }

  /** Whether the request after `earlier` is admitted. */
  predicate Admitted(limit: int, window: int, earlier: seq<int>, now: int) {
    Admit(limit, window, HitsAfter(limit, window, earlier), now)
  }

  /** The answers to requests at these times. */
  function Answers(limit: int, window: int, nows: seq<int>): (r: seq<bool>)
    ensures |r| == |nows|
  {
    if nows == [] then []
    else
      var n := |nows| - 1;
      Answers(limit, window, nows[..n]) + [Admitted(limit, window, nows[..n], nows[n])]
  }

  /** The times of the admitted requests. */
  function Admissions(limit: int, window: int, nows: seq<int>): seq<int> {
    if nows == [] then []
    else
      var n := |nows| - 1;
      Admissions(limit, window, nows[..n])
      + (if Admitted(limit, window, nows[..n], nows[n]) then [nows[n]] else [])
  }

  predicate Sorted(s: seq<int>) {
    forall i, j :: 0 <= i < j < |s| ==> s[i] <= s[j]
  }

  /** How many of `times` lie in the closed interval from `lo` to `hi`. */
  function CountIn(times: seq<int>, lo: int, hi: int): nat {
    if times == [] then 0
    else CountIn(times[..|times| - 1], lo, hi) + (if lo <= times[|times| - 1] <= hi then 1 else 0)
  }

  // ---------- the deque ----------

  lemma {:induction false} EvictIsSuffix(hits: seq<int>, cutoff: int) returns (k: nat)
    ensures k <= |hits| && Evict(hits, cutoff) == hits[k..]
    ensures forall i :: 0 <= i < k ==> hits[i] < cutoff
    ensures k < |hits| ==> hits[k] >= cutoff
  {
    if hits != [] && hits[0] < cutoff {
      var j := EvictIsSuffix(hits[1..], cutoff);
      k := j + 1;
      assert hits[k..] == hits[1..][j..];
      assert forall i :: 1 <= i < k ==> hits[i] == hits[1..][i - 1];
    } else {
      k := 0;
    }
  }

  /** Where the deque begins among all admissions: everything before is older than the window that
      ends at `now`. */
  ghost predicate Suffix(all: seq<int>, k: nat, hits: seq<int>, cutoff: int) {
    && k <= |all| && hits == all[k..]
    && (forall i :: 0 <= i < k ==> all[i] < cutoff)
  }

  ghost predicate HasSuffix(all: seq<int>, hits: seq<int>, cutoff: int) {
    exists k: nat :: Suffix(all, k, hits, cutoff)
  }

  /** Any `limit + 1` consecutive admissions span more than a window. */
  ghost predicate Spread(limit: int, window: int, all: seq<int>) {
    forall j :: 0 <= j < |all| && 0 <= j - limit < j ==> all[j - limit] < all[j] - window
  }

  /** What holds of the deque and the admissions before a request at `now`. */
  ghost predicate Inv(limit: int, window: int, hits: seq<int>, all: seq<int>, now: int) {
    && HasSuffix(all, hits, now - window)
    && Sorted(all) && (forall i :: 0 <= i < |all| ==> all[i] <= now)
    && Spread(limit, window, all)
    && (limit <= 0 ==> all == [])
    && |hits| <= Cap(limit)
  }

  function Cap(limit: int): nat {
    if limit < 0 then 0 else limit
  }

  /** After evicting at `now` the deque is exactly the admissions of the window, in order. */
  lemma EvictLeavesTheWindow(limit: int, window: int, hits: seq<int>, all: seq<int>, now: int) returns (k: nat)
    requires Inv(limit, window, hits, all, now)
    ensures Suffix(all, k, Evict(hits, now - window), now - window)
    ensures forall i :: k <= i < |all| ==> now - window <= all[i] <= now
    ensures |all| - k == |Evict(hits, now - window)| <= Cap(limit)
  {
    var j: nat :| Suffix(all, j, hits, now - window);
    var e := EvictIsSuffix(hits, now - window);
    k := j + e;
    assert hits[e..] == all[k..];
    assert forall i :: j <= i < k ==> all[i] == hits[i - j];
  }

  lemma ServeKeepsInv(limit: int, window: int, hits: seq<int>, all: seq<int>, now: int)
    requires Inv(limit, window, hits, all, now)
    ensures Inv(limit, window, Serve(limit, window, hits, now),
                if Admit(limit, window, hits, now) then all + [now] else all, now)
  {
    hide Evict;
    var k := EvictLeavesTheWindow(limit, window, hits, all, now);
    if Admit(limit, window, hits, now) {
      var more := all + [now];
      assert forall i :: 0 <= i < |all| ==> more[i] == all[i];
      assert Suffix(more, k, Serve(limit, window, hits, now), now - window);
      assert limit > 0 && |all| - k < limit;
    }
  }

  lemma Later(limit: int, window: int, hits: seq<int>, all: seq<int>, now: int, later: int)
    requires Inv(limit, window, hits, all, now) && now <= later
    ensures Inv(limit, window, hits, all, later)
  {
    var k: nat :| Suffix(all, k, hits, now - window);
    assert Suffix(all, k, hits, later - window);
  }

  lemma {:induction false} InvAlways(limit: int, window: int, nows: seq<int>, now: int)
    requires Sorted(nows) && (nows != [] ==> nows[|nows| - 1] <= now)
    ensures Inv(limit, window, HitsAfter(limit, window, nows), Admissions(limit, window, nows), now)
  {
    hide Inv, Serve, Admit;
    if nows == [] {
      Empty(limit, window, now);
    } else {
      var n := |nows| - 1;
      InvAlways(limit, window, nows[..n], nows[n]);
      var hits, all := HitsAfter(limit, window, nows[..n]), Admissions(limit, window, nows[..n]);
      ServeKeepsInv(limit, window, hits, all, nows[n]);
      var more := if Admit(limit, window, hits, nows[n]) then all + [nows[n]] else all;
      assert Admissions(limit, window, nows) == more;
      Later(limit, window, HitsAfter(limit, window, nows), more, nows[n], now);
    }
  }

  lemma Empty(limit: int, window: int, now: int)
    ensures Inv(limit, window, [], [], now)
  {
    assert Suffix([], 0, [], now - window);
  }

  // ---------- counting ----------

  lemma {:induction false} CountNone(times: seq<int>, lo: int, hi: int)
    requires forall i :: 0 <= i < |times| ==> !(lo <= times[i] <= hi)
    ensures CountIn(times, lo, hi) == 0
  {
    if times != [] {
      CountNone(times[..|times| - 1], lo, hi);
    }
  }

  lemma {:induction false} CountSplit(times: seq<int>, k: nat, lo: int, hi: int)
    requires k <= |times|
    ensures CountIn(times, lo, hi) == CountIn(times[..k], lo, hi) + CountIn(times[k..], lo, hi)
  {
    if k == |times| {
      assert times[..k] == times && times[k..] == [];
    } else {
      var n := |times| - 1;
      CountSplit(times[..n], k, lo, hi);
      assert times[..n][..k] == times[..k] && times[..n][k..] == times[k..][..n - k];
    }
  }

  lemma {:induction false} CountAll(times: seq<int>, lo: int, hi: int)
    requires forall i :: 0 <= i < |times| ==> lo <= times[i] <= hi
    ensures CountIn(times, lo, hi) == |times|
  {
    if times != [] {
      CountAll(times[..|times| - 1], lo, hi);
    }
  }

  lemma {:induction false} CountAtMost(times: seq<int>, lo: int, hi: int)
    ensures CountIn(times, lo, hi) <= |times|
  {
    if times != [] {
      CountAtMost(times[..|times| - 1], lo, hi);
    }
  }

  // ---------- main results ----------

  /** A request is admitted exactly when fewer than `limit` admissions lie in the closed window that
      ends now. */
  lemma AdmittedIffWindowHasRoom(limit: int, window: int, earlier: seq<int>, now: int)
    requires Sorted(earlier + [now])
    ensures Admitted(limit, window, earlier, now)
       <==> CountIn(Admissions(limit, window, earlier), now - window, now) < limit
  {
    hide Admissions, HitsAfter, CountIn;
    InvBefore(limit, window, earlier, now);
    var hits, all := HitsAfter(limit, window, earlier), Admissions(limit, window, earlier);
    var k := EvictLeavesTheWindow(limit, window, hits, all, now);
    CountSplit(all, k, now - window, now);
    CountNone(all[..k], now - window, now);
    CountAll(all[k..], now - window, now);
  }

  lemma InvBefore(limit: int, window: int, earlier: seq<int>, now: int)
    requires Sorted(earlier + [now])
    ensures Inv(limit, window, HitsAfter(limit, window, earlier), Admissions(limit, window, earlier), now)
  {
    hide Admissions, HitsAfter, Inv;
    var all := earlier + [now];
    assert forall i :: 0 <= i < |earlier| ==> earlier[i] == all[i];
    assert all[|earlier|] == now;
    InvAlways(limit, window, earlier, now);
  }

  /** The deque is always sorted and never longer than `limit`. */
  lemma DequeIsSortedAndShort(limit: int, window: int, nows: seq<int>)
    requires Sorted(nows)
    ensures Sorted(HitsAfter(limit, window, nows)) && |HitsAfter(limit, window, nows)| <= Cap(limit)
  {
    hide Admissions, HitsAfter;
    InvAlways(limit, window, nows, if nows == [] then 0 else nows[|nows| - 1]);
  }

  /** No closed interval as long as the window holds more than `limit` admissions. */
  lemma {:induction false} SpreadBoundsEveryWindow(limit: int, window: int, all: seq<int>, lo: int)
    requires Sorted(all) && Spread(limit, window, all) && (limit <= 0 ==> all == [])
    ensures CountIn(all, lo, lo + window) <= Cap(limit)
  {
    if all != [] {
      var n := |all| - 1;
      if lo <= all[n] <= lo + window && n >= limit {
        var k := n + 1 - limit;
        assert all[n - limit] < lo;
        CountSplit(all, k, lo, lo + window);
        CountNone(all[..k], lo, lo + window);
        CountAtMost(all[k..], lo, lo + window);
      } else if lo <= all[n] <= lo + window {
        CountAtMost(all, lo, lo + window);
      } else {
        SpreadBoundsEveryWindow(limit, window, all[..n], lo);
      }
    }
  }

  lemma WindowBound(limit: int, window: int, nows: seq<int>, lo: int)
    requires Sorted(nows)
    ensures CountIn(Admissions(limit, window, nows), lo, lo + window) <= Cap(limit)
  {
    hide Admissions, HitsAfter;
    var now := if nows == [] then 0 else nows[|nows| - 1];
    InvAlways(limit, window, nows, now);
    SpreadBoundsEveryWindow(limit, window, Admissions(limit, window, nows), lo);
  }

  /** One more request. */
  lemma OneMore(limit: int, window: int, nows: seq<int>, now: int)
    ensures HitsAfter(limit, window, nows + [now]) == Serve(limit, window, HitsAfter(limit, window, nows), now)
    ensures Admissions(limit, window, nows + [now])
         == if Admit(limit, window, HitsAfter(limit, window, nows), now) then Admissions(limit, window, nows) + [now]
            else Admissions(limit, window, nows)
  {
    hide Serve, Admit;
    assert (nows + [now])[..|nows|] == nows;
  }

  lemma CountOneMore(times: seq<int>, time: int, lo: int, hi: int)
    ensures CountIn(times + [time], lo, hi) == CountIn(times, lo, hi) + (if lo <= time <= hi then 1 else 0)
  {
    assert (times + [time])[..|times|] == times;
  }

  lemma NothingYet(limit: int, window: int)
    ensures HitsAfter(limit, window, []) == [] && Admissions(limit, window, []) == []
    ensures forall lo, hi :: CountIn([], lo, hi) == 0
  {
  }

  // ---------- clocks that go back ----------

  /** How many of `times` lie in the closed window that begins at `lo`. */
  function HeldFrom(times: seq<int>, lo: int, window: int): nat {
    CountIn(times, lo, lo + window)
  }

  /** The window bound for these request times, in whatever order they come. */
  ghost predicate Bounded(limit: int, window: int, nows: seq<int>) {
    forall lo :: HeldFrom(Admissions(limit, window, nows), lo, window) <= Cap(limit)
  }

  /** The answer to a request is that of counting the admissions in its window. */
  ghost predicate Exact(limit: int, window: int, earlier: seq<int>, now: int) {
    Admitted(limit, window, earlier, now)
    <==> CountIn(Admissions(limit, window, earlier), now - window, now) < limit
  }

  lemma {:induction false} NoneAdmitted(limit: int, window: int, nows: seq<int>)
    requires limit <= 0
    ensures Admissions(limit, window, nows) == []
  {
    if nows != [] {
      NoneAdmitted(limit, window, nows[..|nows| - 1]);
    }
  }

  lemma OneServed(window: int, hits: seq<int>, now: int)
    requires |hits| <= 1
    ensures Admit(1, window, hits, now) <==> hits == [] || hits[0] + window < now
    ensures Serve(1, window, hits, now) == if Admit(1, window, hits, now) then [now] else hits
  {
    if hits != [] {
      assert hits[1..] == [] && Evict(hits[1..], now - window) == [];
    }
  }

  /** With a limit of one the deque is the last admission, and any two admissions are more than a window
      apart, in whatever order the requests come. */
  lemma {:induction false} OneAtATime(window: int, nows: seq<int>)
    requires window >= 0
    ensures var all := Admissions(1, window, nows);
            && HitsAfter(1, window, nows) == (if all == [] then [] else [all[|all| - 1]])
            && forall i, j :: 0 <= i < j < |all| ==> all[i] + window < all[j]
  {
    if nows != [] {
      var n := |nows| - 1;
      OneAtATime(window, nows[..n]);
      var all, hits := Admissions(1, window, nows[..n]), HitsAfter(1, window, nows[..n]);
      OneServed(window, hits, nows[n]);
      hide Serve, Admit;
    }
  }

  lemma {:induction false} FarApart(times: seq<int>, window: int, lo: int)
    requires window >= 0 && forall i, j :: 0 <= i < j < |times| ==> times[i] + window < times[j]
    ensures CountIn(times, lo, lo + window) <= 1
  {
    if times != [] {
      var n := |times| - 1;
      if lo <= times[n] <= lo + window {
        CountNone(times[..n], lo, lo + window);
      } else {
        FarApart(times[..n], window, lo);
      }
    }
  }

  /** `n` times the same. */
  function Same(n: nat, t: int): (s: seq<int>)
    ensures |s| == n && forall i :: 0 <= i < n ==> s[i] == t
  {
    seq(n, _ => t)
  }

  lemma {:induction false} SameAdmitted(limit: int, window: int, n: nat, t: int)
    requires n <= limit && window >= 0
    ensures HitsAfter(limit, window, Same(n, t)) == Same(n, t) && Admissions(limit, window, Same(n, t)) == Same(n, t)
  {
    if n > 0 {
      SameAdmitted(limit, window, n - 1, t);
      assert Same(n, t) == Same(n - 1, t) + [t];
      OneMore(limit, window, Same(n - 1, t), t);
      hide HitsAfter, Admissions;
    } else {
      NothingYet(limit, window);
    }
  }

  lemma {:induction false} EvictAll(hits: seq<int>, cutoff: int)
    requires forall i :: 0 <= i < |hits| ==> hits[i] < cutoff
    ensures Evict(hits, cutoff) == []
  {
    if hits != [] {
      EvictAll(hits[1..], cutoff);
    }
  }

  /** Times that break the bound when the limit is two or more: as many at 0 as the limit allows, one that
      evicts them all, and one back inside their window. */
  lemma BackwardClockBreaksTheBound(limit: int, window: int)
    requires limit >= 2 && window >= 0
    ensures var nows := Same(limit, 0) + [window + 1] + [window];
            CountIn(Admissions(limit, window, nows), 0, window) == limit + 1
  {
    var zeros := Same(limit, 0);
    SameAdmitted(limit, window, limit, 0);
    OneMore(limit, window, zeros, window + 1);
    EvictAll(zeros, 1);
    OneMore(limit, window, zeros + [window + 1], window);
    hide HitsAfter, Admissions;
    assert Admissions(limit, window, zeros + [window + 1]) == zeros + [window + 1];
    assert HitsAfter(limit, window, zeros + [window + 1]) == [window + 1];
    CountAll(zeros, 0, window);
    CountOneMore(zeros, window + 1, 0, window);
    CountOneMore(zeros + [window + 1], window, 0, window);
  }

  /** Exactly when the window bound needs no clock: it holds for every sequence of times, in any order, if and
      only if the limit is at most one. */
  lemma BoundNeedsNoClockIff(limit: int, window: int)
    requires window >= 0
    ensures (forall nows :: Bounded(limit, window, nows)) <==> limit <= 1
  {
    hide Admissions, HitsAfter, CountIn;
    if limit <= 1 {
      forall nows
        ensures Bounded(limit, window, nows)
      {
        BoundedUpToOne(limit, window, nows);
      }
    } else {
      BackwardClockBreaksTheBound(limit, window);
      var nows := Same(limit, 0) + [window + 1] + [window];
      assert HeldFrom(Admissions(limit, window, nows), 0, window) > Cap(limit);
      assert !Bounded(limit, window, nows);
    }
  }

  lemma BoundedUpToOne(limit: int, window: int, nows: seq<int>)
    requires window >= 0 && limit <= 1
    ensures Bounded(limit, window, nows)
  {
    if limit <= 0 {
      NoneAdmitted(limit, window, nows);
      NothingYet(limit, window);
    } else {
      OneAtATime(window, nows);
      hide Admissions, HitsAfter, CountIn;
      forall lo
        ensures HeldFrom(Admissions(limit, window, nows), lo, window) <= Cap(limit)
      {
        FarApart(Admissions(limit, window, nows), window, lo);
      }
    }
  }

  /** With any limit at all a full deque of later times refuses a request whose window is empty. */
  lemma BackwardClockRefusesWithRoom(limit: int, window: int)
    requires limit >= 1 && window >= 0
    ensures !Admitted(limit, window, Same(limit, 1), 0)
    ensures CountIn(Admissions(limit, window, Same(limit, 1)), 0 - window, 0) == 0
  {
    SameAdmitted(limit, window, limit, 1);
    hide HitsAfter, Admissions;
    CountNone(Same(limit, 1), 0 - window, 0);
  }

  /** Exactly when the answers need no clock to be those of counting: if and only if the limit admits
      nothing. */
  lemma ExactWithoutClockIff(limit: int, window: int)
    requires window >= 0
    ensures (forall earlier, now :: Exact(limit, window, earlier, now)) <==> limit <= 0
  {
    hide Admissions, HitsAfter, CountIn;
    if limit <= 0 {
      forall earlier, now
        ensures Exact(limit, window, earlier, now)
      {
      }
    } else {
      BackwardClockRefusesWithRoom(limit, window);
      assert !Exact(limit, window, Same(limit, 1), 0);
    }
  }
}
