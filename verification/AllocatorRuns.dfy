/** The page allocator as a state machine: free runs and live blocks
    (system/kernel/Allocator.c). A live block is a run whose first page is its
    header page; the remaining pages are the caller's. */
module AllocatorRuns {
  import opened PageRuns

  datatype State = State(total: nat, free: seq<Run>, live: set<Run>)

  ghost predicate LiveHas(live: set<Run>, p: int) {
    exists r :: r in live && r.Has(p)
  }

  /** Canonical free list, and free runs and live blocks partition the page indices. */
  ghost predicate Inv(s: State) {
    && Canonical(s.free)
    && (forall r :: r in s.live ==> Apart(s.free, r))
    && (forall r, q :: r in s.live && q in s.live && r != q ==> r.End() <= q.start || q.End() <= r.start)
    && (forall p: int :: Covers(s.free, p) || LiveHas(s.live, p) <==> 0 <= p < s.total)
  }

  function Initial(total: nat): State { State(total, [Run(0, total)], {}) }

  function Allocated(s: State, n: nat, k: nat): State
    requires k < |s.free| && n <= s.free[k].len
  {
    State(s.total, Carve(s.free, k, n), s.live + {Run(s.free[k].start, n)})
  }

  function Freed(s: State, r: Run): State {
    State(s.total, Release(s.free, r), s.live - {r})
  }

  /** One page index has no address: a split whose remainder starts there cannot be written. */
  predicate SplitAddressable(s: State, n: nat, k: nat)
    requires k < |s.free|
  {
    s.free[k].len == n || s.free[k].start + n + 1 < s.total
  }

  /** A split fails exactly when its remainder is the single page with the last index. */
  lemma SplitFailsOnlyAtTop(s: State, n: nat, k: nat)
    requires Inv(s) && k < |s.free| && 0 < n <= s.free[k].len
    ensures !SplitAddressable(s, n, k)
       <==> s.free[k].len == n + 1 && s.free[k].End() == s.total
  {
    var last := s.free[k].End() - 1;
    assert s.free[k].Has(last);
    assert Covers(s.free, last);
  }

  /** It happens: a first request, header page included, for all pages but the last. */
  lemma FirstSplitCanFail(total: nat)
    requires total > 2
    ensures var s := Initial(total); BestFit(s.free, total - 1, 0) && !SplitAddressable(s, total - 1, 0)
  {
  }

  ghost predicate AllocStep(s: State, s': State) {
    exists n: nat, k: nat ::
      n > 0 && BestFit(s.free, n, k) && SplitAddressable(s, n, k) && s' == Allocated(s, n, k)
  }

  ghost predicate FreeStep(s: State, s': State) {
    exists r :: r in s.live && s' == Freed(s, r)
  }

  /** A run of the allocator: any sequence of calls after initialization. */
  ghost predicate IsRun(total: nat, t: seq<State>) {
    && t != [] && t[0] == Initial(total)
    && forall i :: 0 <= i < |t| - 1 ==> AllocStep(t[i], t[i + 1]) || FreeStep(t[i], t[i + 1])
  }

  lemma InitialInv(total: nat)
    requires total > 0
    ensures Inv(Initial(total))
  {
    var f := [Run(0, total)];
    forall p: int ensures Covers(f, p) <==> 0 <= p < total {
      if 0 <= p < total { assert f[0].Has(p); }
    }
  }

  /** A block apart from the free list does not overlap the front of a free run. */
  lemma NoOverlap(f: seq<Run>, k: nat, n: nat, r: Run)
    requires Apart(f, r) && k < |f| && 0 < n <= f[k].len
    ensures r.End() <= f[k].start || f[k].start + n <= r.start
  {
    var p := if r.start < f[k].start then f[k].start else r.start;
    assert f[k].Has(p) ==> Covers(f, p);
    assert r.Has(p) ==> !Covers(f, p);
  }

  lemma AllocatedInv(s: State, n: nat, k: nat)
    requires Inv(s) && k < |s.free| && 0 < n <= s.free[k].len
    ensures Inv(Allocated(s, n, k))
    ensures Run(s.free[k].start, n) !in s.live
  {
    var b := Run(s.free[k].start, n);
    var s' := Allocated(s, n, k);
    CarveCanonical(s.free, k, n);
    CarvePages(s.free, k, n);
    forall p: int | b.Has(p) ensures Covers(s.free, p) { assert s.free[k].Has(p); }
    assert b.Has(b.start);
    forall r | r in s.live ensures r.End() <= b.start || b.End() <= r.start {
      NoOverlap(s.free, k, n, r);
    }
    forall p: int ensures LiveHas(s'.live, p) <==> LiveHas(s.live, p) || b.Has(p) {
      if b.Has(p) { assert b in s'.live; }
      if LiveHas(s.live, p) {
        var r :| r in s.live && r.Has(p);
        assert r in s'.live;
      }
    }
  }

  lemma FreedInv(s: State, r: Run)
    requires Inv(s) && r in s.live
    ensures Inv(Freed(s, r))
  {
    var s' := Freed(s, r);
    ReleaseCanonical(s.free, r);
    ReleasePages(s.free, r);
    forall p: int ensures LiveHas(s'.live, p) <==> LiveHas(s.live, p) && !r.Has(p) {
      if LiveHas(s'.live, p) {
        var q :| q in s'.live && q.Has(p);
        assert q in s.live && q.Has(p);
      }
      if LiveHas(s.live, p) && !r.Has(p) {
        var q :| q in s.live && q.Has(p);
        assert q in s'.live;
      }
    }
    forall p: int | r.Has(p) ensures LiveHas(s.live, p) { assert r in s.live; }
    forall q, p: int | q in s'.live && q.Has(p) ensures !Covers(s'.free, p) {
      assert Apart(s.free, q);
    }
  }

  /** Every state of every run keeps the free list canonical and the partition exact. */
  lemma {:induction false} RunInv(total: nat, t: seq<State>, i: nat)
    requires total > 0 && IsRun(total, t) && i < |t|
    ensures Inv(t[i]) && t[i].total == total
  {
    if i == 0 {
      InitialInv(total);
    } else {
      RunInv(total, t, i - 1);
      var s, s' := t[i - 1], t[i];
      assert AllocStep(t[i - 1], t[i - 1 + 1]) || FreeStep(t[i - 1], t[i - 1 + 1]);
      if AllocStep(s, s') {
        var n: nat, k: nat :| n > 0 && BestFit(s.free, n, k) && SplitAddressable(s, n, k) && s' == Allocated(s, n, k);
        AllocatedInv(s, n, k);
      } else {
        var r :| r in s.live && s' == Freed(s, r);
        FreedInv(s, r);
      }
    }
  }

  /** Two states with the same live blocks have the same free list, run for run. */
  lemma LiveDeterminesFree(s: State, q: State)
    requires Inv(s) && Inv(q) && s.total == q.total && s.live == q.live
    ensures s == q
  {
    forall p: int ensures Covers(s.free, p) <==> Covers(q.free, p) {
      PartitionAt(s, p);
      PartitionAt(q, p);
    }
    CanonicalUnique(s.free, q.free);
  }

  /** Each page index is free or live, never both. */
  lemma PartitionAt(s: State, p: int)
    requires Inv(s)
    ensures Covers(s.free, p) <==> 0 <= p < s.total && !LiveHas(s.live, p)
  {
    if LiveHas(s.live, p) {
      var r :| r in s.live && r.Has(p);
      assert Apart(s.free, r);
    }
  }

  /** Freeing what was just allocated restores the previous state, split or not. */
  lemma AllocateThenFree(s: State, n: nat, k: nat)
    requires Inv(s) && k < |s.free| && 0 < n <= s.free[k].len
    ensures Freed(Allocated(s, n, k), Run(s.free[k].start, n)) == s
  {
    var b := Run(s.free[k].start, n);
    var s1 := Allocated(s, n, k);
    AllocatedInv(s, n, k);
    FreedInv(s1, b);
    assert Freed(s1, b).live == s.live;
    LiveDeterminesFree(Freed(s1, b), s);
  }

  /** The order of two frees does not matter. */
  lemma FreesCommute(s: State, a: Run, b: Run)
    requires Inv(s) && a in s.live && b in s.live && a != b
    ensures Freed(Freed(s, a), b) == Freed(Freed(s, b), a)
  {
    FreedInv(s, a);
    FreedInv(s, b);
    FreedInv(Freed(s, a), b);
    FreedInv(Freed(s, b), a);
    LiveDeterminesFree(Freed(Freed(s, a), b), Freed(Freed(s, b), a));
  }

  function FreedAll(s: State, order: seq<Run>): State
    decreases |order|
  {
    if order == [] then s else FreedAll(Freed(s, order[0]), order[1..])
  }

  ghost predicate Lists(order: seq<Run>, live: set<Run>) {
    && (forall r :: r in live <==> r in order)
    && (forall i, j :: 0 <= i < j < |order| ==> order[i] != order[j])
  }

  /** Freeing all live blocks, in any order, gives back the one initial run. */
  lemma {:induction false} FreeAllInAnyOrder(s: State, order: seq<Run>)
    requires Inv(s) && s.total > 0 && Lists(order, s.live)
    ensures FreedAll(s, order) == Initial(s.total)
    decreases |order|
  {
    if order == [] {
      InitialInv(s.total);
      LiveDeterminesFree(s, Initial(s.total));
    } else {
      var s' := Freed(s, order[0]);
      FreedInv(s, order[0]);
      forall r ensures r in s'.live <==> r in order[1..] {
        if r in s'.live {
          var i :| 0 <= i < |order| && order[i] == r;
          assert order[1..][i - 1] == r;
        }
      }
      FreeAllInAnyOrder(s', order[1..]);
    }
  }

  /** What a wrapped request does: run k is cut to length zero, and no block becomes live. */
  function Emptied(s: State, k: nat): State
    requires k < |s.free|
  {
    State(s.total, s.free[k := Run(s.free[k].start, 0)], s.live)
  }

  /** A request of 2^64 - 1 pages wraps to zero pages and breaks the invariant in every state. */
  lemma ZeroLengthRunBreaksInv(s: State, k: nat)
    requires Inv(s) && k < |s.free|
    ensures !Inv(Emptied(s, k))
  {
    assert Emptied(s, k).free[k].len == 0;
  }
}
