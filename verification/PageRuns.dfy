/** Free lists as sequences of page runs, and the allocator as a state machine
    over them (system/kernel/Allocator.c).

    A free list stands for a set of pages. Canonical() says the list is sorted,
    its runs are disjoint and no two neighbours touch; CanonicalUnique() shows
    that such a list is determined by its set of pages, which is what every
    result about freeing order rests on. */
module PageRuns {

  datatype Run = Run(start: nat, len: nat) {
    function End(): nat { start + len }
    predicate Has(p: int) { start <= p < start + len }
  }

  ghost predicate Covers(f: seq<Run>, p: int) {
    exists i :: 0 <= i < |f| && f[i].Has(p)
  }

  ghost predicate Canonical(f: seq<Run>) {
    && (forall i :: 0 <= i < |f| ==> f[i].len > 0)
    && (forall i, j :: 0 <= i < j < |f| ==> f[i].End() < f[j].start)
  }

  ghost predicate SamePages(f: seq<Run>, g: seq<Run>) {
    forall p: int :: Covers(f, p) <==> Covers(g, p)
  }

  lemma CanonicalTail(f: seq<Run>)
    requires Canonical(f) && f != []
    ensures Canonical(f[1..])
    ensures forall p: int :: Covers(f[1..], p) <==> Covers(f, p) && f[0].End() < p
  {
    var t := f[1..];
    forall i, j | 0 <= i < j < |t| ensures t[i].End() < t[j].start {
      assert t[i] == f[i + 1] && t[j] == f[j + 1];
    }
    forall p: int
      ensures Covers(t, p) <==> Covers(f, p) && f[0].End() < p
    {
      if Covers(t, p) {
        var i :| 0 <= i < |t| && t[i].Has(p);
        assert f[i + 1].Has(p);
      }
      if Covers(f, p) && f[0].End() < p {
        var i :| 0 <= i < |f| && f[i].Has(p);
        assert t[i - 1].Has(p);
      }
    }
  }

  lemma FirstRunEdges(f: seq<Run>)
    requires Canonical(f) && f != []
    ensures Covers(f, f[0].start) && !Covers(f, f[0].End())
    ensures forall p: int :: Covers(f, p) ==> f[0].start <= p
    ensures forall p: int :: f[0].Has(p) ==> Covers(f, p)
  {
    assert f[0].Has(f[0].start);
  }

  /** The first run of a canonical list can be read off its set of pages. */
  lemma FirstRun(f: seq<Run>, g: seq<Run>)
    requires Canonical(f) && Canonical(g) && SamePages(f, g) && f != []
    ensures g != [] && g[0] == f[0]
  {
    FirstRunEdges(f);
    assert Covers(g, f[0].start);
    FirstRunEdges(g);
    assert f[0].start == g[0].start;
    assert !g[0].Has(f[0].End());
    assert !f[0].Has(g[0].End());
  }

  /** A maximally coalesced list is determined by the pages it covers. */
  lemma {:induction false} CanonicalUnique(f: seq<Run>, g: seq<Run>)
    requires Canonical(f) && Canonical(g) && SamePages(f, g)
    ensures f == g
  {
    if f == [] {
      if g != [] {
        FirstRun(g, f);
      }
    } else {
      FirstRun(f, g);
      CanonicalTail(f);
      CanonicalTail(g);
      CanonicalUnique(f[1..], g[1..]);
    }
  }

  // ----- Freeing: insertion with coalescing -----

  /** The run is positive and shares no page with the list. */
  ghost predicate Apart(f: seq<Run>, r: Run) {
    && r.len > 0
    && forall p: int :: r.Has(p) ==> !Covers(f, p)
  }

  function Release(f: seq<Run>, r: Run): (g: seq<Run>)
    decreases |f|
  {
    if f == [] then [r]
    else if f[0].End() < r.start then [f[0]] + Release(f[1..], r)
    else if f[0].End() == r.start then Release(f[1..], Run(f[0].start, f[0].len + r.len))
    else if r.End() == f[0].start then [Run(r.start, r.len + f[0].len)] + f[1..]
    else [r] + f
  }

  lemma ApartSides(f: seq<Run>, r: Run)
    requires Canonical(f) && f != [] && Apart(f, r)
    ensures f[0].End() <= r.start || r.End() <= f[0].start
  {
    if r.start < f[0].End() && f[0].start < r.End() {
      var p := if r.start < f[0].start then f[0].start else r.start;
      assert f[0].Has(p) && r.Has(p);
    }
  }

  lemma CoversCons(a: Run, f: seq<Run>)
    ensures forall p: int :: Covers([a] + f, p) <==> a.Has(p) || Covers(f, p)
  {
    var g := [a] + f;
    forall p: int
      ensures Covers(g, p) <==> a.Has(p) || Covers(f, p)
    {
      if a.Has(p) { assert g[0].Has(p); }
      if Covers(f, p) {
        var i :| 0 <= i < |f| && f[i].Has(p);
        assert g[i + 1].Has(p);
      }
      if Covers(g, p) {
        var i :| 0 <= i < |g| && g[i].Has(p);
        if i > 0 { assert f[i - 1].Has(p); }
      }
    }
  }

  lemma CanonicalCons(a: Run, f: seq<Run>)
    requires Canonical(f) && a.len > 0
    requires f != [] ==> a.End() < f[0].start
    ensures Canonical([a] + f)
  {
    var g := [a] + f;
    forall i, j | 0 <= i < j < |g| ensures g[i].End() < g[j].start {
      assert g[j] == f[j - 1];
      if i > 0 { assert g[i] == f[i - 1]; } else if j > 1 { assert f[0].End() < f[j - 1].start; }
    }
  }

  lemma ApartMerge(f: seq<Run>, r: Run, t: seq<Run>, m: Run)
    requires Canonical(f) && f != [] && Apart(f, r) && t == f[1..]
    requires f[0].End() == r.start && m == Run(f[0].start, f[0].len + r.len)
    ensures Canonical(t) && Apart(t, m)
  {
    CanonicalTail(f);
    forall p: int | m.Has(p) ensures !Covers(t, p) {
      if p >= r.start { assert r.Has(p); }
    }
  }

  lemma ApartTail(f: seq<Run>, r: Run)
    requires Canonical(f) && f != [] && Apart(f, r)
    ensures Canonical(f[1..]) && Apart(f[1..], r)
  {
    CanonicalTail(f);
  }

  /** A run in front of all of f: it goes first, or it is joined with the first. */
  lemma ReleaseFirst(f: seq<Run>, r: Run)
    requires Canonical(f) && r.len > 0 && (f != [] ==> r.End() <= f[0].start)
    ensures var g := Release(f, r); Canonical(g) && g != [] && g[0].start == r.start
  {
    if f != [] && r.End() == f[0].start {
      CanonicalTail(f);
      var m := Run(r.start, r.len + f[0].len);
      CanonicalCons(m, f[1..]);
    } else {
      CanonicalCons(r, f);
      assert f == [] ==> [r] + f == [r];
    }
  }

  lemma ReleaseBehind(f: seq<Run>, r: Run, t: seq<Run>)
    requires Canonical(f) && f != [] && f[0].End() < r.start && t == f[1..]
    requires Canonical(Release(t, r)) && Release(t, r) != []
    requires Release(t, r)[0].start == if t != [] && t[0].start < r.start then t[0].start else r.start
    ensures Canonical(Release(f, r))
    ensures Release(f, r) != [] && Release(f, r)[0].start == f[0].start
  {
    var g := Release(t, r);
    assert t != [] ==> f[0].End() < t[0].start;
    CanonicalCons(f[0], g);
    assert Release(f, r) == [f[0]] + g;
  }

  lemma ReleaseInto(f: seq<Run>, r: Run, t: seq<Run>, m: Run)
    requires f != [] && f[0].End() == r.start && t == f[1..] && m == Run(f[0].start, f[0].len + r.len)
    ensures Release(f, r) == Release(t, m)
  {
  }

  /** Freeing keeps the list canonical. */
  lemma {:induction false} ReleaseCanonical(f: seq<Run>, r: Run)
    requires Canonical(f) && Apart(f, r)
    ensures Canonical(Release(f, r))
    ensures Release(f, r) != []
    ensures Release(f, r)[0].start == if f != [] && f[0].start < r.start then f[0].start else r.start
    decreases |f|
  {
    if f != [] {
      ApartSides(f, r);
      ApartTail(f, r);
    }
    if f == [] || r.End() <= f[0].start {
      ReleaseFirst(f, r);
    } else if f[0].End() < r.start {
      ReleaseCanonical(f[1..], r);
      ReleaseBehind(f, r, f[1..]);
    } else {
      var m := Run(f[0].start, f[0].len + r.len);
      ApartMerge(f, r, f[1..], m);
      ReleaseCanonical(f[1..], m);
      ReleaseInto(f, r, f[1..], m);
    }
  }

  /** Freeing a run adds exactly its pages. */
  lemma {:induction false} ReleasePages(f: seq<Run>, r: Run)
    ensures forall p: int :: Covers(Release(f, r), p) <==> Covers(f, p) || r.Has(p)
    decreases |f|
  {
    if f == [] {
      CoversCons(r, []);
      assert [r] + [] == [r];
    } else {
      var t := f[1..];
      assert f == [f[0]] + t;
      CoversCons(f[0], t);
      if f[0].End() < r.start {
        ReleasePages(t, r);
        CoversCons(f[0], Release(t, r));
      } else if f[0].End() == r.start {
        ReleasePages(t, Run(f[0].start, f[0].len + r.len));
      } else if r.End() == f[0].start {
        CoversCons(Run(r.start, r.len + f[0].len), t);
      } else {
        CoversCons(r, f);
      }
    }
  }

  // ----- Freeing by position, the way the list is edited in place -----

  function JoinBefore(f: seq<Run>, k: nat, r: Run): seq<Run>
    requires k <= |f|
  {
    if k > 0 && f[k - 1].End() == r.start then f[k - 1 := Run(f[k - 1].start, f[k - 1].len + r.len)]
    else f[..k] + [r] + f[k..]
  }

  function JoinPosition(f: seq<Run>, k: nat, r: Run): nat
    requires k <= |f|
  {
    if k > 0 && f[k - 1].End() == r.start then k - 1 else k
  }

  function JoinAfter(g: seq<Run>, m: nat): seq<Run>
    requires m < |g|
  {
    if m + 1 < |g| && g[m].End() == g[m + 1].start
    then g[..m] + [Run(g[m].start, g[m].len + g[m + 1].len)] + g[m + 2..]
    else g
  }

  lemma {:induction false} ReleaseSkips(f: seq<Run>, r: Run, j: nat)
    requires j <= |f| && forall i :: 0 <= i < j ==> f[i].End() < r.start
    ensures Release(f, r) == f[..j] + Release(f[j..], r)
  {
    if j == 0 {
      assert f[0..] == f;
    } else {
      ReleaseSkips(f[1..], r, j - 1);
      assert f[1..][..j - 1] == f[1..j] && f[1..][j - 1..] == f[j..];
      assert f[..j] == [f[0]] + f[1..j];
    }
  }

  /** k runs start below r, and r overlaps none. */
  ghost predicate Place(f: seq<Run>, k: nat, r: Run) {
    && k <= |f|
    && (forall j :: 0 <= j < k ==> f[j].End() <= r.start)
    && (forall j :: k <= j < |f| ==> r.End() <= f[j].start)
  }

  lemma PlaceSorted(f: seq<Run>, k: nat, r: Run, g: seq<Run>)
    requires Canonical(f) && r.len > 0 && Place(f, k, r) && g == f[..k] + [r] + f[k..]
    ensures forall i, j :: 0 <= i < j < |g| ==> g[i].start < g[j].start
  {
    forall i, j | 0 <= i < j < |g| ensures g[i].start < g[j].start {
      var p := if i < k then i else i - 1;
      var q := if j < k then j else j - 1;
      if i == k { assert g[j] == f[q]; } else if j == k { assert g[i] == f[p]; } else {
        assert g[i] == f[p] && g[j] == f[q];
      }
    }
  }

  lemma PlaceOf(f: seq<Run>, k: nat, r: Run)
    requires Canonical(f) && Apart(f, r) && k <= |f|
    requires (forall j :: 0 <= j < k ==> f[j].start < r.start) && (forall j :: k <= j < |f| ==> r.start <= f[j].start)
    ensures Place(f, k, r)
  {
    forall j | 0 <= j < |f| ensures if j < k then f[j].End() <= r.start else r.End() <= f[j].start {
      if j < k && f[j].Has(r.start) { assert r.Has(r.start); }
      if k <= j && r.Has(f[j].start) { assert f[j].Has(f[j].start); }
    }
  }

  function JoinHead(m: Run, t: seq<Run>): seq<Run> {
    if t != [] && m.End() == t[0].start then [Run(m.start, m.len + t[0].len)] + t[1..] else [m] + t
  }

  lemma JoinAfterAt(p: seq<Run>, m: Run, t: seq<Run>)
    ensures JoinAfter(p + ([m] + t), |p|) == p + JoinHead(m, t)
  {
    var g := p + ([m] + t);
    assert g[..|p|] == p;
    if t != [] { assert g[|p| + 2..] == t[1..]; }
  }

  lemma ReleaseAhead(t: seq<Run>, r: Run)
    requires r.len > 0 && Behind(t, r)
    ensures Release(t, r) == JoinHead(r, t)
  {
  }

  lemma ReleaseAdjacent(a: Run, t: seq<Run>, r: Run)
    requires a.End() == r.start
    ensures Release([a] + t, r) == Release(t, Run(a.start, a.len + r.len))
  {
    assert ([a] + t)[1..] == t;
  }

  lemma ReleaseMerging(f: seq<Run>, k: nat, r: Run)
    requires Canonical(f) && r.len > 0 && Place(f, k, r) && k > 0 && f[k - 1].End() == r.start
    ensures JoinAfter(JoinBefore(f, k, r), k - 1) == Release(f, r)
  {
    AroundPlace(f, k, r);
    MergingAt(f, k, f[..k - 1], f[k - 1], f[k..], r);
  }

  lemma MergingAt(f: seq<Run>, k: nat, p: seq<Run>, a: Run, t: seq<Run>, r: Run)
    requires f == p + ([a] + t) && k == |p| + 1
    requires r.len > 0 && a.End() == r.start && Below(p, a) && Behind(t, r)
    ensures JoinAfter(JoinBefore(f, k, r), k - 1) == Release(f, r)
  {
    ReleaseMergedAt(f, p, a, t, r);
    JoinedAt(f, k, p, a, t, r);
  }

  lemma JoinedAt(f: seq<Run>, k: nat, p: seq<Run>, a: Run, t: seq<Run>, r: Run)
    requires f == p + ([a] + t) && k == |p| + 1 && a.End() == r.start
    ensures JoinAfter(JoinBefore(f, k, r), k - 1) == p + JoinHead(Run(a.start, a.len + r.len), t)
  {
    var m := Run(a.start, a.len + r.len);
    assert JoinBefore(f, k, r) == p + ([m] + t);
    JoinAfterAt(p, m, t);
  }

  /** Every run of p ends before a starts, with a gap. */
  ghost predicate Below(p: seq<Run>, a: Run) {
    forall i :: 0 <= i < |p| ==> p[i].End() < a.start
  }

  lemma AroundPlace(f: seq<Run>, k: nat, r: Run)
    requires Canonical(f) && Place(f, k, r) && k > 0
    ensures f == f[..k - 1] + ([f[k - 1]] + f[k..]) && Below(f[..k - 1], f[k - 1]) && Behind(f[k..], r)
  {
    RestIsBehind(f, k, r);
  }

  lemma ReleaseMergedAt(f: seq<Run>, p: seq<Run>, a: Run, t: seq<Run>, r: Run)
    requires f == p + ([a] + t) && Below(p, a)
    requires r.len > 0 && a.End() == r.start && Behind(t, r)
    ensures Release(f, r) == p + JoinHead(Run(a.start, a.len + r.len), t)
  {
    ReleaseSkips(f, r, |p|);
    assert f[..|p|] == p && f[|p|..] == [a] + t;
    ReleaseMergedHead(a, t, r);
  }

  /** Every run of t lies behind r. */
  ghost predicate Behind(t: seq<Run>, r: Run) {
    forall j :: 0 <= j < |t| ==> t[j].len > 0 && r.End() <= t[j].start
  }

  lemma RestIsBehind(f: seq<Run>, k: nat, r: Run)
    requires Canonical(f) && Place(f, k, r)
    ensures Behind(f[k..], r)
  {
    forall j | 0 <= j < |f[k..]| ensures f[k..][j].len > 0 && r.End() <= f[k..][j].start {
      assert f[k..][j] == f[k + j];
    }
  }

  lemma ReleaseMergedHead(a: Run, t: seq<Run>, r: Run)
    requires r.len > 0 && a.End() == r.start && Behind(t, r)
    ensures Release([a] + t, r) == JoinHead(Run(a.start, a.len + r.len), t)
  {
    ReleaseAdjacent(a, t, r);
    ReleaseAhead(t, Run(a.start, a.len + r.len));
  }

  lemma ReleaseInserting(f: seq<Run>, k: nat, r: Run)
    requires Canonical(f) && r.len > 0 && Place(f, k, r) && !(k > 0 && f[k - 1].End() == r.start)
    ensures JoinAfter(JoinBefore(f, k, r), k) == Release(f, r)
  {
    if k > 0 { assert forall i :: 0 <= i < k - 1 ==> f[i].End() < f[k - 1].start; }
    ReleaseSkips(f, r, k);
    RestIsBehind(f, k, r);
    ReleaseAhead(f[k..], r);
    Grouped(f[..k], r, f[k..]);
    JoinAfterAt(f[..k], r, f[k..]);
  }

  lemma Grouped(p: seq<Run>, r: Run, t: seq<Run>)
    ensures p + [r] + t == p + ([r] + t)
  {
  }

  /** Two-sided coalescing around position k is Release. */
  lemma ReleaseByPosition(f: seq<Run>, k: nat, r: Run)
    requires Canonical(f) && r.len > 0 && Place(f, k, r)
    ensures JoinAfter(JoinBefore(f, k, r), JoinPosition(f, k, r)) == Release(f, r)
  {
    if k > 0 && f[k - 1].End() == r.start {
      ReleaseMerging(f, k, r);
    } else {
      ReleaseInserting(f, k, r);
    }
  }

  // ----- Allocating: best fit and split -----

  /** Run k is the first among the smallest runs of at least n pages. */
  ghost predicate BestFit(f: seq<Run>, n: nat, k: nat) {
    && k < |f| && n <= f[k].len
    && (forall i :: 0 <= i < |f| && n <= f[i].len ==> f[k].len <= f[i].len)
    && (forall i :: 0 <= i < k && n <= f[i].len ==> f[k].len < f[i].len)
  }

  /** Among the runs of at least n pages none is smaller, and those before it are larger. */
  lemma BestFitMeans(f: seq<Run>, n: nat, k: nat, i: nat)
    requires BestFit(f, n, k) && i < |f|
    ensures k < |f| && f[k].len >= n
    ensures f[i].len >= n ==> f[i].len >= f[k].len
    ensures f[i].len >= n && i < k ==> f[i].len > f[k].len
  {
  }

  function Carve(f: seq<Run>, k: nat, n: nat): (g: seq<Run>)
    requires k < |f| && n <= f[k].len
  {
    if f[k].len == n then f[..k] + f[k + 1..]
    else f[k := Run(f[k].start + n, f[k].len - n)]
  }

  lemma CarveCanonical(f: seq<Run>, k: nat, n: nat)
    requires Canonical(f) && k < |f| && 0 < n <= f[k].len
    ensures Canonical(Carve(f, k, n))
  {
    var g := Carve(f, k, n);
    var shift := if f[k].len == n then 1 else 0;
    assert forall i :: 0 <= i < |g| ==>
        var h := f[if i < k then i else i + shift];
        h.start <= g[i].start && g[i].End() == h.End() && g[i].len > 0;
  }

  /** Carving takes exactly the first n pages of the chosen run. */
  lemma CarvePages(f: seq<Run>, k: nat, n: nat)
    requires Canonical(f) && k < |f| && 0 < n <= f[k].len
    ensures forall p: int :: Covers(Carve(f, k, n), p) <==> Covers(f, p) && !Run(f[k].start, n).Has(p)
  {
    var g := Carve(f, k, n);
    forall p: int
      ensures Covers(g, p) <==> Covers(f, p) && !Run(f[k].start, n).Has(p)
    {
      if Covers(g, p) { CarveKeeps(f, k, n, p); }
      if Covers(f, p) && !Run(f[k].start, n).Has(p) { CarveLeaves(f, k, n, p); }
    }
  }

  lemma CarveKeeps(f: seq<Run>, k: nat, n: nat, p: int)
    requires Canonical(f) && k < |f| && 0 < n <= f[k].len && Covers(Carve(f, k, n), p)
    ensures Covers(f, p) && !Run(f[k].start, n).Has(p)
  {
    var g := Carve(f, k, n);
    var i :| 0 <= i < |g| && g[i].Has(p);
    var j := CarvedFrom(f, k, n, i);
    assert f[j].Has(p);
    if j < k { assert f[j].End() < f[k].start; }
    if k < j { assert f[k].End() < f[j].start; }
  }

  /** Every run that is left was a run before, apart from the remainder of the chosen one. */
  lemma CarvedFrom(f: seq<Run>, k: nat, n: nat, i: nat) returns (j: nat)
    requires k < |f| && 0 < n <= f[k].len && i < |Carve(f, k, n)|
    ensures j < |f| && (j == k ==> n < f[k].len)
    ensures Carve(f, k, n)[i] == if j == k then Run(f[k].start + n, f[k].len - n) else f[j]
  {
    j := if i < k || f[k].len != n then i else i + 1;
  }

  lemma CarveLeaves(f: seq<Run>, k: nat, n: nat, p: int)
    requires Canonical(f) && k < |f| && 0 < n <= f[k].len
    requires Covers(f, p) && !Run(f[k].start, n).Has(p)
    ensures Covers(Carve(f, k, n), p)
  {
    var i :| 0 <= i < |f| && f[i].Has(p);
    if f[k].len == n { CarveAll(f, k, i); } else { assert Carve(f, k, n)[i].Has(p); }
  }

  lemma CarveAll(f: seq<Run>, k: nat, i: nat)
    requires k < |f| && i < |f| && i != k
    ensures var g := Carve(f, k, f[k].len); exists j :: 0 <= j < |g| && g[j] == f[i]
  {
    var g := Carve(f, k, f[k].len);
    if i < k { assert g[i] == f[i]; } else { assert g[i - 1] == f[i]; }
  }
}
