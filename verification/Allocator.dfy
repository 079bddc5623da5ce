/** The kernel's page allocator as it is written: a linked list of header records
    kept inside the free pages themselves (system/kernel/Allocator.c). */
module Allocator {
  import opened Options
  import opened PageMap
  import opened PageRuns
  import opened AllocatorRuns

  /** The pages of a block lie side by side in memory exactly when no gap between regions lies
      between its header page and its last page. */
  lemma BlockContiguousIffNoGap(rs: seq<Region>, r: Run)
    requires Ascending(rs) && 0 < r.len && r.End() < SumPages(rs)
    ensures (forall i :: 0 <= i < r.len ==>
              PageAddress(rs, r.start + 1 + i) == PageAddress(rs, r.start + 1) + i * PAGE_SIZE)
       <==> NoGap(rs, RegionOf(rs, r.start + 1), RegionOf(rs, r.End()))
  {
    var a, b := r.start + 1, r.End();
    ContiguousIffNoGap(rs, a, b);
    assert b == a + (r.len - 1);
    if PageAddress(rs, b) == PageAddress(rs, a) + (b - a) * PAGE_SIZE {
      forall i | 0 <= i < r.len ensures PageAddress(rs, a + i) == PageAddress(rs, a) + i * PAGE_SIZE {
        PageAddressMonotone(rs, a, a + i);
        PageAddressMonotone(rs, a + i, b);
      }
    }
  }

  /** An allocation that crosses a gap: with two regions of two pages, a first request for two pages
      fits exactly, and the address it returns is not that of any page. */
  lemma AllocationMayCrossGap()
    ensures var rs, s := SplitLayout(), Initial(3);
      && Ascending(rs) && SumPages(rs) == s.total + 1 && Inv(s)
      && BestFit(s.free, 2 + 1, 0) && SplitAddressable(s, 2 + 1, 0)
      && Allocated(s, 2 + 1, 0).live == {Run(0, 3)}
      && forall n :: 0 <= n < SumPages(rs) ==> PageAddress(rs, n) != PageAddress(rs, 0 + 1) + PAGE_SIZE
  {
    var rs := SplitLayout();
    SplitLayoutAddresses(rs);
    InitialInv(3);
    forall n | 0 <= n < SumPages(rs) ensures PageAddress(rs, n) != PageAddress(rs, 0 + 1) + PAGE_SIZE {
      assert n == 0 || n == 1 || n == 2 || n == 3;
    }
  }

  /** No page of one live block, header included, overlaps a page of another or a free page. */
  lemma LiveBlocksDisjointInMemory(rs: seq<Region>, s: AllocatorRuns.State, r: Run, i: nat, j: nat)
    requires Ascending(rs) && SumPages(rs) == s.total + 1 && Inv(s)
    requires r in s.live && r.Has(i) && j < s.total && !r.Has(j)
    ensures i < s.total
    ensures PageAddress(rs, i + 1) + PAGE_SIZE <= PageAddress(rs, j + 1)
         || PageAddress(rs, j + 1) + PAGE_SIZE <= PageAddress(rs, i + 1)
  {
    assert LiveHas(s.live, i);
    if i < j { PageAddressMonotone(rs, i + 1, j + 1); } else { PageAddressMonotone(rs, j + 1, i + 1); }
  }

  /** The header record at the start of a page. Casting an address to a pointer gives
      the record whose Address it is. */
  class FreeRun {
    const Address: nat
    var NumberOfPages: nat
    var Next: FreeRun?

    constructor (address: nat)
      ensures Address == address
    {
      Address := address;
    }
  }

  /** Panic() never returns; OutOfMemory, BadPageIndex and Unaligned are its call sites. */
  datatype Outcome = Ok(address: nat) | OutOfMemory | BadPageIndex | Unaligned

  class PageAllocator {
    const MemoryLayout: seq<Region>
    const Ram: map<nat, FreeRun>     // the header record at each page address
    var TotalPages: nat
    var FreeList: FreeRun?

    ghost const Slots: seq<FreeRun>  // the header record of each page index
    ghost var Free: seq<Run>         // the list FreeList points to
    ghost var Live: set<Run>         // blocks handed out, header page included

    ghost predicate LayoutOk()
      reads this
    {
      && Ascending(MemoryLayout)
      && SumPages(MemoryLayout) == TotalPages + 1
      && TotalPages + 1 < USIZE
    }

    /** Every page index has its own record, found in memory at that page's address. */
    ghost predicate RamOk()
      requires LayoutOk()
      reads this
    {
      && |Slots| == TotalPages
      && (forall i {:trigger Slots[i].Address} :: 0 <= i < |Slots| ==>
            && Slots[i].Address == PageAddress(MemoryLayout, i + 1)
            && Slots[i].Address in Ram && Ram[Slots[i].Address] == Slots[i])
    }

    ghost predicate SlotsSorted() {
      forall i, j {:trigger Slots[i].Address, Slots[j].Address} ::
        0 <= i < j < |Slots| ==> Slots[i].Address < Slots[j].Address
    }

    ghost predicate InRange(f: seq<Run>) {
      forall j :: 0 <= j < |f| ==> f[j].start < |Slots|
    }

    ghost function Node(f: seq<Run>, i: nat): FreeRun?
      requires InRange(f)
    {
      if i < |f| then Slots[f[i].start] else null
    }

    /** The pointer-to-pointer that leads to position k: null stands for &FreeList,
        any other record for the address of its Next field. */
    ghost function LinkTo(f: seq<Run>, k: nat): FreeRun?
      requires InRange(f) && k <= |f|
    {
      if k == 0 then null else Slots[f[k - 1].start]
    }

    static ghost function Target(link: FreeRun?): set<FreeRun> {
      if link == null then {} else {link}
    }

    function Deref(link: FreeRun?): FreeRun?
      reads this`FreeList, Target(link)`Next
    {
      if link == null then FreeList else link.Next
    }

    /** FreeList points to a chain of the records of f's runs, in order. */
    ghost predicate Chained(f: seq<Run>)
      reads this`FreeList, Slots`Next
    {
      && InRange(f)
      && (forall j :: 0 <= j <= |f| ==> Deref(LinkTo(f, j)) == Node(f, j))
    }

    ghost predicate Sized(f: seq<Run>)
      reads Slots`NumberOfPages
    {
      && InRange(f)
      && (forall j :: 0 <= j < |f| ==> Slots[f[j].start].NumberOfPages == f[j].len)
    }

    /** The list in memory spells out f. */
    ghost predicate Links(f: seq<Run>)
      reads this`FreeList, Slots
    {
      Chained(f) && Sized(f)
    }

    ghost function State(): State
      reads this
    {
      AllocatorRuns.State(TotalPages, Free, Live)
    }

    /** The header page of every block records the block's size. */
    ghost predicate Headers(live: set<Run>)
      reads Slots`NumberOfPages
    {
      forall r :: r in live ==> r.start < |Slots| && Slots[r.start].NumberOfPages == r.len
    }

    /** Memory agrees with the ghost state. */
    ghost predicate Rep()
      reads this, Slots
    {
      LayoutOk() && RamOk() && Links(Free) && Headers(Live)
    }

    ghost predicate Valid()
      reads this, Slots
    {
      Rep() && Inv(State())
    }

    lemma SlotsAscend()
      requires LayoutOk() && RamOk()
      ensures SlotsSorted()
    {
      forall i, j | 0 <= i < j < |Slots| ensures Slots[i].Address < Slots[j].Address {
        PageAddressMonotone(MemoryLayout, i + 1, j + 1);
      }
    }

    method PageIndexToMemoryAddress(PageIndex: nat) returns (r: Option<nat>)
      requires LayoutOk() && PageIndex < 0x1_0000_0000_0000_0000
      ensures r.None? <==> TotalPages <= (PageIndex + 1) % 0x1_0000_0000_0000_0000
      ensures r.Some? ==> r.value == PageAddress(MemoryLayout, (PageIndex + 1) % 0x1_0000_0000_0000_0000)
    {
      var Page: nat := (PageIndex + 1) % USIZE;
      if Page >= TotalPages { return None; }
      var RegionIndex := 0;
      ghost var n := Page;
      assert MemoryLayout[0..] == MemoryLayout;
      while true
        invariant RegionIndex <= |MemoryLayout|
        invariant Page < SumPages(MemoryLayout[RegionIndex..])
        invariant PageAddress(MemoryLayout, n) == PageAddress(MemoryLayout[RegionIndex..], Page)
        decreases |MemoryLayout| - RegionIndex
      {
        var Region := MemoryLayout[RegionIndex];
        if Page < Region.NumPages {
          return Some(Region.Start + Page * PAGE_SIZE);
        }
        assert MemoryLayout[RegionIndex..][1..] == MemoryLayout[RegionIndex + 1..];
        Page := Page - Region.NumPages;
        RegionIndex := RegionIndex + 1;
      }
    }

    /** For any address inside page number n; the walk ends inside the layout. */
    method MemoryAddressToPageIndex(Address: nat, ghost n: nat) returns (PageIndex: nat)
      requires LayoutOk() && n <= TotalPages
      requires PageAddress(MemoryLayout, n) <= Address < PageAddress(MemoryLayout, n) + PAGE_SIZE
      ensures PageIndex == (n - 1) % 0x1_0000_0000_0000_0000
    {
      var Count := 0;
      var RegionIndex := 0;
      assert MemoryLayout[0..] == MemoryLayout;
      while true
        invariant RegionIndex <= |MemoryLayout| && Count <= n < Count + SumPages(MemoryLayout[RegionIndex..])
        invariant PageAddress(MemoryLayout, n) == PageAddress(MemoryLayout[RegionIndex..], n - Count)
        decreases |MemoryLayout| - RegionIndex
      {
        var RegionStart := MemoryLayout[RegionIndex].Start;
        var RegionEnd := RegionStart + MemoryLayout[RegionIndex].NumPages * PAGE_SIZE;
        InRegion(MemoryLayout, RegionIndex, n - Count, Address);
        if Address >= RegionStart && Address < RegionEnd {
          var Offset := Address - RegionStart;
          return (Count + Offset / PAGE_SIZE - 1) % USIZE;
        }
        Count := Count + MemoryLayout[RegionIndex].NumPages;
        RegionIndex := RegionIndex + 1;
      }
    }

    /** The region test of the walk succeeds exactly in the region that holds the page. */
    static lemma InRegion(rs: seq<Region>, i: nat, m: nat, a: nat)
      requires Ascending(rs) && i <= |rs| && m < SumPages(rs[i..])
      requires PageAddress(rs[i..], m) <= a < PageAddress(rs[i..], m) + PAGE_SIZE
      ensures i < |rs|
      ensures m < rs[i].NumPages <==> rs[i].Start <= a < rs[i].End()
      ensures m < rs[i].NumPages ==> (a - rs[i].Start) / PAGE_SIZE == m
      ensures m >= rs[i].NumPages ==>
        && m - rs[i].NumPages < SumPages(rs[i + 1..])
        && PageAddress(rs[i + 1..], m - rs[i].NumPages) == PageAddress(rs[i..], m)
    {
      assert rs[i..][0] == rs[i] && rs[i..][1..] == rs[i + 1..];
      if m >= rs[i].NumPages {
        PageAddressBounds(rs[i + 1..], m - rs[i].NumPages);
        assert rs[i + 1..][0] == rs[i + 1];
      }
    }

    /** BestFit over the first j runs. */
    static ghost predicate BestAmong(f: seq<Run>, j: nat, n: nat, k: nat)
      requires j <= |f|
    {
      && k < j && n <= f[k].len
      && (forall i :: 0 <= i < j && n <= f[i].len ==> f[k].len <= f[i].len)
      && (forall i :: 0 <= i < k && n <= f[i].len ==> f[k].len < f[i].len)
    }

    /** The first loop of AllocatePages: the first of the smallest sufficient runs. */
    method FindBest(NumberOfPages: nat) returns (Best: FreeRun?, BestLink: FreeRun?, ghost k: nat)
      requires Links(Free)
      ensures Best == null ==> forall i :: 0 <= i < |Free| ==> Free[i].len < NumberOfPages
      ensures Best != null ==> BestFit(Free, NumberOfPages, k)
      ensures Best != null ==> Best == Slots[Free[k].start] && BestLink == LinkTo(Free, k)
    {
      var Link: FreeRun? := null;
      Best, BestLink, k := null, null, 0;
      ghost var j := 0;
      while Deref(Link) != null
        invariant j <= |Free| && Link == LinkTo(Free, j) && Deref(Link) == Node(Free, j)
        invariant Best == null ==> forall i :: 0 <= i < j ==> Free[i].len < NumberOfPages
        invariant Best != null ==> k < j && BestAmong(Free, j, NumberOfPages, k)
        invariant Best != null ==> Best == Slots[Free[k].start] && BestLink == LinkTo(Free, k)
        decreases |Free| - j
      {
        var Run := Deref(Link);
        if Run.NumberOfPages >= NumberOfPages && (Best == null || Run.NumberOfPages < Best.NumberOfPages) {
          Best, BestLink, k := Run, Link, j;
        }
        Link := Run;
        j := j + 1;
      }
    }

    method Store(link: FreeRun?, value: FreeRun?)
      modifies this`FreeList, Target(link)`Next
      ensures link == null ==> FreeList == value
      ensures link != null ==> link.Next == value && FreeList == old(FreeList)
    {
      if link == null { FreeList := value; } else { link.Next := value; }
    }

    /** f with run k removed is g. */
    static ghost predicate Removed(f: seq<Run>, k: nat, g: seq<Run>) {
      && k < |f| && |g| == |f| - 1
      && (forall j :: 0 <= j < k ==> g[j] == f[j])
      && (forall j :: k <= j < |g| ==> g[j] == f[j + 1])
    }

    ghost predicate Distinct(f: seq<Run>)
      requires InRange(f)
    {
      forall i, j :: 0 <= i < j < |f| ==> Slots[f[i].start] != Slots[f[j].start]
    }

    lemma LinksDiffer(f: seq<Run>, i: nat, j: nat)
      requires InRange(f) && Distinct(f) && i <= |f| && j <= |f|
      ensures LinkTo(f, i) == LinkTo(f, j) <==> i == j
    {
    }

    /** *BestLink = Best->Next takes run k off the chain and changes no other record. */
    method Unlink(Best: FreeRun, BestLink: FreeRun?, ghost f: seq<Run>, ghost k: nat, ghost g: seq<Run>)
      requires Chained(f) && Distinct(f) && Removed(f, k, g)
      requires Best == Slots[f[k].start] && BestLink == LinkTo(f, k)
      modifies this`FreeList, Target(BestLink)`Next
      ensures Chained(g)
    {
      assert LinkTo(f, k + 1) == Best && Deref(Best) == Node(f, k + 1);
      Store(BestLink, Best.Next);
      forall j | 0 <= j <= |g| ensures Deref(LinkTo(g, j)) == Node(g, j) {
        if j == k {
          assert LinkTo(g, j) == BestLink;
        } else {
          var i := if j < k then j else j + 1;
          assert LinkTo(g, j) == LinkTo(f, i) && Node(g, j) == Node(f, i);
          LinksDiffer(f, i, k);
          assert old(Deref(LinkTo(f, i))) == Node(f, i);
        }
      }
    }

    /** Links a record in between position k - 1 and position k. */
    method InsertAt(Record: FreeRun, Link: FreeRun?, After: FreeRun?, ghost f: seq<Run>, ghost k: nat,
                    ghost g: seq<Run>)
      requires Chained(f) && InRange(g) && Distinct(g) && Removed(g, k, f)
      requires Record == Slots[g[k].start] && Link == LinkTo(f, k) && After == Node(f, k)
      modifies this`FreeList, Record`Next, Target(Link)`Next
      ensures Chained(g)
    {
      Record.Next := After;
      Store(Link, Record);
      forall j | 0 <= j <= |g| ensures Deref(LinkTo(g, j)) == Node(g, j) {
        if j == k {
          assert LinkTo(g, k) == Link;
        } else if j != k + 1 {
          var i := if j < k then j else j - 1;
          assert LinkTo(g, j) == LinkTo(f, i) && Node(g, j) == Node(f, i);
          LinksDiffer(g, j, k);
          LinksDiffer(g, j, k + 1);
          assert old(Deref(LinkTo(f, i))) == Node(f, i);
        }
      }
    }

    /** The second loop of AllocatePages puts the record of g[k] where its address
        belongs; g without run k is f. */
    method InsertByAddress(LeftOver: FreeRun, ghost f: seq<Run>, ghost k: nat, ghost g: seq<Run>)
      requires Chained(f) && InRange(g) && Distinct(g) && Removed(g, k, f)
      requires LeftOver == Slots[g[k].start]
      requires forall j :: 0 <= j < |g| ==> (Slots[g[j].start].Address < LeftOver.Address <==> j < k)
      modifies this`FreeList, LeftOver`Next, Target(LinkTo(f, k))`Next
      ensures Chained(g)
    {
      var Ins: FreeRun? := null;
      ghost var j := 0;
      while Deref(Ins) != null && Deref(Ins).Address < LeftOver.Address
        invariant j <= k && Ins == LinkTo(f, j) && Deref(Ins) == Node(f, j)
        decreases |f| - j
      {
        assert Node(f, j) == Slots[g[if j < k then j else j + 1].start];
        Ins := Deref(Ins);
        j := j + 1;
      }
      assert j == k;
      InsertAt(LeftOver, Ins, Deref(Ins), f, k, g);
    }

    lemma SlotsDiffer(i: nat, j: nat)
      requires SlotsSorted() && i < |Slots| && j < |Slots| && i != j
      ensures Slots[i] != Slots[j]
    {
      assert Slots[i].Address != Slots[j].Address;
    }

    lemma StartsDistinct(f: seq<Run>)
      requires InRange(f) && SlotsSorted()
      requires forall i, j :: 0 <= i < j < |f| ==> f[i].start < f[j].start
      ensures Distinct(f)
    {
      forall i, j | 0 <= i < j < |f| ensures Slots[f[i].start] != Slots[f[j].start] {
        SlotsDiffer(f[i].start, f[j].start);
      }
    }

    lemma CanonicalDistinct(f: seq<Run>)
      requires Canonical(f) && InRange(f) && SlotsSorted()
      ensures Distinct(f)
    {
      StartsDistinct(f);
    }

    /** The record n pages after the start of a run, if that page index has an address. */
    method RecordAfter(Best: FreeRun, n: nat, ghost i: nat) returns (LeftOver: FreeRun?)
      requires LayoutOk() && RamOk() && i + n < |Slots| && Best == Slots[i]
      ensures LeftOver != null <==> i + n + 1 < TotalPages
      ensures LeftOver != null ==> LeftOver == Slots[i + n]
    {
      var Index := MemoryAddressToPageIndex(Best.Address, i + 1);
      var LeftOverAddress := PageIndexToMemoryAddress(Index + n);
      if LeftOverAddress.None? { return null; }
      assert Slots[i + n].Address == LeftOverAddress.value;
      LeftOver := Ram[LeftOverAddress.value];
    }

    /** Writes the header of what is left of run k after n pages and links it in. */
    method PutLeftOver(LeftOver: FreeRun, size: nat, ghost f: seq<Run>, ghost k: nat, ghost n: nat,
                       ghost rest: seq<Run>)
      requires SlotsSorted() && Chained(rest) && Sized(f) && Canonical(f) && Removed(f, k, rest)
      requires f[k].len == n + size && size > 0 && f[k].start + n < |Slots| && LeftOver == Slots[f[k].start + n]
      modifies this`FreeList, Slots`Next, LeftOver`NumberOfPages
      ensures Links(Carve(f, k, n))
    {
      CarveOrder(f, k, n);
      LeftOver.NumberOfPages := size;
      InsertByAddress(LeftOver, rest, k, Carve(f, k, n));
    }

    ghost function SplitRecord(f: seq<Run>, k: nat, n: nat): set<FreeRun>
      requires k < |f| && f[k].End() <= |Slots|
    {
      if n < f[k].len then {Slots[f[k].start + n]} else {}
    }

    static lemma RemoveRun(f: seq<Run>, k: nat) returns (g: seq<Run>)
      requires k < |f|
      ensures Removed(f, k, g)
    {
      g := f[..k] + f[k + 1..];
    }

    lemma SizedAfterFit(f: seq<Run>, k: nat, n: nat, rest: seq<Run>)
      requires Sized(f) && Removed(f, k, rest) && f[k].len == n
      ensures rest == Carve(f, k, n) && Sized(rest)
    {
      assert forall j :: 0 <= j < |rest| ==> rest[j] == f[if j < k then j else j + 1];
    }

    /** The split of AllocatePages, once run k is off the list. */
    method Split(Best: FreeRun, n: nat, ghost f: seq<Run>, ghost k: nat, ghost rest: seq<Run>) returns (ok: bool)
      requires LayoutOk() && RamOk() && SlotsSorted() && Chained(rest) && Sized(f) && Canonical(f)
      requires Removed(f, k, rest)
      requires n < f[k].len && f[k].End() <= |Slots| && Best == Slots[f[k].start]
      modifies this`FreeList, Slots`Next, {Slots[f[k].start + n]}`NumberOfPages
      ensures ok <==> f[k].start + n + 1 < TotalPages
      ensures ok ==> Links(Carve(f, k, n))
    {
      var LeftOver := RecordAfter(Best, n, f[k].start);
      if LeftOver == null { return false; }
      PutLeftOver(LeftOver, Best.NumberOfPages - n, f, k, n, rest);
      return true;
    }

    /** Takes run k off the list and puts back what is left of it after n pages. */
    method TakePages(Best: FreeRun, BestLink: FreeRun?, n: nat, ghost f: seq<Run>, ghost k: nat) returns (ok: bool)
      requires LayoutOk() && RamOk() && SlotsSorted() && Links(f) && Canonical(f)
      requires k < |f| && n <= f[k].len && f[k].End() <= |Slots|
      requires Best == Slots[f[k].start] && BestLink == LinkTo(f, k)
      modifies this`FreeList, Slots`Next, SplitRecord(f, k, n)`NumberOfPages
      ensures ok <==> f[k].len == n || f[k].start + n + 1 < TotalPages
      ensures ok ==> Links(Carve(f, k, n))
    {
      CanonicalDistinct(f);
      ghost var rest := RemoveRun(f, k);
      Unlink(Best, BestLink, f, k, rest);
      assert Best.NumberOfPages == f[k].len;
      if Best.NumberOfPages > n {
        ok := Split(Best, n, f, k, rest);
      } else {
        SizedAfterFit(f, k, n, rest);
        ok := true;
      }
    }

    lemma CarveOrder(f: seq<Run>, k: nat, n: nat)
      requires Canonical(f) && InRange(f) && SlotsSorted() && k < |f| && n < f[k].len && f[k].start + n < |Slots|
      ensures InRange(Carve(f, k, n)) && Distinct(Carve(f, k, n))
      ensures forall j :: 0 <= j < |f| ==>
        (Slots[Carve(f, k, n)[j].start].Address < Slots[f[k].start + n].Address <==> j < k)
    {
      var g := Carve(f, k, n);
      assert forall i, j :: 0 <= i < j < |g| ==> g[i].start < g[j].start;
      StartsDistinct(g);
      forall j | 0 <= j < |g|
        ensures Slots[g[j].start].Address < Slots[f[k].start + n].Address <==> j < k
      {
        if j != k { SlotsDiffer(g[j].start, f[k].start + n); }
        assert j < k ==> Slots[g[j].start].Address < Slots[f[k].start + n].Address;
        assert j > k ==> Slots[g[j].start].Address > Slots[f[k].start + n].Address;
      }
    }

    /** What the invariant says about carving n pages off run k. */
    lemma AllocationFacts(n: nat, k: nat)
      requires Inv(State()) && k < |Free| && n <= Free[k].len
      ensures Canonical(Free) && Free[k].End() <= TotalPages
      ensures forall r :: r in Live ==> !Free[k].Has(r.start)
      ensures n > 0 ==> Inv(Allocated(State(), n, k))
      ensures n > 0 ==> forall j :: 0 <= j < |Carve(Free, k, n)| ==> Carve(Free, k, n)[j].start != Free[k].start
    {
      assert Free[k].Has(Free[k].End() - 1);
      assert Covers(Free, Free[k].End() - 1);
      forall r | r in Live ensures !Free[k].Has(r.start) {
        assert Apart(Free, r) && r.Has(r.start);
      }
      if n > 0 {
        AllocatedInv(State(), n, k);
        var g := Carve(Free, k, n);
        var b := Run(Free[k].start, n);
        forall j | 0 <= j < |g| ensures g[j].start != b.start {
          assert Apart(g, b) && b.Has(b.start) && g[j].Has(g[j].start);
        }
      }
    }

    /** Records the block's size in its header; from here on it is live. */
    method HandOut(Best: FreeRun, n: nat, ghost k: nat, ghost g: seq<Run>)
      requires LayoutOk() && RamOk() && SlotsSorted() && Headers(Live) && Links(g)
      requires k < |Free| && n <= Free[k].len && Free[k].start < |Slots| && Best == Slots[Free[k].start]
      requires g == Carve(Free, k, n)
      requires forall r :: r in Live ==> r.start != Free[k].start
      requires forall j :: 0 <= j < |g| ==> g[j].start != Free[k].start
      modifies Best`NumberOfPages, this`Free, this`Live
      ensures Rep() && State() == Allocated(old(State()), n, k)
    {
      forall j | 0 <= j < |g| ensures Slots[g[j].start] != Best {
        SlotsDiffer(g[j].start, Free[k].start);
      }
      forall r | r in Live ensures Slots[r.start] != Best {
        SlotsDiffer(r.start, Free[k].start);
      }
      Best.NumberOfPages := n;
      Live := Live + {Run(Free[k].start, n)};
      Free := g;
    }

    method TakeKeepingLive(Best: FreeRun, BestLink: FreeRun?, n: nat, ghost k: nat) returns (ok: bool)
      requires Rep() && SlotsSorted() && Canonical(Free)
      requires k < |Free| && n <= Free[k].len && Free[k].End() <= TotalPages
      requires Best == Slots[Free[k].start] && BestLink == LinkTo(Free, k)
      requires forall r :: r in Live ==> !Free[k].Has(r.start)
      modifies this`FreeList, Slots
      ensures ok <==> SplitAddressable(State(), n, k)
      ensures ok ==> Links(Carve(Free, k, n)) && Headers(Live)
    {
      ghost var hole := SplitRecord(Free, k, n);
      forall r | r in Live ensures Slots[r.start] !in hole {
        if n < Free[k].len { SlotsDiffer(r.start, Free[k].start + n); }
      }
      ok := TakePages(Best, BestLink, n, Free, k);
      assert Headers(Live) by {
        forall r | r in Live ensures Slots[r.start].NumberOfPages == r.len {
          assert Slots[r.start] !in hole;
        }
      }
    }

    /** AllocatePages after the search: n is the request plus its header page. */
    method AllocateFrom(Best: FreeRun, BestLink: FreeRun?, n: nat, ghost k: nat) returns (ok: bool)
      requires Rep() && SlotsSorted() && Canonical(Free)
      requires k < |Free| && n <= Free[k].len && Free[k].End() <= TotalPages
      requires Best == Slots[Free[k].start] && BestLink == LinkTo(Free, k)
      requires forall r :: r in Live ==> !Free[k].Has(r.start)
      requires n > 0 ==> forall j :: 0 <= j < |Carve(Free, k, n)| ==> Carve(Free, k, n)[j].start != Free[k].start
      requires Inv(State()) && (n > 0 ==> Inv(Allocated(State(), n, k)))
      modifies this`FreeList, this`Free, this`Live, Slots
      ensures ok <==> SplitAddressable(old(State()), n, k)
      ensures ok && n > 0 ==> Valid() && State() == Allocated(old(State()), n, k)
      ensures ok ==> (Inv(State()) <==> n > 0)
      ensures ok && n == 0 ==> Links(Free) && State() == Emptied(old(State()), k)
    {
      ok := TakeKeepingLive(Best, BestLink, n, k);
      if !ok { return; }
      if n > 0 {
        HandOut(Best, n, k, Carve(Free, k, n));
      } else {
        ZeroRun(Best, k);
        ZeroLengthRunBreaksInv(old(State()), k);
      }
    }

    /** A wrapped request takes zero pages: the whole run goes back and is then given length 0. */
    method ZeroRun(Best: FreeRun, ghost k: nat)
      requires Canonical(Free) && SlotsSorted() && k < |Free| && Free[k].start < |Slots| && Best == Slots[Free[k].start]
      requires Links(Carve(Free, k, 0))
      modifies Best`NumberOfPages, this`Free
      ensures Links(Free) && Free == old(Free)[k := Run(old(Free)[k].start, 0)]
    {
      ghost var f := Free;
      assert Carve(f, k, 0) == f;
      CanonicalDistinct(f);
      Best.NumberOfPages := 0;
      Free := f[k := Run(f[k].start, 0)];
      forall j | 0 <= j <= |Free| ensures LinkTo(Free, j) == LinkTo(f, j) && Node(Free, j) == Node(f, j) {}
    }

    static lemma WrapsToZero(pages: nat, n: nat)
      requires pages < USIZE && n == (pages + 1) % USIZE
      ensures n > 0 <==> pages + 1 < USIZE
    {
    }

    method AllocatePages(NumberOfPages: nat) returns (r: Outcome, ghost k: nat)
      requires Valid() && NumberOfPages < 0x1_0000_0000_0000_0000
      modifies this`FreeList, this`Free, this`Live, Slots
      ensures var n := (NumberOfPages + 1) % 0x1_0000_0000_0000_0000;
        && !r.Unaligned?
        && (r.OutOfMemory? <==> forall i :: 0 <= i < |old(Free)| ==> old(Free)[i].len < n)
        && (!r.OutOfMemory? ==> BestFit(old(Free), n, k))
        && (r.BadPageIndex? <==> !r.OutOfMemory? && !SplitAddressable(old(State()), n, k))
        && (r.Ok? ==> r.address == PageAddress(MemoryLayout, old(Free)[k].start + 1) + PAGE_SIZE)
        && (r.Ok? && n > 0 ==> Valid() && State() == Allocated(old(State()), n, k))
        && (r.Ok? && n == 0 ==> Links(Free) && State() == Emptied(old(State()), k))
      ensures r.Ok? ==> (Inv(State()) <==> NumberOfPages + 1 < 0x1_0000_0000_0000_0000)
    {
      k := 0;
      var n := (NumberOfPages + 1) % USIZE;
      WrapsToZero(NumberOfPages, n);
      SlotsAscend();
      var Best, BestLink;
      Best, BestLink, k := FindBest(n);
      if Best == null { return OutOfMemory, k; }
      AllocationFacts(n, k);
      var ok := AllocateFrom(Best, BestLink, n, k);
      r := if ok then Ok(Best.Address + PAGE_SIZE) else BadPageIndex;
    }

    /** The search loop of FreePages: the records on both sides of the block. */
    method FindPlace(HeaderIndex: nat) returns (Before: FreeRun?, Current: FreeRun?, ghost k: nat)
      requires LayoutOk() && RamOk() && Chained(Free)
      ensures k <= |Free| && Before == LinkTo(Free, k) && Current == Node(Free, k)
      ensures forall j :: 0 <= j < k ==> Free[j].start < HeaderIndex
      ensures k < |Free| ==> HeaderIndex <= Free[k].start
    {
      Before, Current, k := null, FreeList, 0;
      assert Deref(LinkTo(Free, 0)) == Node(Free, 0);
      while Current != null
        invariant k <= |Free| && Before == LinkTo(Free, k) && Current == Node(Free, k)
        invariant forall j :: 0 <= j < k ==> Free[j].start < HeaderIndex
        decreases |Free| - k
      {
        var Index := MemoryAddressToPageIndex(Current.Address, Free[k].start + 1);
        if Index >= HeaderIndex { return; }
        assert Deref(LinkTo(Free, k + 1)) == Node(Free, k + 1);
        Before, Current, k := Current, Current.Next, k + 1;
      }
    }

    /** Does the run of record Before end where page index i starts? */
    method EndsAt(Before: FreeRun?, i: nat, ghost f: seq<Run>, ghost k: nat) returns (b: bool)
      requires LayoutOk() && RamOk() && Sized(f) && k <= |f| && Before == LinkTo(f, k)
      ensures b <==> k > 0 && f[k - 1].End() == i
    {
      if Before == null { return false; }
      var BeforeIndex := MemoryAddressToPageIndex(Before.Address, f[k - 1].start + 1);
      return BeforeIndex + Before.NumberOfPages == i;
    }

    /** Merges the block into the run before it, or links it in as a run of its own. */
    method JoinWithBefore(Header: FreeRun, touches: bool, Before: FreeRun?, After: FreeRun?,
                          ghost f: seq<Run>, ghost k: nat, ghost r: Run)
      returns (Joined: FreeRun)
      requires SlotsSorted() && Links(f) && Canonical(f) && Place(f, k, r) && r.len > 0
      requires r.start < |Slots| && Header == Slots[r.start] && Header.NumberOfPages == r.len
      requires Before == LinkTo(f, k) && After == Node(f, k)
      requires touches <==> k > 0 && f[k - 1].End() == r.start
      modifies this`FreeList, Slots`Next, Target(Before)`NumberOfPages
      ensures Joined == Header || Joined == Before
      ensures Links(JoinBefore(f, k, r)) && Distinct(JoinBefore(f, k, r))
      ensures Joined == Slots[JoinBefore(f, k, r)[JoinPosition(f, k, r)].start]
    {
      if touches {
        ExtendBefore(Header, Before, f, k, r);
        Joined := Before;
      } else {
        InsertBlock(Header, Before, After, f, k, r);
        Joined := Header;
      }
    }

    method ExtendBefore(Header: FreeRun, Before: FreeRun?, ghost f: seq<Run>, ghost k: nat, ghost r: Run)
      requires SlotsSorted() && Links(f) && Canonical(f) && 0 < k <= |f| && f[k - 1].End() == r.start
      requires Header.NumberOfPages == r.len && Before == LinkTo(f, k)
      modifies Target(Before)`NumberOfPages
      ensures Links(JoinBefore(f, k, r)) && Distinct(JoinBefore(f, k, r))
    {
      CanonicalDistinct(f);
      GrowRun(Before, Header.NumberOfPages, f, k - 1);
    }

    method GrowRun(Record: FreeRun, pages: nat, ghost f: seq<Run>, ghost m: nat)
      requires Links(f) && Distinct(f) && m < |f| && Record == Slots[f[m].start]
      modifies Record`NumberOfPages
      ensures var g := f[m := Run(f[m].start, f[m].len + pages)]; Links(g) && Distinct(g)
    {
      Record.NumberOfPages := Record.NumberOfPages + pages;
      ghost var g := f[m := Run(f[m].start, f[m].len + pages)];
      forall j | 0 <= j <= |f| ensures LinkTo(g, j) == LinkTo(f, j) && Node(g, j) == Node(f, j) {}
    }

    method InsertBlock(Header: FreeRun, Before: FreeRun?, After: FreeRun?, ghost f: seq<Run>, ghost k: nat,
                       ghost r: Run)
      requires SlotsSorted() && Links(f) && Canonical(f) && Place(f, k, r) && r.len > 0
      requires r.start < |Slots| && Header == Slots[r.start] && Header.NumberOfPages == r.len
      requires Before == LinkTo(f, k) && After == Node(f, k)
      modifies this`FreeList, Header`Next, Target(Before)`Next
      ensures var g := f[..k] + [r] + f[k..]; Links(g) && Distinct(g)
    {
      ghost var g := AddRun(f, k, r);
      InsertAt(Header, Before, After, f, k, g);
    }

    lemma AddRun(f: seq<Run>, k: nat, r: Run) returns (g: seq<Run>)
      requires SlotsSorted() && Sized(f) && Canonical(f) && Place(f, k, r) && r.len > 0
      requires r.start < |Slots| && Slots[r.start].NumberOfPages == r.len
      ensures g == f[..k] + [r] + f[k..]
      ensures Removed(g, k, f) && Sized(g) && Distinct(g) && g[k] == r
    {
      g := f[..k] + [r] + f[k..];
      PlaceSorted(f, k, r, g);
      forall j | 0 <= j < |g| ensures g[j].start < |Slots| && Slots[g[j].start].NumberOfPages == g[j].len {
        assert g[j] == if j < k then f[j] else if j == k then r else f[j - 1];
      }
      StartsDistinct(g);
    }

    /** Merges the run after into the block if they touch. */
    method JoinWithAfter(Header: FreeRun, touches: bool, After: FreeRun?, ghost g: seq<Run>, ghost m: nat)
      requires Links(g) && Distinct(g) && m < |g|
      requires Header == Slots[g[m].start] && After == Node(g, m + 1)
      requires touches <==> m + 1 < |g| && g[m].End() == g[m + 1].start
      modifies this`FreeList, Header`NumberOfPages, Header`Next
      ensures Links(JoinAfter(g, m))
    {
      if touches {
        ghost var g1 := g[m := Run(g[m].start, g[m].len + g[m + 1].len)];
        GrowRun(Header, After.NumberOfPages, g, m);
        ghost var rest := RemoveRun(g1, m + 1);
        Unlink(After, Header, g1, m + 1, rest);
        JoinAfterIs(g, m, rest);
        SizedWithout(g1, m + 1, rest);
      }
    }

    static lemma JoinAfterIs(g: seq<Run>, m: nat, rest: seq<Run>)
      requires m + 1 < |g| && g[m].End() == g[m + 1].start
      requires Removed(g[m := Run(g[m].start, g[m].len + g[m + 1].len)], m + 1, rest)
      ensures rest == JoinAfter(g, m)
    {
    }

    lemma SizedWithout(f: seq<Run>, k: nat, rest: seq<Run>)
      requires Sized(f) && Removed(f, k, rest)
      ensures Sized(rest)
    {
      assert forall j :: 0 <= j < |rest| ==> rest[j] == f[if j < k then j else j + 1];
    }

    /** Does run m end where the run after it starts? */
    method RunsTouch(Header: FreeRun, After: FreeRun?, ghost g: seq<Run>, ghost m: nat) returns (b: bool)
      requires LayoutOk() && RamOk() && Sized(g) && m < |g|
      requires Header == Slots[g[m].start] && After == Node(g, m + 1)
      ensures b <==> m + 1 < |g| && g[m].End() == g[m + 1].start
    {
      if After == null { return false; }
      var HeaderIndex := MemoryAddressToPageIndex(Header.Address, g[m].start + 1);
      var AfterIndex := MemoryAddressToPageIndex(After.Address, g[m + 1].start + 1);
      return HeaderIndex + Header.NumberOfPages == AfterIndex;
    }

    lemma NodeAfterJoin(f: seq<Run>, k: nat, r: Run)
      requires InRange(f) && k <= |f| && r.start < |Slots| && InRange(JoinBefore(f, k, r))
      ensures Node(JoinBefore(f, k, r), JoinPosition(f, k, r) + 1) == Node(f, k)
    {
    }

    /** Coalesces the block with the runs on both sides, in place. */
    method JoinBoth(Header: FreeRun, Before: FreeRun?, After: FreeRun?, ghost f: seq<Run>, ghost k: nat, ghost r: Run,
                    HeaderIndex: nat)
      requires LayoutOk() && RamOk() && SlotsSorted() && Links(f) && Canonical(f) && Place(f, k, r) && r.len > 0
      requires HeaderIndex == r.start < |Slots| && Header == Slots[r.start] && Header.NumberOfPages == r.len
      requires Before == LinkTo(f, k) && After == Node(f, k)
      modifies this`FreeList, Slots`Next, ({Header} + Target(Before))`NumberOfPages
      ensures Links(Release(f, r))
    {
      var touches := EndsAt(Before, HeaderIndex, f, k);
      var Joined := JoinWithBefore(Header, touches, Before, After, f, k, r);
      ghost var g, m := JoinBefore(f, k, r), JoinPosition(f, k, r);
      NodeAfterJoin(f, k, r);
      touches := RunsTouch(Joined, After, g, m);
      JoinWithAfter(Joined, touches, After, g, m);
      ReleaseByPosition(f, k, r);
    }

    method JoinKeepingLive(Header: FreeRun, HeaderIndex: nat, Before: FreeRun?, After: FreeRun?,
                           ghost f: seq<Run>, ghost k: nat, ghost r: Run, ghost g: seq<Run>,
                           ghost live: set<Run>)
      requires LayoutOk() && RamOk() && SlotsSorted() && Links(f) && Canonical(f) && Place(f, k, r) && r.len > 0
      requires HeaderIndex == r.start < |Slots| && Header == Slots[r.start] && Header.NumberOfPages == r.len
      requires Before == LinkTo(f, k) && After == Node(f, k)
      requires Headers(live) && g == Release(f, r)
      requires forall q :: q in live ==> q.start != r.start && (k > 0 ==> q.start != f[k - 1].start)
      modifies this`FreeList, Slots
      ensures Links(g) && Headers(live)
    {
      ghost var joined := {Header} + Target(Before);
      forall q | q in live ensures Slots[q.start] !in joined {
        SlotsDiffer(q.start, r.start);
        if k > 0 { SlotsDiffer(q.start, f[k - 1].start); }
      }
      JoinBoth(Header, Before, After, f, k, r, HeaderIndex);
      assert Headers(live) by {
        forall q | q in live ensures Slots[q.start].NumberOfPages == q.len {
          assert Slots[q.start] !in joined;
        }
      }
    }

    /** FreePages once the header record and its place are found. */
    method FreeBlock(Header: FreeRun, HeaderIndex: nat, Before: FreeRun?, After: FreeRun?, ghost k: nat, ghost r: Run,
                     ghost g: seq<Run>)
      requires Rep() && SlotsSorted() && Canonical(Free) && Place(Free, k, r) && r.len > 0
      requires HeaderIndex == r.start < |Slots| && Header == Slots[r.start] && r in Live && g == Release(Free, r)
      requires Before == LinkTo(Free, k) && After == Node(Free, k)
      requires forall q :: q in Live && q != r ==> q.start != r.start && (k > 0 ==> q.start != Free[k - 1].start)
      modifies this`FreeList, this`Free, this`Live, Slots
      ensures Rep() && Free == g && Live == old(Live) - {r}
    {
      JoinKeepingLive(Header, HeaderIndex, Before, After, Free, k, r, g, Live - {r});
      Free, Live := g, Live - {r};
    }

    lemma FreeFacts(k: nat, r: Run)
      requires Inv(State()) && r in Live && k <= |Free|
      requires (forall j :: 0 <= j < k ==> Free[j].start < r.start) && (k < |Free| ==> r.start <= Free[k].start)
      ensures Canonical(Free) && Place(Free, k, r) && r.len > 0
      ensures Inv(Freed(State(), r))
      ensures forall q :: q in Live && q != r ==> q.start != r.start && (k > 0 ==> q.start != Free[k - 1].start)
    {
      PlaceOf(Free, k, r);
      FreedInv(State(), r);
      forall q | q in Live && k > 0 ensures q.start != Free[k - 1].start {
        assert Apart(Free, q) && q.Has(q.start);
        assert Free[k - 1].Has(Free[k - 1].start);
      }
    }

    method HeaderAt(Start: nat, ghost r: Run) returns (Header: FreeRun, HeaderIndex: nat)
      requires LayoutOk() && RamOk() && r.start < |Slots| && Start == PageAddress(MemoryLayout, r.start + 1)
      ensures HeaderIndex == r.start && Header == Slots[r.start]
    {
      assert Slots[r.start].Address == Start;
      Header := Ram[Start];
      HeaderIndex := MemoryAddressToPageIndex(Header.Address, r.start + 1);
    }

    /** r is the live block whose second page PagesStart points to. */
    method FreePages(PagesStart: nat, ghost r: Run) returns (ok: bool)
      requires Valid() && PAGE_SIZE <= PagesStart < 0x1_0000_0000_0000_0000
      requires PagesStart % PAGE_SIZE == 0 ==>
        r in Live && PagesStart == PageAddress(MemoryLayout, r.start + 1) + PAGE_SIZE
      modifies this`FreeList, this`Free, this`Live, Slots
      ensures ok <==> PagesStart % PAGE_SIZE == 0
      ensures ok ==> Valid() && State() == Freed(old(State()), r)
    {
      var Start := PagesStart - PAGE_SIZE;
      if Start % PAGE_SIZE != 0 { return false; }
      var Header, HeaderIndex := HeaderAt(Start, r);
      var Before, After;
      ghost var k;
      Before, After, k := FindPlace(HeaderIndex);
      FreeFacts(k, r);
      SlotsAscend();
      FreeBlock(Header, HeaderIndex, Before, After, k, r, Release(Free, r));
      assert State() == Freed(old(State()), r);
      ok := true;
    }

    constructor (layout: seq<Region>, ram: map<nat, FreeRun>, ghost slots: seq<FreeRun>, total: nat)
      ensures MemoryLayout == layout && Ram == ram && Slots == slots && TotalPages == total
      ensures FreeList == null && Free == [] && Live == {}
    {
      MemoryLayout, Ram, Slots, TotalPages := layout, ram, slots, total;
      FreeList, Free, Live := null, [], {};
    }

    /** The list of one record. */
    lemma OneRun()
      requires |Slots| > 0 && FreeList == Slots[0] && Slots[0].Next == null
      requires Free == [Run(0, Slots[0].NumberOfPages)]
      ensures Links(Free)
    {
    }

    /** One free run of all page indices; null stands for the panic on a layout with too few pages. */
    static method InitializeAllocator(layout: seq<Region>, ram: map<nat, FreeRun>, ghost slots: seq<FreeRun>)
      returns (a: PageAllocator?)
      requires Ascending(layout) && 0 < SumPages(layout) < USIZE
      requires |slots| == SumPages(layout) - 1
      requires forall i {:trigger slots[i].Address} :: 0 <= i < |slots| ==>
        slots[i].Address == PageAddress(layout, i + 1) && slots[i].Address in ram && ram[slots[i].Address] == slots[i]
      modifies slots
      ensures a == null <==> SumPages(layout) < 3
      ensures a != null ==>
        fresh(a) && a.Valid() && a.State() == Initial(SumPages(layout) - 1) && a.MemoryLayout == layout
    {
      var TotalPages := 0;
      for i := 0 to |layout|
        invariant TotalPages + SumPages(layout[i..]) == SumPages(layout)
      {
        assert layout[i..][1..] == layout[i + 1..];
        TotalPages := TotalPages + layout[i].NumPages;
      }
      TotalPages := TotalPages - 1;
      a := new PageAllocator(layout, ram, slots, TotalPages);
      var First := a.PageIndexToMemoryAddress(0);
      if First.None? { return null; }
      assert slots[0].Address == First.value;
      a.FreeList := ram[First.value];
      a.FreeList.NumberOfPages := TotalPages;
      a.FreeList.Next := null;
      a.Free := [Run(0, TotalPages)];
      InitialInv(TotalPages);
      a.OneRun();
    }
  }
}
