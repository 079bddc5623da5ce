/** The map between page indices and physical addresses over the conventional
    memory regions (system/kernel/Allocator.c).

    Pages are numbered 0, 1, 2, ... through the regions in table order. The
    allocator hides page number 0, so page index i is page number i + 1. */
module PageMap {

  const PAGE_SIZE: nat := 4096
  const USIZE: nat := 0x1_0000_0000_0000_0000

  datatype Region = Region(Start: nat, NumPages: nat) {
    function End(): nat { Start + NumPages * PAGE_SIZE }
  }

  function SumPages(rs: seq<Region>): nat {
    if rs == [] then 0 else rs[0].NumPages + SumPages(rs[1..])
  }

  /** Regions are page aligned and listed in ascending address order without overlap. */
  ghost predicate Ascending(rs: seq<Region>) {
    && (forall i :: 0 <= i < |rs| ==> rs[i].Start % PAGE_SIZE == 0)
    && (forall i, j :: 0 <= i < j < |rs| ==> rs[i].End() <= rs[j].Start)
  }

  /** Physical address of page number n. */
  ghost function PageAddress(rs: seq<Region>, n: nat): nat
    requires n < SumPages(rs)
  {
    if n < rs[0].NumPages then rs[0].Start + n * PAGE_SIZE
    else PageAddress(rs[1..], n - rs[0].NumPages)
  }

  /** The position in the table of the region that holds page number n. */
  ghost function RegionOf(rs: seq<Region>, n: nat): nat
    requires n < SumPages(rs)
  {
    if n < rs[0].NumPages then 0 else 1 + RegionOf(rs[1..], n - rs[0].NumPages)
  }

  lemma AscendingTail(rs: seq<Region>)
    requires Ascending(rs) && rs != []
    ensures Ascending(rs[1..])
  {
    var t := rs[1..];
    forall i, j | 0 <= i < j < |t| ensures t[i].End() <= t[j].Start {
      assert t[i] == rs[i + 1] && t[j] == rs[j + 1];
    }
  }

  /** A page address is aligned and lies inside the table. */
  lemma {:induction false} PageAddressBounds(rs: seq<Region>, n: nat)
    requires Ascending(rs) && n < SumPages(rs)
    ensures PageAddress(rs, n) % PAGE_SIZE == 0
    ensures rs[0].Start + n * PAGE_SIZE <= PageAddress(rs, n)
  {
    if n >= rs[0].NumPages {
      AscendingTail(rs);
      PageAddressBounds(rs[1..], n - rs[0].NumPages);
      assert rs[1..][0] == rs[1];
    }
  }

  /** Addresses grow at least one page size per page, over any ascending layout. */
  lemma {:induction false} PageAddressMonotone(rs: seq<Region>, a: nat, b: nat)
    requires Ascending(rs) && a <= b < SumPages(rs)
    ensures PageAddress(rs, a) + (b - a) * PAGE_SIZE <= PageAddress(rs, b)
  {
    if rs[0].NumPages <= a {
      AscendingTail(rs);
      PageAddressMonotone(rs[1..], a - rs[0].NumPages, b - rs[0].NumPages);
    } else if rs[0].NumPages <= b {
      AscendingTail(rs);
      var c := b - rs[0].NumPages;
      PageAddressMonotone(rs[1..], 0, c);
      PageAddressBounds(rs[1..], 0);
      assert rs[1..][0] == rs[1];
      assert rs[0].End() <= rs[1].Start;
    }
  }

  lemma PageAddressInjective(rs: seq<Region>, a: nat, b: nat)
    requires Ascending(rs) && a < SumPages(rs) && b < SumPages(rs)
    requires PageAddress(rs, a) == PageAddress(rs, b)
    ensures a == b
  {
    if a < b { PageAddressMonotone(rs, a, b); }
    if b < a { PageAddressMonotone(rs, b, a); }
  }

  /** Nothing lies between the regions from position i to position j. */
  ghost predicate NoGap(rs: seq<Region>, i: nat, j: nat) {
    forall k :: i <= k < j && k + 1 < |rs| ==> rs[k].End() == rs[k + 1].Start
  }

  lemma {:induction false} RegionInTable(rs: seq<Region>, n: nat)
    requires n < SumPages(rs)
    ensures RegionOf(rs, n) < |rs|
  {
    if n >= rs[0].NumPages { RegionInTable(rs[1..], n - rs[0].NumPages); }
  }

  lemma NoGapTail(rs: seq<Region>, i: nat, j: nat)
    requires rs != []
    ensures NoGap(rs, i + 1, j + 1) <==> NoGap(rs[1..], i, j)
  {
    var t := rs[1..];
    assert forall k :: 0 <= k < |t| ==> t[k] == rs[k + 1];
    if NoGap(t, i, j) {
      forall k | i + 1 <= k < j + 1 && k + 1 < |rs| ensures rs[k].End() == rs[k + 1].Start {
        assert t[k - 1].End() == t[k - 1 + 1].Start;
      }
    }
    if NoGap(rs, i + 1, j + 1) {
      forall k | i <= k < j && k + 1 < |t| ensures t[k].End() == t[k + 1].Start {
        assert rs[k + 1].End() == rs[k + 1 + 1].Start;
      }
    }
  }

  /** Page number n lies n pages after the start of the first region exactly when no gap is before it. */
  lemma {:induction false} ContiguousFromStart(rs: seq<Region>, n: nat)
    requires Ascending(rs) && n < SumPages(rs)
    ensures PageAddress(rs, n) == rs[0].Start + n * PAGE_SIZE <==> NoGap(rs, 0, RegionOf(rs, n))
  {
    var t, m := rs[1..], n - rs[0].NumPages;
    if n >= rs[0].NumPages {
      AscendingTail(rs);
      ContiguousFromStart(t, m);
      PageAddressBounds(t, m);
      RegionInTable(t, m);
      assert t[0] == rs[1] && rs[0].End() <= rs[1].Start;
      NoGapTail(rs, 0, RegionOf(t, m));
      assert NoGap(rs, 0, RegionOf(rs, n)) <==> rs[0].End() == rs[1].Start && NoGap(rs, 1, RegionOf(t, m) + 1);
    }
  }

  /** Two page numbers are as far apart in memory as in number exactly when every boundary between
      their regions is one without a gap. */
  lemma {:induction false} ContiguousIffNoGap(rs: seq<Region>, a: nat, b: nat)
    requires Ascending(rs) && a <= b < SumPages(rs)
    ensures PageAddress(rs, b) == PageAddress(rs, a) + (b - a) * PAGE_SIZE
       <==> NoGap(rs, RegionOf(rs, a), RegionOf(rs, b))
  {
    var n, t := rs[0].NumPages, rs[1..];
    if n <= a {
      AscendingTail(rs);
      ContiguousIffNoGap(t, a - n, b - n);
      NoGapTail(rs, RegionOf(t, a - n), RegionOf(t, b - n));
    } else {
      ContiguousFromStart(rs, b);
    }
  }

  /** Two regions of two pages each, with a gap between them. */
  function SplitLayout(): seq<Region> { [Region(0, 2), Region(0x10000, 2)] }

  /** Page numbers 1 and 2 of that layout are not neighbours in memory, and no page follows
      page number 1. */
  lemma SplitLayoutAddresses(rs: seq<Region>)
    requires rs == SplitLayout()
    ensures Ascending(rs) && SumPages(rs) == 4
    ensures PageAddress(rs, 0) == 0 && PageAddress(rs, 1) == 4096
    ensures PageAddress(rs, 2) == 0x10000 && PageAddress(rs, 3) == 0x10000 + 4096
  {
    var t := rs[1..];
    assert t == [Region(0x10000, 2)] && t[1..] == [];
    assert SumPages(t) == 2;
  }
}
