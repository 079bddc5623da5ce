/** The OHCI periodic schedule: a bit-reversed tree of 31 placeholder endpoint
    descriptors, and interrupt endpoints hung behind five of them
    (system/kernel/Drivers/USB/OHCI.c). */
module PeriodicSchedule {
  import opened Arithmetic

  class EndpointDescriptor {
    var NextED: EndpointDescriptor?
    var Skip: bool
    ghost var Home: nat   // the placeholder it hangs behind
    ghost var Rank: nat   // how many endpoints were there first

    constructor ()
      ensures NextED == null && !Skip
    {
      NextED, Skip := null, false;
    }
  }

  function Bit(i: nat, k: nat): nat
    requires k < 4
  {
    if k == 0 then i % 2 else if k == 1 then i / 2 % 2 else if k == 2 then i / 4 % 2 else i / 8 % 2
  }

  function Row1(i: nat): nat { Bit(i, 0) * 8 + Bit(i, 1) * 4 + Bit(i, 2) * 2 + Bit(i, 3) }
  function Row2(i: nat): nat { Bit(i, 0) * 4 + Bit(i, 1) * 2 + Bit(i, 2) + 16 }
  function Row3(i: nat): nat { Bit(i, 0) * 2 + Bit(i, 1) + 16 + 8 }
  function Row4(i: nat): nat { Bit(i, 0) + 16 + 8 + 4 }

  /** The placeholder that follows placeholder s; 30 is the root. */
  function Parent(s: nat): (p: nat)
    requires s < 30
    ensures s < p <= 30
  {
    if s < 16 then 16 + s / 2
    else if s < 24 then 24 + (s - 16) / 2
    else if s < 28 then 28 + (s - 24) / 2
    else 30
  }

  lemma BitRange(i: nat, k: nat)
    requires k < 4
    ensures Bit(i, k) < 2
  {
  }

  lemma RowsAreAPath(i: nat)
    ensures Row1(i) < 16 <= Row2(i) < 24 <= Row3(i) < 28 <= Row4(i) < 30
    ensures Parent(Row1(i)) == Row2(i) && Parent(Row2(i)) == Row3(i) && Parent(Row3(i)) == Row4(i)
    ensures Parent(Row4(i)) == 30
  {
    BitRange(i, 0);
    BitRange(i, 1);
    BitRange(i, 2);
    BitRange(i, 3);
  }

  /** The last placeholder of each row is on the path of frame i exactly when the low bits are all ones. */
  lemma PathIsPeriod(i: nat)
    ensures Row1(i) == 15 <==> i % 16 == 15
    ensures Row2(i) == 23 <==> i % 8 == 7
    ensures Row3(i) == 27 <==> i % 4 == 3
    ensures Row4(i) == 29 <==> i % 2 == 1
  {
    Row1Period(i);
    Row2Period(i);
    Row3Period(i);
  }

  lemma LastFrameRows(i: nat)
    requires i == 31
    ensures Row1(i) == 15 && Row2(i) == 23 && Row3(i) == 27 && Row4(i) == 29
  {
    PathIsPeriod(i);
  }

  lemma Row1Period(i: nat)
    ensures Row1(i) == 15 <==> i % 16 == 15
  {
  }

  lemma Row2Period(i: nat)
    ensures Row2(i) == 23 <==> i % 8 == 7
  {
  }

  lemma Row3Period(i: nat)
    ensures Row3(i) == 27 <==> i % 4 == 3
  {
  }

  /** The row indices are the low bits of the frame number in reverse, behind the rows before. */
  lemma RowsAreReversed(i: nat)
    ensures var r := Row1(i);
      r % 2 == i / 8 % 2 && r / 2 % 2 == i / 4 % 2 && r / 4 % 2 == i / 2 % 2 && r / 8 == i % 2
    ensures var r := Row2(i) - 16; r % 2 == i / 4 % 2 && r / 2 % 2 == i / 2 % 2 && r / 4 == i % 2
    ensures var r := Row3(i) - 24; r % 2 == i / 2 % 2 && r / 2 == i % 2
    ensures Row4(i) - 28 == i % 2
  {
    BitsOf(Bit(i, 0), Bit(i, 1), Bit(i, 2), Bit(i, 3));
    BitsOf(0, Bit(i, 0), Bit(i, 1), Bit(i, 2));
    BitsOf(0, 0, Bit(i, 0), Bit(i, 1));
  }

  function Reverse(s: nat): nat
    requires s < 30
  {
    if s < 16 then Row1(s) else if s < 24 then Row2(s - 16) - 16 else if s < 28 then Row3(s - 24) - 24 else s - 28
  }

  /** Bit reversal is its own inverse, so every placeholder is on the path of some frame below 16. */
  lemma RowsCover(s: nat)
    requires s < 30
    ensures var i := Reverse(s);
      i < 16 && s == if s < 16 then Row1(i) else if s < 24 then Row2(i) else if s < 28 then Row3(i) else Row4(i)
  {
    if s < 16 {
      Row1Twice(s);
    } else if s < 24 {
      Row2Twice(s - 16);
    } else if s < 28 {
      Row3Twice(s - 24);
    } else {
      BitsOf(0, 0, 0, s - 28);
    }
  }

  lemma Row1Twice(t: nat)
    requires t < 16
    ensures Row1(t) < 16 && Row1(Row1(t)) == t
  {
    Reconstruct(t);
    BitsOf(Bit(t, 0), Bit(t, 1), Bit(t, 2), Bit(t, 3));
  }

  lemma Row2Twice(t: nat)
    requires t < 8
    ensures 16 <= Row2(t) < 24 && Row2(Row2(t) - 16) == t + 16
  {
    Reconstruct(t);
    BitsOf(0, Bit(t, 0), Bit(t, 1), Bit(t, 2));
  }

  lemma Row3Twice(t: nat)
    requires t < 4
    ensures 24 <= Row3(t) < 28 && Row3(Row3(t) - 24) == t + 24
  {
    Reconstruct(t);
    BitsOf(0, 0, Bit(t, 0), Bit(t, 1));
  }

  lemma BitsOf(b3: nat, b2: nat, b1: nat, b0: nat)
    requires b0 < 2 && b1 < 2 && b2 < 2 && b3 < 2
    ensures var i := 8 * b3 + 4 * b2 + 2 * b1 + b0;
      Bit(i, 0) == b0 && Bit(i, 1) == b1 && Bit(i, 2) == b2 && Bit(i, 3) == b3
  {
  }

  lemma Reconstruct(t: nat)
    requires t < 16
    ensures t == 8 * Bit(t, 3) + 4 * Bit(t, 2) + 2 * Bit(t, 1) + Bit(t, 0)
  {
  }

  /** The period class of an interrupt endpoint: a power of two not above its interval. */
  function PeriodOf(interval: nat): nat {
    if interval >= 16 then 16
    else if interval >= 8 then 8
    else if interval >= 4 then 4
    else if interval >= 2 then 2
    else if interval >= 1 then 1
    else 8
  }

  /** The placeholder that the endpoints of a period class hang behind. */
  function ClassNode(period: nat): nat {
    if period == 16 then 15 else if period == 8 then 23 else if period == 4 then 27 else if period == 2 then 29 else 30
  }

  /** i mod P is P - 1, with the divisor written out for each period class. */
  predicate LastInPeriod(i: nat, P: nat) {
    if P == 16 then i % 16 == 15 else if P == 8 then i % 8 == 7
    else if P == 4 then i % 4 == 3 else P == 2 ==> i % 2 == 1
  }

  lemma Residues(frame: nat)
    ensures var r := frame % 32;
      r % 16 == frame % 16 && r % 8 == frame % 8 && r % 4 == frame % 4 && r % 2 == frame % 2
  {
    var q, r := frame / 32, frame % 32;
    DivMod(2 * q + r / 16, r % 16, 16);
    DivMod(4 * q + r / 8, r % 8, 8);
    DivMod(8 * q + r / 4, r % 4, 4);
    DivMod(16 * q + r / 2, r % 2, 2);
  }

  lemma LastInPeriodIff(frame: nat, P: nat)
    requires P in {1, 2, 4, 8, 16}
    ensures LastInPeriod(frame % 32, P) <==> frame % P == P - 1
  {
    Residues(frame);
  }

  lemma Cut<T>(a: seq<T>, b: seq<T>, p: nat)
    requires p < |a|
    ensures a[p..] + b == [a[p]] + (a[p + 1..] + b)
  {
  }

  lemma Shift<T>(a: seq<T>, x: T, r: seq<T>)
    requires r != [] && r[0] == x
    ensures a + r == (a + [x]) + r[1..]
    ensures forall t: seq<T> :: r == [x] + t ==> r[1..] == t
  {
  }

  class Schedule {
    const Storage: seq<EndpointDescriptor>          // PeriodicEDStorage
    const Heads: array<EndpointDescriptor?>         // HCCA EndpointDescriptors
    var Period16MSIndex: nat
    var Period8MSIndex: nat
    var Period4MSIndex: nat
    var Period2MSIndex: nat
    var Period1MSIndex: nat

    /** The endpoints hung behind each placeholder, nearest first. */
    ghost var Hung: seq<seq<EndpointDescriptor>>

    ghost predicate Shape()
      reads this`Hung
    {
      && |Storage| == 31 && Heads.Length == 32 && |Hung| == 31
      && (forall s, t :: 0 <= s < t < 31 ==> Storage[s] != Storage[t])
    }

    ghost function Up(s: nat): EndpointDescriptor?
      requires Shape() && s < 31
      reads this`Hung
    {
      if s == 30 then null else Storage[Parent(s)]
    }

    /** What follows the first j endpoints behind placeholder s. */
    ghost function After(s: nat, j: nat): EndpointDescriptor?
      requires Shape() && s < 31 && j <= |Hung[s]|
      reads this`Hung
    {
      if j < |Hung[s]| then Hung[s][j] else Up(s)
    }

    ghost predicate Segment(s: nat)
      requires Shape() && s < 31
      reads this`Hung, Storage, Hung[s]
    {
      && Storage[s].NextED == After(s, 0)
      && (forall j {:trigger Hung[s][j].NextED} :: 0 <= j < |Hung[s]| ==> Hung[s][j].NextED == After(s, j + 1))
    }

    ghost predicate Placed(s: nat)
      requires Shape() && s < 31
      reads this`Hung, Storage, Hung[s]
    {
      && Storage[s].Home == 31
      && (forall j {:trigger Hung[s][j]} :: 0 <= j < |Hung[s]| ==>
            Hung[s][j].Home == s && Hung[s][j].Rank == |Hung[s]| - 1 - j)
    }

    ghost function Hangers(): set<EndpointDescriptor>
      requires Shape()
      reads this`Hung
    {
      set s, j | 0 <= s < 31 && 0 <= j < |Hung[s]| :: Hung[s][j]
    }

    ghost predicate Valid()
      reads this, Heads, Storage, if Shape() then Hangers() else {}
    {
      && Shape()
      && (forall i :: 0 <= i < 32 ==> Heads[i] == Storage[Row1(i)])
      && (forall s :: 0 <= s < 31 ==> Segment(s) && Placed(s))
      && Period16MSIndex == 15 && Period8MSIndex == 23 && Period4MSIndex == 27
      && Period2MSIndex == 29 && Period1MSIndex == 30
    }

    constructor (storage: seq<EndpointDescriptor>, heads: array<EndpointDescriptor?>)
      ensures Storage == storage && Heads == heads && Hung == seq(31, _ => [])
    {
      Storage, Heads := storage, heads;
      Hung := seq(31, _ => []);
      Period16MSIndex, Period8MSIndex, Period4MSIndex, Period2MSIndex, Period1MSIndex := 0, 0, 0, 0, 0;
    }

    ghost predicate LinkedUp(s: nat)
      requires Shape() && s < 30
      reads this`Hung, Storage`NextED
    {
      Storage[s].NextED == Storage[Parent(s)]
    }

    ghost predicate OnPath(i: nat)
      requires Shape()
      reads this`Hung, Storage`NextED
    {
      RowsAreAPath(i);
      LinkedUp(Row1(i)) && LinkedUp(Row2(i)) && LinkedUp(Row3(i)) && LinkedUp(Row4(i))
    }

    method Link(child: nat, parent: nat)
      requires Shape() && child < 30 && parent == Parent(child)
      modifies Storage`NextED
      ensures forall s :: 0 <= s < 30 && (s == child || old(LinkedUp(s))) ==> LinkedUp(s)
      ensures Storage[30].NextED == old(Storage[30].NextED)
    {
      Storage[child].NextED := Storage[parent];
    }

    method LinkPath(r1: nat, r2: nat, r3: nat, r4: nat, r5: nat)
      requires Shape() && r1 < 30 && r2 < 30 && r3 < 30 && r4 < 30
      requires r2 == Parent(r1) && r3 == Parent(r2) && r4 == Parent(r3) && r5 == Parent(r4)
      modifies Storage`NextED
      ensures LinkedUp(r1) && LinkedUp(r2) && LinkedUp(r3) && LinkedUp(r4)
      ensures forall s :: 0 <= s < 30 && old(LinkedUp(s)) ==> LinkedUp(s)
      ensures Storage[30].NextED == old(Storage[30].NextED)
    {
      Link(r1, r2);
      Link(r2, r3);
      Link(r3, r4);
      Link(r4, r5);
    }

    /** One iteration of the tree construction: the path of frame i. */
    method LinkFrame(i: nat)
      requires Shape() && i < 32
      modifies this`Period16MSIndex, this`Period8MSIndex, this`Period4MSIndex, this`Period2MSIndex, this`Period1MSIndex
      modifies Heads, Storage`NextED
      ensures Heads[i] == Storage[Row1(i)] && (forall j :: 0 <= j < 32 && j != i ==> Heads[j] == old(Heads[j]))
      ensures OnPath(i) && (forall s :: 0 <= s < 30 && old(LinkedUp(s)) ==> LinkedUp(s))
      ensures Storage[30].NextED == old(Storage[30].NextED)
      ensures Period16MSIndex == Row1(i) && Period8MSIndex == Row2(i) && Period4MSIndex == Row3(i)
      ensures Period2MSIndex == Row4(i) && Period1MSIndex == 30
    {
      RowsAreAPath(i);
      LinkRows(i, Row1(i), Row2(i), Row3(i), Row4(i), 16 + 8 + 4 + 2);
    }

    method LinkRows(i: nat, Row1Index: nat, Row2Index: nat, Row3Index: nat, Row4Index: nat, Row5Index: nat)
      requires Shape() && i < 32 && Row1Index < 30 && Row2Index < 30 && Row3Index < 30 && Row4Index < 30
      requires Row2Index == Parent(Row1Index) && Row3Index == Parent(Row2Index) && Row4Index == Parent(Row3Index)
      requires Row5Index == Parent(Row4Index)
      modifies this`Period16MSIndex, this`Period8MSIndex, this`Period4MSIndex, this`Period2MSIndex, this`Period1MSIndex
      modifies Heads, Storage`NextED
      ensures Heads[i] == Storage[Row1Index] && (forall j :: 0 <= j < 32 && j != i ==> Heads[j] == old(Heads[j]))
      ensures LinkedUp(Row1Index) && LinkedUp(Row2Index) && LinkedUp(Row3Index) && LinkedUp(Row4Index)
      ensures forall s :: 0 <= s < 30 && old(LinkedUp(s)) ==> LinkedUp(s)
      ensures Storage[30].NextED == old(Storage[30].NextED)
      ensures Period16MSIndex == Row1Index && Period8MSIndex == Row2Index && Period4MSIndex == Row3Index
      ensures Period2MSIndex == Row4Index && Period1MSIndex == Row5Index
    {
      RecordRows(i, Row1Index, Row2Index, Row3Index, Row4Index, Row5Index);
      LinkPath(Row1Index, Row2Index, Row3Index, Row4Index, Row5Index);
    }

    method RecordRows(i: nat, Row1Index: nat, Row2Index: nat, Row3Index: nat, Row4Index: nat, Row5Index: nat)
      requires Shape() && i < 32 && Row1Index < 30
      modifies this`Period16MSIndex, this`Period8MSIndex, this`Period4MSIndex, this`Period2MSIndex
      modifies this`Period1MSIndex, Heads
      ensures Heads[i] == Storage[Row1Index] && (forall j :: 0 <= j < 32 && j != i ==> Heads[j] == old(Heads[j]))
      ensures Period16MSIndex == Row1Index && Period8MSIndex == Row2Index && Period4MSIndex == Row3Index
      ensures Period2MSIndex == Row4Index && Period1MSIndex == Row5Index
    {
      Heads[i] := Storage[Row1Index];
      Period16MSIndex, Period8MSIndex, Period4MSIndex := Row1Index, Row2Index, Row3Index;
      Period2MSIndex, Period1MSIndex := Row4Index, Row5Index;
    }

    lemma AllLinked()
      requires Shape() && forall j :: 0 <= j < 32 ==> OnPath(j)
      ensures forall s :: 0 <= s < 30 ==> LinkedUp(s)
    {
      forall s | 0 <= s < 30 ensures LinkedUp(s) {
        RowsCover(s);
        assert OnPath(Reverse(s));
      }
    }

    /** The tree construction of InitializeUSBController. */
    method BuildTree()
      requires Shape() && Hung == seq(31, _ => [])
      requires Storage[30].NextED == null
      modifies this, Heads, Storage
      ensures Valid() && Hung == old(Hung)
      ensures forall s :: 0 <= s < 31 ==> Storage[s].Skip
    {
      for i := 0 to 32
        invariant Shape() && Hung == old(Hung) && Storage[30].NextED == null
        invariant forall j :: 0 <= j < i ==> Heads[j] == Storage[Row1(j)] && OnPath(j)
        invariant i == 32 ==> Period16MSIndex == Row1(31) && Period8MSIndex == Row2(31) && Period4MSIndex == Row3(31)
        invariant i == 32 ==> Period2MSIndex == Row4(31) && Period1MSIndex == 30
      {
        LinkFrame(i);
      }
      AllLinked();
      LastFrameRows(31);
      SkipPlaceholders();
      EmptySegments();
    }

    lemma EmptySegments()
      requires Shape() && Hung == seq(31, _ => []) && Storage[30].NextED == null
      requires forall s :: 0 <= s < 30 ==> LinkedUp(s)
      requires forall s :: 0 <= s < 31 ==> Storage[s].Home == 31
      ensures forall s :: 0 <= s < 31 ==> Segment(s) && Placed(s)
    {
      forall s | 0 <= s < 31 ensures Segment(s) && Placed(s) {
        assert s < 30 ==> LinkedUp(s);
      }
    }

    method SkipPlaceholders()
      requires Shape()
      modifies Storage`Skip, Storage`Home
      ensures forall s :: 0 <= s < 31 ==> Storage[s].Skip && Storage[s].Home == 31
    {
      for i := 0 to 31
        invariant forall s :: 0 <= s < i ==> Storage[s].Skip && Storage[s].Home == 31
      {
        Storage[i].Skip := true;
        Storage[i].Home := 31;
      }
    }

    /** The list insertion of OHCIDetectHIDDevice: a new endpoint goes right behind the
        placeholder of its period class. */
    method HangEndpoint(Interval: nat) returns (ED: EndpointDescriptor)
      requires Valid()
      modifies this`Hung, Storage
      ensures Valid() && fresh(ED)
      ensures var c := ClassNode(PeriodOf(Interval)); Hung == old(Hung)[c := [ED] + old(Hung)[c]]
    {
      ED := new EndpointDescriptor();
      var Index;
      if Interval >= 16 {
        Index := Period16MSIndex;
      } else if Interval >= 8 {
        Index := Period8MSIndex;
      } else if Interval >= 4 {
        Index := Period4MSIndex;
      } else if Interval >= 2 {
        Index := Period2MSIndex;
      } else if Interval >= 1 {
        Index := Period1MSIndex;
      } else {
        Index := Period8MSIndex;
      }
      InsertBehind(ED, Index);
    }

    method InsertBehind(ED: EndpointDescriptor, Index: nat)
      requires Valid() && Index < 31 && ED !in Storage && ED !in Hangers()
      modifies this`Hung, {Storage[Index]}`NextED, ED
      ensures Valid() && Hung == old(Hung)[Index := [ED] + old(Hung)[Index]]
    {
      assert Segment(Index) && Placed(Index);
      forall s, j | 0 <= s < 31 && 0 <= j < |Hung[s]| ensures Hung[s][j] != ED && Hung[s][j] != Storage[Index] {
        assert Hung[s][j] in Hangers();
        assert Placed(s) && Placed(Index);
      }
      ED.NextED := Storage[Index].NextED;
      Storage[Index].NextED := ED;
      ED.Home, ED.Rank := Index, |Hung[Index]|;
      Hung := Hung[Index := [ED] + Hung[Index]];
      forall s | 0 <= s < 31 ensures Segment(s) && Placed(s) {
        assert old(Segment(s)) && old(Placed(s));
      }
    }

    /** The endpoints met from placeholder s on, placeholders included. */
    ghost function Tail(s: nat): seq<EndpointDescriptor>
      requires Shape() && s < 31
      reads this
      decreases 31 - s
    {
      [Storage[s]] + Hung[s] + (if s == 30 then [] else Tail(Parent(s)))
    }

    /** The periodic list of a frame; the controller uses the low five bits of the frame number. */
    ghost function FrameList(frame: nat): seq<EndpointDescriptor>
      requires Shape()
      reads this
    {
      RowsAreAPath(frame % 32);
      Tail(Row1(frame % 32))
    }

    /** The endpoint at position p of placeholder s's own stretch. */
    ghost function At(s: nat, p: nat): EndpointDescriptor
      requires Shape() && s < 31 && p <= |Hung[s]|
      reads this
    {
      if p == 0 then Storage[s] else Hung[s][p - 1]
    }

    ghost function Rest(s: nat, p: nat): seq<EndpointDescriptor>
      requires Shape() && s < 31 && p <= |Hung[s]|
      reads this
    {
      ([Storage[s]] + Hung[s])[p..] + (if s == 30 then [] else Tail(Parent(s)))
    }

    lemma RestStep(s: nat, p: nat)
      requires Shape() && s < 31 && p <= |Hung[s]|
      ensures Rest(s, p) == [At(s, p)] +
        (if p < |Hung[s]| then Rest(s, p + 1) else if s == 30 then [] else Rest(Parent(s), 0))
    {
      var own, up := [Storage[s]] + Hung[s], if s == 30 then [] else Tail(Parent(s));
      Cut(own, up, p);
      if p == |Hung[s]| { assert own[p + 1..] + up == up; }
      if s < 30 { RestIsTail(Parent(s)); }
    }

    lemma RestIsTail(s: nat)
      requires Shape() && s < 31
      ensures Rest(s, 0) == Tail(s)
    {
      assert ([Storage[s]] + Hung[s])[0..] == [Storage[s]] + Hung[s];
    }

    lemma StepNext(s: nat, p: nat)
      requires Shape() && s < 31 && p <= |Hung[s]| && Segment(s)
      ensures At(s, p).NextED ==
        if p < |Hung[s]| then At(s, p + 1) else if s == 30 then null else At(Parent(s), 0)
    {
    }

    /** What one step of the walk leaves to visit, and where it goes. */
    lemma Advance(s: nat, p: nat, visited: seq<EndpointDescriptor>, list: seq<EndpointDescriptor>)
      requires Shape() && s < 31 && p <= |Hung[s]| && Segment(s) && visited + Rest(s, p) == list
      ensures |visited| < |list|
      ensures var v, next := visited + [At(s, p)], At(s, p).NextED;
        if p < |Hung[s]| then next == At(s, p + 1) && v + Rest(s, p + 1) == list
        else if s < 30 then next == At(Parent(s), 0) && v + Rest(Parent(s), 0) == list
        else next == null && v == list
    {
      StepNext(s, p);
      RestStep(s, p);
      Shift(visited, At(s, p), Rest(s, p));
    }

    /** The walk stands at position p behind placeholder s, and what is left makes up the list. */
    ghost predicate Visiting(current: EndpointDescriptor?, s: nat, p: nat, visited: seq<EndpointDescriptor>,
                             list: seq<EndpointDescriptor>)
      requires Shape() && s < 31 && p <= |Hung[s]|
      reads this
    {
      if current == null then visited == list else current == At(s, p) && visited + Rest(s, p) == list
    }

    /** The controller's walk over one frame's list, by NextED until 0. */
    method ServiceFrame(frame: nat) returns (visited: seq<EndpointDescriptor>)
      requires Valid()
      ensures visited == FrameList(frame)
    {
      RowsAreAPath(frame % 32);
      var Current := Heads[frame % 32];
      visited := [];
      ghost var s, p, list := Row1(frame % 32), 0, FrameList(frame);
      RestIsTail(s);
      while Current != null
        invariant s < 31 && p <= |Hung[s]| && Visiting(Current, s, p, visited, list)
        decreases |list| - |visited|
      {
        assert Segment(s);
        Advance(s, p, visited, list);
        visited := visited + [Current];
        Current := Current.NextED;
        if p < |Hung[s]| {
          p := p + 1;
        } else if s < 30 {
          s, p := Parent(s), 0;
        }
      }
    }

    ghost predicate OnRoute(s: nat, c: nat)
      requires s < 31
      decreases 31 - s
    {
      s == c || (s < 30 && OnRoute(Parent(s), c))
    }

    /** An endpoint hung behind c is met from s exactly when c lies on the way to the root. */
    lemma {:induction false} MetIffOnRoute(s: nat, c: nat, ED: EndpointDescriptor)
      requires Valid() && s < 31 && c < 31 && ED in Hung[c]
      ensures ED in Tail(s) <==> OnRoute(s, c)
      decreases 31 - s
    {
      assert Placed(s) && Placed(c);
      if s < 30 { MetIffOnRoute(Parent(s), c, ED); }
    }

    lemma RouteOfFrame(i: nat, c: nat)
      requires c < 31
      ensures Row1(i) < 16
      ensures OnRoute(Row1(i), c) <==> c in {Row1(i), Row2(i), Row3(i), Row4(i), 30}
    {
      RowsAreAPath(i);
      assert OnRoute(Row4(i), c) <==> c == Row4(i) || c == 30;
      assert OnRoute(Row3(i), c) <==> c == Row3(i) || OnRoute(Row4(i), c);
      assert OnRoute(Row2(i), c) <==> c == Row2(i) || OnRoute(Row3(i), c);
    }

    /** An endpoint of period class P is serviced in frame n exactly when n mod P is P - 1. */
    lemma ServicedIff(frame: nat, Interval: nat, ED: EndpointDescriptor)
      requires Valid() && ED in Hung[ClassNode(PeriodOf(Interval))]
      ensures ED in FrameList(frame) <==> frame % PeriodOf(Interval) == PeriodOf(Interval) - 1
    {
      var c := ClassNode(PeriodOf(Interval));
      RowsAreAPath(frame % 32);
      RouteIsPeriod(frame % 32, PeriodOf(Interval));
      LastInPeriodIff(frame, PeriodOf(Interval));
      MetIffOnRoute(Row1(frame % 32), c, ED);
    }

    /** An endpoint is in exactly one of the lists of any P consecutive frames, P being its period. */
    lemma PolledOncePerPeriod(first: nat, Interval: nat, ED: EndpointDescriptor) returns (n: nat)
      requires Valid() && ED in Hung[ClassNode(PeriodOf(Interval))]
      ensures first <= n < first + PeriodOf(Interval) && ED in FrameList(n)
      ensures forall m: nat :: first <= m < first + PeriodOf(Interval) && ED in FrameList(m) ==> m == n
    {
      var P := PeriodOf(Interval);
      OneSlotPerPeriod(P, first);
      n :| first <= n < first + P && n % P == P - 1;
      ServicedIff(n, Interval, ED);
      forall m: nat | first <= m < first + P && ED in FrameList(m) ensures m == n {
        ServicedIff(m, Interval, ED);
      }
    }

    lemma RouteIsPeriod(i: nat, P: nat)
      requires P in {1, 2, 4, 8, 16}
      ensures Row1(i) < 16
      ensures OnRoute(Row1(i), ClassNode(P)) <==> LastInPeriod(i, P)
    {
      RouteOfFrame(i, ClassNode(P));
      RowsAreAPath(i);
      PathIsPeriod(i);
    }

    /** A member of the list from s is a placeholder from s on or hangs behind one. */
    lemma {:induction false} TailMembers(s: nat)
      requires Valid() && s < 31
      ensures forall e :: e in Tail(s) ==> (e.Home == 31 && e in Storage[s..]) || s <= e.Home < 31
      decreases 31 - s
    {
      assert Placed(s);
      if s < 30 {
        TailMembers(Parent(s));
        assert forall e :: e in Storage[Parent(s)..] ==> e in Storage[s..];
      }
    }

    /** Nothing is met twice in one frame. */
    lemma {:induction false} TailDistinct(s: nat)
      requires Valid() && s < 31
      ensures forall a, b :: 0 <= a < b < |Tail(s)| ==> Tail(s)[a] != Tail(s)[b]
      decreases 31 - s
    {
      assert Placed(s);
      var own := [Storage[s]] + Hung[s];
      assert forall a, b :: 0 <= a < b < |own| ==> own[a].Home != own[b].Home || own[a].Rank != own[b].Rank;
      if s < 30 {
        TailDistinct(Parent(s));
        TailMembers(Parent(s));
        var up := Tail(Parent(s));
        forall a, b | 0 <= a < |own| && 0 <= b < |up| ensures own[a] != up[b] {
          assert up[b] in up;
          if up[b].Home == 31 && a == 0 {
            assert Storage[s] !in Storage[Parent(s)..];
          }
        }
      }
    }
  }

  /** The period class is the largest power of two that fits both the interval and 16; an interval of 0
      counts as 8. */
  lemma PeriodIsLargestPower(interval: nat)
    ensures interval == 0 ==> PeriodOf(interval) == 8
    ensures interval >= 1 ==>
      var p := PeriodOf(interval);
      p in {1, 2, 4, 8, 16} && p <= interval && (p < 16 ==> interval < 2 * p)
  {
  }

  /** Among any P consecutive frames exactly one has the residue P - 1. */
  lemma OneSlotPerPeriod(P: nat, first: nat)
    requires P > 0
    ensures exists n: nat :: first <= n < first + P && n % P == P - 1
    ensures forall m: nat, n: nat ::
      first <= m < first + P && first <= n < first + P && m % P == P - 1 && n % P == P - 1 ==> m == n
  {
    var n := first + (P - 1 - first % P);
    assert n == first / P * P + (P - 1);
    DivMod(first / P, P - 1, P);
    forall m: nat, k: nat | first <= m < k < first + P ensures !(m % P == P - 1 && k % P == P - 1) {
      if m % P == k % P { SameResidue(m, k, P); }
    }
  }

  lemma SameResidue(m: nat, k: nat, P: nat)
    requires P > 0 && m < k && m % P == k % P
    ensures m + P <= k
  {
    var d := k / P - m / P;
    assert k - m == d * P;
    if d >= 1 { MultipleGrows(d, P); }
  }
}
