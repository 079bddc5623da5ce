/** The done-queue protocol between the OHCI controller and the interrupt handler, for
    the interrupt endpoints of HID devices and the one control endpoint
    (system/kernel/Drivers/USB/OHCI.c).

    The controller retires transfer descriptors onto its private list (HcDoneHead) and,
    while WritebackDoneHead is clear, hands the list over in the HCCA. The handler takes
    the HCCA list, walks it and re-arms each endpoint. Both sides are steps of one state
    machine, and they interleave freely. */
module DoneQueue {

  /** The address of a transfer descriptor. Each HID device owns one real descriptor and
      one dummy; the control endpoint owns an array. */
  datatype TD = Nil | Hid(device: nat) | Dummy(device: nat) | Ctl(index: nat)

  /** Where the interrupt handler is: outside, at the loop head, or about to write HeadPointer. */
  datatype Handler = Idle | AtLoop(DoneQueueHead: TD) | Rearming(CompletedTD: TD, NextCompletedTD: TD)

  datatype State = State(
    devices: set<nat>,          // active HID devices
    address: map<TD, bv32>,     // physical address of each HID descriptor and dummy
    nextTD: map<TD, TD>,        // NextTD of every descriptor
    condition: map<TD, nat>,    // ConditionCode of every descriptor
    head: map<nat, bv32>,       // HeadPointer.Value of each HID endpoint; TailPointer is the dummy
    controlHead: TD,
    controlTail: TD,
    controlHalted: bool,        // Halted of the control endpoint; nothing ever clears it
    hcDoneHead: TD,             // the controller's register
    hccaDoneHead: TD,           // HCCA DoneHead
    writeback: bool,            // InterruptStatus.WritebackDoneHead
    handler: Handler,
    transferComplete: bool,     // gOHCITransferComplete
    reports: seq<nat>,          // devices whose report was delivered, in order
    successes: seq<nat>         // devices whose descriptor was retired without error, in order
  ) {
    function Next(t: TD): TD { if t in nextTD then nextTD[t] else Nil }
    function Code(t: TD): nat { if t in condition then condition[t] else 0 }
    function Address(t: TD): bv32 { if t in address then address[t] else 0 }
    function Word(d: nat): bv32 { if d in head then head[d] else 0 }

    /** The descriptor that the endpoint's HeadPointer points to. */
    function Head(d: nat): TD {
      if Pointer(Word(d)) == Address(Hid(d)) then Hid(d)
      else if Pointer(Word(d)) == Address(Dummy(d)) then Dummy(d)
      else Nil
    }

    predicate Carry(d: nat) { CarryBit(Word(d)) }
    predicate Halted(d: nat) { HaltedBit(Word(d)) }
  }

  // ----- The HeadPointer word -----

  function Pointer(w: bv32): bv32 { w & 0xFFFF_FFF0 }
  predicate CarryBit(w: bv32) { w & 2 != 0 }
  predicate HaltedBit(w: bv32) { w & 1 != 0 }
  predicate Aligned(a: bv32) { a & 0xF == 0 }

  /** What the handler writes: the descriptor's address and one bit of the current word. */
  function RearmedWord(td: bv32, currentHead: bv32): bv32 {
    (td & 0xFFFF_FFF0) | (currentHead & 0x0000_0002)
  }

  /** The masks of the handler point the word to the descriptor, clear Halted and keep the carry. */
  lemma RearmedWordDecodes(td: bv32, currentHead: bv32)
    requires Aligned(td)
    ensures var w := RearmedWord(td, currentHead);
      Pointer(w) == td && CarryBit(w) == CarryBit(currentHead) && !HaltedBit(w)
  {
  }

  /** The pointer is the word without its low four bits, bit 1 is the carry and bit 0 Halted. */
  lemma HeadPointerBits(w: bv32)
    ensures Pointer(w) == w & 0xFFFF_FFF0
    ensures CarryBit(w) <==> w & 2 == 2
    ensures HaltedBit(w) <==> w & 1 == 1
  {
  }

  // ----- Controller steps -----

  /** Retire the descriptor at the head of a HID endpoint with a condition code. */
  ghost predicate RetireHid(s: State, s': State, d: nat, code: nat, toggle: bool) {
    var t, w := s.Head(d), s'.Word(d);
    && d in s.devices && !s.Halted(d) && t == Hid(d)
    && Pointer(w) == s.Address(s.Next(t)) && CarryBit(w) == toggle && HaltedBit(w) == (code != 0)
    && s' == s.(head := s.head[d := w],
                nextTD := s.nextTD[t := s.hcDoneHead],
                condition := s.condition[t := code],
                hcDoneHead := t,
                successes := if code == 0 then s.successes + [d] else s.successes)
  }

  /** Retire the descriptor at the head of the control endpoint; an error halts it. */
  ghost predicate RetireControl(s: State, s': State, code: nat) {
    !s.controlHalted && s.controlHead != s.controlTail && s' == ControlRetired(s, code)
  }

  function ControlRetired(s: State, code: nat): State {
    var t := s.controlHead;
    s.(controlHead := s.Next(t),
       controlHalted := code != 0,
       nextTD := s.nextTD[t := s.hcDoneHead],
       condition := s.condition[t := code],
       hcDoneHead := t)
  }

  /** Hand the done list over, once the previous one is acknowledged. */
  ghost predicate WriteBack(s: State, s': State) {
    && !s.writeback && s.hcDoneHead != Nil
    && s' == s.(hccaDoneHead := s.hcDoneHead, hcDoneHead := Nil, writeback := true)
  }

  ghost predicate ControllerStep(s: State, s': State) {
    || (exists d, code, toggle :: RetireHid(s, s', d, code, toggle))
    || (exists code :: RetireControl(s, s', code))
    || WriteBack(s, s')
  }

  // ----- Handler steps -----

  function Enter(s: State): State
    requires s.handler.Idle? && s.writeback
  {
    s.(handler := AtLoop(s.hccaDoneHead), hccaDoneHead := Nil)
  }

  /** The loop body up to the write of CompletedTD->NextTD. */
  function Complete(s: State): State
    requires s.handler.AtLoop? && s.handler.DoneQueueHead != Nil
  {
    var t := s.handler.DoneQueueHead;
    var found := t.Hid? && t.device in s.devices;
    s.(handler := if found then Rearming(t, s.Next(t)) else AtLoop(s.Next(t)),
       transferComplete := s.transferComplete || t.Ctl?,
       reports := if found && s.Code(t) == 0 then s.reports + [t.device] else s.reports,
       nextTD := if found then s.nextTD[t := Dummy(t.device)] else s.nextTD)
  }

  /** The write of HeadPointer. */
  function Rearm(s: State): State
    requires s.handler.Rearming? && s.handler.CompletedTD.Hid?
  {
    var t := s.handler.CompletedTD;
    s.(handler := AtLoop(s.handler.NextCompletedTD),
       head := s.head[t.device := RearmedWord(s.Address(t), s.Word(t.device))])
  }

  function Leave(s: State): State
    requires s.handler == AtLoop(Nil)
  {
    s.(handler := Idle, writeback := false)
  }

  ghost predicate HandlerStep(s: State, s': State) {
    || (s.handler.Idle? && s.writeback && s' == Enter(s))
    || (s.handler.AtLoop? && s.handler.DoneQueueHead != Nil && s' == Complete(s))
    || (s.handler.Rearming? && s.handler.CompletedTD.Hid? && s' == Rearm(s))
    || (s.handler == AtLoop(Nil) && s' == Leave(s))
  }

  // ----- Submitting a control transfer -----

  /** The chain Ctl(0), ..., Ctl(n - 1) with dummy Ctl(n). */
  function ChainLinks(next: map<TD, TD>, n: nat): map<TD, TD> {
    if n == 0 then next[Ctl(0) := Nil] else ChainLinks(next, n - 1)[Ctl(n - 1) := Ctl(n)][Ctl(n) := Nil]
  }

  /** The descriptors of the chain and its dummy. */
  predicate Rebuilt(t: TD, n: nat) { t.Ctl? && t.index <= n }

  /** The new chain is linked and handed over, and HCCA DoneHead is cleared. Only the pointer field of
      the endpoint's HeadPointer is written, so a halted endpoint stays halted. */
  function Submit(s: State, n: nat): State {
    s.(nextTD := ChainLinks(s.nextTD, n), controlHead := Ctl(0), controlTail := Ctl(n), hccaDoneHead := Nil,
       transferComplete := false)
  }

  // ----- The invariant -----

  /** A request has a setup and a status descriptor, and at most sixty-one data descriptors. */
  predicate ChainLength(n: nat) { 2 <= n <= 63 }

  /** The three done lists, and what the controller still executes of the control queue, spelled out. */
  datatype Lists = Lists(hc: seq<TD>, hcca: seq<TD>, walk: seq<TD>, control: seq<TD>)

  ghost predicate Spells(s: State, first: TD, l: seq<TD>, last: TD) {
    && first == (if l == [] then last else l[0])
    && (forall i {:trigger s.Next(l[i])} :: 0 <= i < |l| ==> s.Next(l[i]) == if i + 1 < |l| then l[i + 1] else last)
  }

  ghost predicate NoRepeats(l: seq<TD>) {
    forall i, j :: 0 <= i < j < |l| ==> l[i] != l[j]
  }

  ghost predicate Disjoint(a: seq<TD>, b: seq<TD>) {
    forall t :: t in a ==> t !in b
  }

  ghost predicate Shape(l: Lists) {
    && NoRepeats(l.hc) && NoRepeats(l.hcca) && NoRepeats(l.walk) && NoRepeats(l.control)
    && Disjoint(l.hc, l.hcca) && Disjoint(l.hc, l.walk) && Disjoint(l.hcca, l.walk)
    && Disjoint(l.control, l.hc) && Disjoint(l.control, l.hcca) && Disjoint(l.control, l.walk)
  }

  ghost predicate Done(l: Lists, t: TD) {
    t in l.hc || t in l.hcca || t in l.walk
  }

  ghost predicate Kinds(s: State, l: Lists) {
    && (forall t :: Done(l, t) ==> t.Ctl? || (t.Hid? && t.device in s.devices))
    && (forall t :: t in l.control ==> t.Ctl?)
    && s.controlTail.Ctl? && s.controlTail !in l.control
  }

  /** The zeroed descriptors end every list. */
  ghost predicate Tables(s: State) {
    && (forall d :: d in s.devices ==> Placed(s, d) && s.Next(Dummy(d)) == Nil)
    && s.Next(s.controlTail) == Nil && s.Next(Nil) == Nil
  }

  /** The descriptor and the dummy of a device are different aligned structures. */
  ghost predicate Placed(s: State, d: nat) {
    Aligned(s.Address(Hid(d))) && Aligned(s.Address(Dummy(d))) && s.Address(Hid(d)) != s.Address(Dummy(d))
  }

  ghost predicate Pointers(s: State, l: Lists) {
    && Spells(s, s.hcDoneHead, l.hc, Nil)
    && Spells(s, s.hccaDoneHead, l.hcca, Nil)
    && Queued(s, l.control)
    && (match s.handler
        case Idle => l.walk == []
        case AtLoop(t) => s.writeback && l.hcca == [] && Spells(s, t, l.walk, Nil)
        case Rearming(c, t) =>
          && s.writeback && l.hcca == [] && Spells(s, t, l.walk, Nil)
          && c.Hid? && c.device in s.devices && !Done(l, c))
    && (!s.writeback ==> l.hcca == [])
  }

  ghost predicate Queued(s: State, control: seq<TD>) {
    if s.controlHalted then control == [] else Spells(s, s.controlHead, control, s.controlTail)
  }

  ghost predicate Held(s: State, d: nat) { s.handler.Rearming? && s.handler.CompletedTD == Hid(d) }

  /** A HID descriptor is queued on its endpoint, on one done list, or in the handler's
      hands; in the last two cases the endpoint is empty, head = tail = dummy. */
  ghost predicate Owned(s: State, l: Lists, d: nat) {
    if Done(l, Hid(d)) || Held(s, d) then s.Head(d) == Dummy(d) && (Held(s, d) ==> s.Next(Hid(d)) == Dummy(d))
    else s.Head(d) == Hid(d) && s.Next(Hid(d)) == Dummy(d) && !s.Halted(d)
  }

  /** A HID descriptor that no list leads to: the endpoint is empty for good. */
  ghost predicate Lost(s: State, l: Lists, d: nat) {
    s.Head(d) == Dummy(d) && !Done(l, Hid(d)) && !Held(s, d)
  }

  ghost function Pending(s: State, l: Lists, d: nat): nat {
    if Done(l, Hid(d)) && s.Code(Hid(d)) == 0 then 1 else 0
  }

  /** Completions and reports balance: every successful completion is reported or pending. */
  ghost predicate Balanced(s: State, l: Lists, d: nat) {
    multiset(s.successes)[d] == multiset(s.reports)[d] + Pending(s, l, d)
  }

  ghost predicate Devices(s: State, l: Lists, lost: set<nat>) {
    && lost <= s.devices
    && (forall d :: d in s.devices ==> Settled(s, l, lost, d))
    && (forall d :: d !in s.devices ==> d !in s.successes && d !in s.reports)
  }

  ghost predicate Inv(s: State, l: Lists, lost: set<nat>) {
    Shape(l) && Kinds(s, l) && Pointers(s, l) && Tables(s) && Devices(s, l, lost)
  }

  lemma TablesFrame(s: State, s': State)
    requires Tables(s) && s'.devices == s.devices && s'.address == s.address && s'.controlTail == s.controlTail
    requires s.controlTail.Ctl?
    requires forall t :: t == Nil || t.Dummy? || t == s.controlTail ==> s'.Next(t) == s.Next(t)
    ensures Tables(s')
  {
    forall d | d in s.devices ensures Placed(s', d) && s'.Next(Dummy(d)) == Nil { assert Placed(s, d); }
  }

  /** What is said of one device. */
  ghost predicate Settled(s: State, l: Lists, lost: set<nat>, d: nat) {
    if d in lost then Lost(s, l, d) else Owned(s, l, d) && Balanced(s, l, d)
  }

  /** A step that does not touch the device keeps what is said of it. */
  lemma DeviceFrame(s: State, s': State, l: Lists, l': Lists, lost: set<nat>, d: nat)
    requires Settled(s, l, lost, d)
    requires s'.Head(d) == s.Head(d) && s'.Halted(d) == s.Halted(d)
    requires s'.Next(Hid(d)) == s.Next(Hid(d)) && s'.Code(Hid(d)) == s.Code(Hid(d))
    requires (Done(l', Hid(d)) <==> Done(l, Hid(d))) && (Held(s', d) <==> Held(s, d))
    requires multiset(s'.reports)[d] == multiset(s.reports)[d] && multiset(s'.successes)[d] == multiset(s.successes)[d]
    ensures Settled(s', l', lost, d)
  {
  }

  /** A step that moves no HID descriptor and reports nothing. */
  lemma DevicesFrame(s: State, s': State, l: Lists, l': Lists, lost: set<nat>)
    requires Devices(s, l, lost)
    requires s'.devices == s.devices && s'.address == s.address && s'.head == s.head
    requires s'.reports == s.reports && s'.successes == s.successes
    requires forall d :: s'.Next(Hid(d)) == s.Next(Hid(d)) && s'.Code(Hid(d)) == s.Code(Hid(d))
    requires forall d :: (Done(l', Hid(d)) <==> Done(l, Hid(d))) && (Held(s', d) <==> Held(s, d))
    ensures Devices(s', l', lost)
  {
    forall d | d in s.devices ensures Settled(s', l', lost, d) {
      assert Settled(s, l, lost, d);
      HeadFrame(s, s', d);
      DeviceFrame(s, s', l, l', lost, d);
    }
  }

  // ----- List surgery -----

  lemma SpellsFrame(s: State, s': State, first: TD, l: seq<TD>, last: TD)
    requires Spells(s, first, l, last) && forall t :: t in l ==> s'.Next(t) == s.Next(t)
    ensures Spells(s', first, l, last)
  {
  }

  lemma QueuedFrame(s: State, s': State, control: seq<TD>)
    requires Queued(s, control) && forall t :: t in control ==> s'.Next(t) == s.Next(t)
    requires s'.controlHead == s.controlHead && s'.controlTail == s.controlTail && s'.controlHalted == s.controlHalted
    ensures Queued(s', control)
  {
    if !s.controlHalted { SpellsFrame(s, s', s.controlHead, control, s.controlTail); }
  }

  lemma SpellsPush(s: State, s': State, t: TD, l: seq<TD>, last: TD)
    requires Spells(s, s'.Next(t), l, last) && t !in l && forall u :: u in l ==> s'.Next(u) == s.Next(u)
    ensures Spells(s', t, [t] + l, last)
  {
    var m := [t] + l;
    forall i | 0 <= i < |m| ensures s'.Next(m[i]) == if i + 1 < |m| then m[i + 1] else last {
      if i > 0 { assert m[i] == l[i - 1]; }
    }
  }

  lemma SpellsPop(s: State, first: TD, l: seq<TD>, last: TD)
    requires Spells(s, first, l, last) && l != []
    ensures first == l[0] && Spells(s, s.Next(first), l[1..], last)
  {
    var m := l[1..];
    forall i | 0 <= i < |m| ensures s.Next(m[i]) == if i + 1 < |m| then m[i + 1] else last {
      assert m[i] == l[i + 1];
    }
  }

  lemma PopMembers(l: seq<TD>)
    requires l != [] && NoRepeats(l)
    ensures NoRepeats(l[1..]) && forall t :: t in l[1..] <==> t in l && t != l[0]
  {
    forall t | t in l && t != l[0] ensures t in l[1..] {
      var i :| 0 <= i < |l| && l[i] == t;
      assert l[1..][i - 1] == t;
    }
  }

  // ----- Controller steps keep the invariant -----

  lemma WalkFrame(s: State, s': State, l: Lists, l': Lists)
    requires Pointers(s, l) && s'.handler == s.handler && l'.walk == l.walk
    requires forall t :: t in l.walk ==> s'.Next(t) == s.Next(t)
    ensures s.handler.AtLoop? ==> Spells(s', s'.handler.DoneQueueHead, l'.walk, Nil)
    ensures s.handler.Rearming? ==> Spells(s', s'.handler.NextCompletedTD, l'.walk, Nil)
  {
  }

  /** The word the controller writes points to the dummy. */
  lemma RetiredHead(s: State, s': State, d: nat, code: nat, toggle: bool)
    requires RetireHid(s, s', d, code, toggle) && Placed(s, d) && s.Next(Hid(d)) == Dummy(d)
    ensures s'.Head(d) == Dummy(d) && s'.Carry(d) == toggle && s'.Halted(d) == (code != 0)
  {
    AddressFrame(s, s', d);
  }

  lemma RetiredOther(s: State, s': State, d: nat, code: nat, toggle: bool, e: nat)
    requires RetireHid(s, s', d, code, toggle) && e != d
    ensures s'.Head(e) == s.Head(e) && s'.Carry(e) == s.Carry(e) && s'.Halted(e) == s.Halted(e)
  {
    WordUpdated(s, s', d, s'.Word(d), e);
    AddressFrame(s, s', e);
    WordFrame(s, s', e);
  }

  lemma AddressFrame(s: State, s': State, e: nat)
    requires s'.address == s.address
    ensures s'.Address(Hid(e)) == s.Address(Hid(e)) && s'.Address(Dummy(e)) == s.Address(Dummy(e))
  {
  }

  lemma WordUpdated(s: State, s': State, d: nat, w: bv32, e: nat)
    requires s'.head == s.head[d := w]
    ensures s'.Word(e) == if e == d then w else s.Word(e)
  {
  }

  lemma RetireHidSettled(s: State, s': State, l: Lists, lost: set<nat>, d: nat, code: nat, toggle: bool, e: nat)
    requires RetireHid(s, s', d, code, toggle) && Placed(s, d) && d !in lost && Owned(s, l, d) && Settled(s, l, lost, d)
    requires Settled(s, l, lost, e)
    ensures Settled(s', l.(hc := [Hid(d)] + l.hc), lost, e)
  {
    var l' := l.(hc := [Hid(d)] + l.hc);
    assert forall u :: Done(l', u) <==> Done(l, u) || u == Hid(d);
    if e == d {
      RetiredHead(s, s', d, code, toggle);
    } else {
      RetiredOther(s, s', d, code, toggle, e);
      DeviceFrame(s, s', l, l', lost, e);
    }
  }

  lemma RetireHidInv(s: State, s': State, l: Lists, lost: set<nat>, d: nat, code: nat, toggle: bool)
    returns (l': Lists)
    requires Inv(s, l, lost) && RetireHid(s, s', d, code, toggle)
    ensures Inv(s', l', lost) && d !in lost && l'.walk == l.walk
  {
    var t := Hid(d);
    assert Settled(s, l, lost, d) && Placed(s, d);
    assert d !in lost && s.Head(d) == t;
    l' := l.(hc := [t] + l.hc);
    RetireLists(s, s', l, l', t);
    TablesFrame(s, s');
    forall e | e in s.devices ensures Settled(s', l', lost, e) {
      RetireHidSettled(s, s', l, lost, d, code, toggle, e);
    }
  }

  /** Pushing a descriptor that is on no done list onto the controller's list. */
  lemma RetireLists(s: State, s': State, l: Lists, l': Lists, t: TD)
    requires Shape(l) && Pointers(s, l) && !Done(l, t) && t !in l'.control
    requires !(s.handler.Rearming? && s.handler.CompletedTD == t)
    requires l'.hc == [t] + l.hc && l'.hcca == l.hcca && l'.walk == l.walk
    requires NoRepeats(l'.control)
    requires if s'.controlHalted then l'.control == [] else Spells(s, s'.controlHead, l'.control, s'.controlTail)
    requires forall u :: u in l'.control ==> u in l.control
    requires s'.nextTD == s.nextTD[t := s.hcDoneHead] && s'.hcDoneHead == t
    requires s'.hccaDoneHead == s.hccaDoneHead && s'.writeback == s.writeback && s'.handler == s.handler
    requires s'.devices == s.devices
    ensures Shape(l') && Pointers(s', l')
    ensures forall u :: Done(l', u) <==> Done(l, u) || u == t
  {
    SpellsPush(s, s', t, l.hc, Nil);
    SpellsFrame(s, s', s.hccaDoneHead, l.hcca, Nil);
    if !s'.controlHalted { SpellsFrame(s, s', s'.controlHead, l'.control, s'.controlTail); }
    WalkFrame(s, s', l, l');
  }

  lemma RetireControlInv(s: State, s': State, l: Lists, lost: set<nat>, code: nat) returns (l': Lists)
    requires Inv(s, l, lost) && RetireControl(s, s', code)
    ensures Inv(s', l', lost) && l'.walk == l.walk
  {
    var t := s.controlHead;
    SpellsPop(s, t, l.control, s.controlTail);
    PopMembers(l.control);
    assert t in l.control;
    l' := l.(hc := [t] + l.hc, control := if code != 0 then [] else l.control[1..]);
    RetireLists(s, s', l, l', t);
    TablesFrame(s, s');
    DevicesFrame(s, s', l, l', lost);
  }

  lemma WriteBackInv(s: State, s': State, l: Lists, lost: set<nat>) returns (l': Lists)
    requires Inv(s, l, lost) && WriteBack(s, s')
    ensures Inv(s', l', lost) && l'.walk == l.walk
  {
    l' := l.(hc := [], hcca := l.hc);
    assert forall u :: Done(l', u) <==> Done(l, u);
    SpellsFrame(s, s', s.hcDoneHead, l.hc, Nil);
    QueuedFrame(s, s', l.control);
    TablesFrame(s, s');
    DevicesFrame(s, s', l, l', lost);
  }

  // ----- Handler steps keep the invariant -----

  lemma EnterInv(s: State, l: Lists, lost: set<nat>) returns (l': Lists)
    requires Inv(s, l, lost) && s.handler.Idle? && s.writeback
    ensures Inv(Enter(s), l', lost) && l' == l.(hcca := [], walk := l.hcca)
  {
    var s' := Enter(s);
    l' := l.(hcca := [], walk := l.hcca);
    assert forall u :: Done(l', u) <==> Done(l, u);
    SpellsFrame(s, s', s.hcDoneHead, l.hc, Nil);
    SpellsFrame(s, s', s.hccaDoneHead, l.hcca, Nil);
    QueuedFrame(s, s', l.control);
    TablesFrame(s, s');
    DevicesFrame(s, s', l, l', lost);
  }

  lemma CompleteSettled(s: State, l: Lists, lost: set<nat>, e: nat)
    requires s.handler.AtLoop? && s.handler.DoneQueueHead != Nil && l.walk != [] && s.handler.DoneQueueHead == l.walk[0]
    requires Shape(l) && Kinds(s, l) && Settled(s, l, lost, e)
    ensures Settled(Complete(s), l.(walk := l.walk[1..]), lost, e)
  {
    var t := s.handler.DoneQueueHead;
    var l' := l.(walk := l.walk[1..]);
    assert t in l.walk && Done(l, t);
    PopMembers(l.walk);
    assert forall u :: Done(l', u) <==> Done(l, u) && u != t;
    if t == Hid(e) {
      CompleteOwn(s, l, l', lost, e);
    } else {
      CompleteReports(s, t, e);
      CompleteOther(s, l, l', lost, e);
    }
  }

  lemma CompleteOwn(s: State, l: Lists, l': Lists, lost: set<nat>, e: nat)
    requires s.handler == AtLoop(Hid(e)) && e in s.devices
    requires Settled(s, l, lost, e) && Done(l, Hid(e)) && !Done(l', Hid(e))
    ensures Settled(Complete(s), l', lost, e)
  {
    var s' := Complete(s);
    assert s'.Word(e) == s.Word(e);
    assert multiset(s'.reports)[e] == multiset(s.reports)[e] + if s.Code(Hid(e)) == 0 then 1 else 0;
  }

  lemma CompleteOther(s: State, l: Lists, l': Lists, lost: set<nat>, e: nat)
    requires s.handler.AtLoop? && s.handler.DoneQueueHead != Nil && s.handler.DoneQueueHead != Hid(e)
    requires Settled(s, l, lost, e) && (Done(l', Hid(e)) <==> Done(l, Hid(e)))
    requires multiset(Complete(s).reports)[e] == multiset(s.reports)[e]
    ensures Settled(Complete(s), l', lost, e)
  {
    var s' := Complete(s);
    CompleteFrame(s, e);
    DeviceFrame(s, s', l, l', lost, e);
  }

  lemma CompleteFrame(s: State, e: nat)
    requires s.handler.AtLoop? && s.handler.DoneQueueHead != Nil && s.handler.DoneQueueHead != Hid(e)
    ensures var s' := Complete(s);
      && s'.Head(e) == s.Head(e) && s'.Halted(e) == s.Halted(e) && s'.Next(Hid(e)) == s.Next(Hid(e))
      && s'.Code(Hid(e)) == s.Code(Hid(e)) && !Held(s', e) && s'.successes == s.successes
  {
    CompleteFields(s);
    HeadFrame(s, Complete(s), e);
    CodeFrame(s, Complete(s), Hid(e));
    CompleteNext(s, Hid(e));
  }

  lemma CompleteFields(s: State)
    requires s.handler.AtLoop? && s.handler.DoneQueueHead != Nil
    ensures var s' := Complete(s);
      && s'.head == s.head && s'.address == s.address && s'.devices == s.devices
      && s'.condition == s.condition && s'.successes == s.successes
  {
  }

  lemma CompleteNext(s: State, u: TD)
    requires s.handler.AtLoop? && s.handler.DoneQueueHead != Nil && s.handler.DoneQueueHead != u
    ensures Complete(s).Next(u) == s.Next(u)
  {
  }

  lemma CodeFrame(s: State, s': State, u: TD)
    requires s'.condition == s.condition
    ensures s'.Code(u) == s.Code(u)
  {
  }

  /** An endpoint is what its word and the addresses say. */
  lemma HeadFrame(s: State, s': State, e: nat)
    requires s'.head == s.head && s'.address == s.address
    ensures s'.Head(e) == s.Head(e) && s'.Halted(e) == s.Halted(e) && s'.Carry(e) == s.Carry(e)
  {
    assert s'.Word(e) == s.Word(e);
  }

  /** An endpoint whose word is not written is unchanged. */
  lemma WordFrame(s: State, s': State, e: nat)
    requires s'.Word(e) == s.Word(e)
    requires s'.Address(Hid(e)) == s.Address(Hid(e)) && s'.Address(Dummy(e)) == s.Address(Dummy(e))
    ensures s'.Head(e) == s.Head(e) && s'.Halted(e) == s.Halted(e) && s'.Carry(e) == s.Carry(e)
  {
  }

  lemma CompleteLists(s: State, l: Lists) returns (l': Lists)
    requires Shape(l) && Kinds(s, l) && Pointers(s, l) && s.handler.AtLoop? && s.handler.DoneQueueHead != Nil
    ensures l.walk != [] && l.walk[0] == s.handler.DoneQueueHead && l' == l.(walk := l.walk[1..])
    ensures Shape(l') && Kinds(Complete(s), l') && Pointers(Complete(s), l')
    ensures forall u :: Done(l', u) <==> Done(l, u) && u != l.walk[0]
  {
    var s' := Complete(s);
    var t := s.handler.DoneQueueHead;
    l' := l.(walk := l.walk[1..]);
    assert t in l.walk;
    PopMembers(l.walk);
    SpellsPop(s, t, l.walk, Nil);
    SpellsFrame(s, s', s.hcDoneHead, l.hc, Nil);
    SpellsFrame(s, s', s.Next(t), l'.walk, Nil);
    QueuedFrame(s, s', l.control);
  }

  lemma CompleteInv(s: State, l: Lists, lost: set<nat>) returns (l': Lists)
    requires Inv(s, l, lost) && s.handler.AtLoop? && s.handler.DoneQueueHead != Nil
    ensures l.walk != [] && l.walk[0] == s.handler.DoneQueueHead
    ensures Inv(Complete(s), l', lost) && l' == l.(walk := l.walk[1..])
  {
    l' := CompleteLists(s, l);
    assert Done(l, l.walk[0]);
    TablesFrame(s, Complete(s));
    forall e | e in s.devices ensures Settled(Complete(s), l', lost, e) {
      CompleteSettled(s, l, lost, e);
    }
  }

  lemma RearmSettled(s: State, l: Lists, lost: set<nat>, e: nat)
    requires s.handler.Rearming? && s.handler.CompletedTD.Hid? && Settled(s, l, lost, e)
    requires Aligned(s.Address(s.handler.CompletedTD)) && !Done(l, s.handler.CompletedTD)
    ensures Settled(Rearm(s), l, lost, e)
    ensures Held(s, e) ==> e !in lost && Rearm(s).Head(e) == Hid(e) && !Rearm(s).Halted(e)
  {
    if Held(s, e) {
      RearmHead(s, e);
    } else {
      RearmOther(s, e);
      DeviceFrame(s, Rearm(s), l, l, lost, e);
    }
  }

  lemma RearmOther(s: State, e: nat)
    requires s.handler.Rearming? && s.handler.CompletedTD.Hid? && !Held(s, e)
    ensures var s' := Rearm(s); s'.Head(e) == s.Head(e) && s'.Halted(e) == s.Halted(e)
  {
    var t := s.handler.CompletedTD;
    WordUpdated(s, Rearm(s), t.device, RearmedWord(s.Address(t), s.Word(t.device)), e);
    AddressFrame(s, Rearm(s), e);
    WordFrame(s, Rearm(s), e);
  }

  /** The word the handler writes points to the descriptor again. */
  lemma RearmHead(s: State, e: nat)
    requires Held(s, e) && Aligned(s.Address(Hid(e)))
    ensures var s' := Rearm(s); s'.Head(e) == Hid(e) && !s'.Halted(e) && s'.Carry(e) == s.Carry(e)
  {
    RearmedWordDecodes(s.Address(Hid(e)), s.Word(e));
    assert Rearm(s).Word(e) == RearmedWord(s.Address(Hid(e)), s.Word(e));
  }

  lemma RearmInv(s: State, l: Lists, lost: set<nat>)
    requires Inv(s, l, lost) && s.handler.Rearming?
    ensures s.handler.CompletedTD.Hid? && s.handler.CompletedTD.device !in lost
    ensures Inv(Rearm(s), l, lost)
    ensures var s', d := Rearm(s), s.handler.CompletedTD.device;
      s'.Head(d) == Hid(d) && !s'.Halted(d) && s'.Carry(d) == s.Carry(d)
  {
    var s' := Rearm(s);
    var d := s.handler.CompletedTD.device;
    assert Placed(s, d) && Settled(s, l, lost, d) && Held(s, d);
    RearmHead(s, d);
    SpellsFrame(s, s', s.hcDoneHead, l.hc, Nil);
    SpellsFrame(s, s', s.handler.NextCompletedTD, l.walk, Nil);
    QueuedFrame(s, s', l.control);
    TablesFrame(s, s');
    forall e | e in s.devices ensures Settled(s', l, lost, e) {
      RearmSettled(s, l, lost, e);
    }
    RearmSettled(s, l, lost, d);
  }

  lemma LeaveInv(s: State, l: Lists, lost: set<nat>)
    requires Inv(s, l, lost) && s.handler == AtLoop(Nil)
    ensures Inv(Leave(s), l, lost) && l.walk == []
  {
    var s' := Leave(s);
    if l.walk != [] { assert Done(l, l.walk[0]); }
    SpellsFrame(s, s', s.hcDoneHead, l.hc, Nil);
    QueuedFrame(s, s', l.control);
    TablesFrame(s, s');
    DevicesFrame(s, s', l, l, lost);
  }

  // ----- Attaching a device and submitting a control transfer -----

  /** The arming of a new endpoint at the end of OHCIDetectHIDDevice; a and b are the pages of
      its descriptor and its dummy. */
  function Attach(s: State, d: nat, a: bv32, b: bv32): State {
    s.(devices := s.devices + {d}, address := s.address[Hid(d) := a][Dummy(d) := b], head := s.head[d := a | 2],
       nextTD := s.nextTD[Hid(d) := Dummy(d)][Dummy(d) := Nil])
  }

  lemma AttachTables(s: State, d: nat, a: bv32, b: bv32)
    requires Tables(s) && s.controlTail.Ctl? && Aligned(a) && Aligned(b) && a != b
    ensures Tables(Attach(s, d, a, b))
  {
    forall e | e in s.devices && e != d ensures Placed(Attach(s, d, a, b), e) { assert Placed(s, e); }
  }

  lemma AttachOther(s: State, d: nat, a: bv32, b: bv32, e: nat)
    requires e != d
    ensures var s' := Attach(s, d, a, b); s'.Head(e) == s.Head(e) && s'.Halted(e) == s.Halted(e)
  {
    var s' := Attach(s, d, a, b);
    WordUpdated(s, s', d, a | 2, e);
    AttachAddress(s, d, a, b, e);
    WordFrame(s, s', e);
  }

  lemma AttachAddress(s: State, d: nat, a: bv32, b: bv32, e: nat)
    requires e != d
    ensures var s' := Attach(s, d, a, b);
      s'.Address(Hid(e)) == s.Address(Hid(e)) && s'.Address(Dummy(e)) == s.Address(Dummy(e))
  {
  }

  lemma AttachSettled(s: State, l: Lists, lost: set<nat>, d: nat, a: bv32, b: bv32, e: nat)
    requires d !in s.devices && d !in lost && Aligned(a) && a != b && d !in s.reports && d !in s.successes
    requires !Done(l, Hid(d)) && !Held(s, d) && (e != d ==> Settled(s, l, lost, e))
    ensures Settled(Attach(s, d, a, b), l, lost, e)
  {
    var s' := Attach(s, d, a, b);
    ArmedWord(a);
    if e != d {
      AttachOther(s, d, a, b, e);
      DeviceFrame(s, s', l, l, lost, e);
    }
  }

  lemma AttachInv(s: State, l: Lists, lost: set<nat>, d: nat, a: bv32, b: bv32)
    requires Inv(s, l, lost) && d !in s.devices && Aligned(a) && Aligned(b) && a != b
    ensures Inv(Attach(s, d, a, b), l, lost)
    ensures Attach(s, d, a, b).Carry(d)
  {
    var s' := Attach(s, d, a, b);
    ArmedWord(a);
    assert !Done(l, Hid(d)) && !Held(s, d);
    SpellsFrame(s, s', s.hcDoneHead, l.hc, Nil);
    SpellsFrame(s, s', s.hccaDoneHead, l.hcca, Nil);
    QueuedFrame(s, s', l.control);
    WalkFrame(s, s', l, l);
    AttachTables(s, d, a, b);
    forall e | e in s'.devices ensures Settled(s', l, lost, e) {
      AttachSettled(s, l, lost, d, a, b, e);
    }
  }

  lemma ArmedWord(a: bv32)
    requires Aligned(a)
    ensures Pointer(a | 2) == a && CarryBit(a | 2) && !HaltedBit(a | 2)
  {
  }

  lemma {:induction false} ChainLinked(next: map<TD, TD>, n: nat)
    ensures forall t :: t in next ==> t in ChainLinks(next, n)
    ensures forall t :: t in ChainLinks(next, n) && !Rebuilt(t, n) ==> t in next && ChainLinks(next, n)[t] == next[t]
    ensures forall i :: 0 <= i < n ==> Ctl(i) in ChainLinks(next, n) && ChainLinks(next, n)[Ctl(i)] == Ctl(i + 1)
    ensures Ctl(n) in ChainLinks(next, n) && ChainLinks(next, n)[Ctl(n)] == Nil
  {
    if n > 0 { ChainLinked(next, n - 1); }
  }

  /** The lists after a submission. */
  function Resubmitted(s: State, l: Lists, n: nat): Lists {
    Lists(DoneAfter(l.hc, n), [], [], if s.controlHalted then [] else seq(n, (i: nat) => Ctl(i)))
  }

  lemma SubmitSettled(s: State, l: Lists, lost: set<nat>, n: nat, e: nat)
    requires Shape(l) && Settled(s, l, lost, e) && s.handler.Idle? && l.walk == []
    ensures var dropped := Hid(e) in l.hcca || Behind(l.hc, n, e);
      Settled(Submit(s, n), Resubmitted(s, l, n), if dropped then lost + {e} else lost, e)
  {
    var s' := Submit(s, n);
    SubmitNext(s, n, Hid(e));
    HeadFrame(s, s', e);
    DoneAfterHas(l.hc, n, e);
    if Hid(e) in l.hcca || Behind(l.hc, n, e) {
      assert Done(l, Hid(e)) && !Done(Resubmitted(s, l, n), Hid(e));
    } else {
      DeviceFrame(s, s', l, Resubmitted(s, l, n), lost, e);
    }
  }

  lemma SubmitNext(s: State, n: nat, t: TD)
    ensures !Rebuilt(t, n) ==> Submit(s, n).Next(t) == s.Next(t)
    ensures Rebuilt(t, n) ==> Submit(s, n).Next(t) == if t.index < n then Ctl(t.index + 1) else Nil
  {
    ChainLinked(s.nextTD, n);
  }

  lemma SubmitLists(s: State, l: Lists, n: nat)
    requires Shape(l) && Kinds(s, l) && Pointers(s, l) && s.handler.Idle? && (s.controlHalted || !Tangled(l.hc, n))
    ensures var l' := Resubmitted(s, l, n); Shape(l') && Kinds(Submit(s, n), l') && Pointers(Submit(s, n), l')
  {
    var s', l' := Submit(s, n), Resubmitted(s, l, n);
    DoneAfterSpells(s, n, s.hcDoneHead, l.hc);
    DoneAfterNoRepeats(l.hc, n);
    DoneAfterMembers(l.hc, n);
    forall i: nat | i <= n ensures s'.Next(Ctl(i)) == if i < n then Ctl(i + 1) else Nil { SubmitNext(s, n, Ctl(i)); }
  }

  lemma SubmitTables(s: State, n: nat)
    requires Tables(s)
    ensures Tables(Submit(s, n))
  {
    var s' := Submit(s, n);
    SubmitNext(s, n, Nil);
    SubmitNext(s, n, Ctl(n));
    forall d | d in s.devices ensures Placed(s', d) && s'.Next(Dummy(d)) == Nil {
      assert Placed(s, d);
      SubmitNext(s, n, Dummy(d));
    }
  }

  /** The devices that a submission loses. */
  ghost function Dropped(s: State, l: Lists, n: nat): set<nat> {
    set d | d in s.devices && (Hid(d) in l.hcca || Behind(l.hc, n, d))
  }

  /** Submitting drops the HCCA list and what stands behind the first rebuilt descriptor of the
      controller's list, and with them, for good, every HID descriptor there. The invariant is kept
      unless that descriptor is one the controller has still to execute. */
  lemma SubmitInv(s: State, l: Lists, lost: set<nat>, n: nat) returns (l': Lists)
    requires Inv(s, l, lost) && s.handler.Idle? && (s.controlHalted || !Tangled(l.hc, n))
    ensures Inv(Submit(s, n), l', lost + Dropped(s, l, n)) && l' == Resubmitted(s, l, n)
  {
    var s', lost' := Submit(s, n), lost + Dropped(s, l, n);
    l' := Resubmitted(s, l, n);
    SubmitLists(s, l, n);
    SubmitTables(s, n);
    forall e | e in s.devices ensures Settled(s', l', lost', e) {
      SubmitSettled(s, l, lost, n, e);
    }
  }

  // ----- The lists are determined by the state -----

  lemma FirstIsNotNil(l: seq<TD>)
    requires l != [] && Nil !in l
    ensures l[0] != Nil
  {
    assert l[0] in l;
  }

  /** A list that starts at address 0 is empty. */
  lemma NilIsEmpty(s: State, l: Lists, lost: set<nat>)
    requires Inv(s, l, lost)
    ensures s.hcDoneHead == Nil ==> l.hc == []
    ensures s.hccaDoneHead == Nil ==> l.hcca == []
  {
    assert !Done(l, Nil);
    if l.hc != [] { FirstIsNotNil(l.hc); }
    if l.hcca != [] { FirstIsNotNil(l.hcca); }
  }

  lemma {:induction false} SpellsUnique(s: State, first: TD, a: seq<TD>, b: seq<TD>)
    requires Spells(s, first, a, Nil) && Spells(s, first, b, Nil)
    requires Nil !in a && Nil !in b
    ensures a == b
    decreases |a|
  {
    if a != [] && b != [] {
      SpellsPop(s, first, a, Nil);
      SpellsPop(s, first, b, Nil);
      SpellsUnique(s, s.Next(first), a[1..], b[1..]);
      assert a == [a[0]] + a[1..] && b == [b[0]] + b[1..];
    } else if a != [] {
      FirstIsNotNil(a);
    } else if b != [] {
      FirstIsNotNil(b);
    }
  }

  // ----- What a submission loses -----

  /** R holds every pointer the state starts from. */
  ghost predicate Roots(s: State, R: set<TD>) {
    && Nil in R && s.hcDoneHead in R && s.hccaDoneHead in R && (s.controlHalted || s.controlHead in R)
    && (forall d :: d in s.devices ==> s.Head(d) in R && Dummy(d) in R)
    && (match s.handler
        case Idle => true
        case AtLoop(t) => t in R
        case Rearming(c, t) => c in R && t in R)
  }

  /** And everything that NextTD leads to from there. */
  ghost predicate Closed(s: State, R: set<TD>) {
    Roots(s, R) && forall t :: t in R ==> s.Next(t) in R
  }

  /** Neither the controller nor the handler can get to the device's descriptor. */
  ghost predicate Unreachable(s: State, d: nat) {
    exists R :: Closed(s, R) && Hid(d) !in R
  }

  /** A rebuilt descriptor stands before the device's on the list. */
  ghost predicate Behind(l: seq<TD>, n: nat, d: nat) {
    exists i, j :: 0 <= i < j < |l| && Rebuilt(l[i], n) && l[j] == Hid(d)
  }

  function ChainFrom(i: nat, n: nat): seq<TD>
    requires i <= n
  {
    seq(n + 1 - i, j requires 0 <= j => Ctl(i + j))
  }

  /** What HcDoneHead leads to after a submission: the list up to the first rebuilt descriptor,
      and from there the new chain. */
  function DoneAfter(l: seq<TD>, n: nat): seq<TD> {
    if l == [] then []
    else if Rebuilt(l[0], n) then ChainFrom(l[0].index, n)
    else [l[0]] + DoneAfter(l[1..], n)
  }

  /** The first rebuilt descriptor of the list is one of the new chain, and not its dummy. */
  predicate Tangled(l: seq<TD>, n: nat) {
    l != [] && if Rebuilt(l[0], n) then l[0].index < n else Tangled(l[1..], n)
  }

  lemma {:induction false} DoneAfterMembers(l: seq<TD>, n: nat)
    ensures forall t :: t in DoneAfter(l, n) ==> Rebuilt(t, n) || t in l
    ensures !Tangled(l, n) ==> forall i: nat :: i < n ==> Ctl(i) !in DoneAfter(l, n)
    decreases |l|
  {
    if l != [] && !Rebuilt(l[0], n) { DoneAfterMembers(l[1..], n); }
  }

  lemma {:induction false} DoneAfterNoRepeats(l: seq<TD>, n: nat)
    requires NoRepeats(l)
    ensures NoRepeats(DoneAfter(l, n))
    decreases |l|
  {
    if l != [] && !Rebuilt(l[0], n) {
      PopMembers(l);
      DoneAfterNoRepeats(l[1..], n);
      DoneAfterMembers(l[1..], n);
      var rest := DoneAfter(l[1..], n);
      assert l[0] !in rest;
      forall i, j | 0 <= i < j < |[l[0]] + rest| ensures ([l[0]] + rest)[i] != ([l[0]] + rest)[j] {
        assert ([l[0]] + rest)[j] == rest[j - 1];
      }
    }
  }

  lemma {:induction false} DoneAfterSpells(s: State, n: nat, first: TD, l: seq<TD>)
    requires Spells(s, first, l, Nil)
    ensures Spells(Submit(s, n), first, DoneAfter(l, n), Nil)
    decreases |l|
  {
    var s' := Submit(s, n);
    if l == [] {
    } else if Rebuilt(l[0], n) {
      var c := ChainFrom(l[0].index, n);
      forall i | 0 <= i < |c| ensures s'.Next(c[i]) == if i + 1 < |c| then c[i + 1] else Nil { SubmitNext(s, n, c[i]); }
    } else {
      SpellsPop(s, first, l, Nil);
      DoneAfterSpells(s, n, s.Next(first), l[1..]);
      SubmitNext(s, n, first);
      SpellsCons(s', first, DoneAfter(l[1..], n), Nil);
    }
  }

  lemma SpellsCons(s: State, t: TD, l: seq<TD>, last: TD)
    requires Spells(s, s.Next(t), l, last)
    ensures Spells(s, t, [t] + l, last)
  {
    var m := [t] + l;
    forall i | 0 <= i < |m| ensures s.Next(m[i]) == if i + 1 < |m| then m[i + 1] else last {
      if i > 0 { assert m[i] == l[i - 1]; }
    }
  }

  lemma {:induction false} DoneAfterHas(l: seq<TD>, n: nat, d: nat)
    requires NoRepeats(l)
    ensures Hid(d) in DoneAfter(l, n) <==> Hid(d) in l && !Behind(l, n, d)
    decreases |l|
  {
    if l != [] {
      PopMembers(l);
      BehindTail(l, n, d);
      if Rebuilt(l[0], n) {
        assert forall t :: t in ChainFrom(l[0].index, n) ==> t.Ctl?;
      } else {
        DoneAfterHas(l[1..], n, d);
      }
    }
  }

  lemma BehindTail(l: seq<TD>, n: nat, d: nat)
    requires l != []
    ensures Behind(l, n, d) <==> if Rebuilt(l[0], n) then Hid(d) in l[1..] else Behind(l[1..], n, d)
  {
    var m := l[1..];
    assert forall i :: 0 <= i < |m| ==> m[i] == l[i + 1];
    if Behind(l, n, d) {
      var i, j :| 0 <= i < j < |l| && Rebuilt(l[i], n) && l[j] == Hid(d);
      assert m[j - 1] == Hid(d);
      if i > 0 { assert Rebuilt(m[i - 1], n); }
    }
    if Rebuilt(l[0], n) && Hid(d) in m {
      var j :| 0 <= j < |m| && m[j] == Hid(d);
      assert l[j + 1] == Hid(d) && Rebuilt(l[0], n);
    }
    if Behind(m, n, d) {
      var i, j :| 0 <= i < j < |m| && Rebuilt(m[i], n) && m[j] == Hid(d);
      assert Rebuilt(l[i + 1], n) && l[j + 1] == Hid(d);
    }
  }

  lemma {:induction false} ListIsClosed(s: State, first: TD, l: seq<TD>, R: set<TD>)
    requires Spells(s, first, l, Nil) && first in R && forall t :: t in R ==> s.Next(t) in R
    ensures forall t :: t in l ==> t in R
    decreases |l|
  {
    if l != [] {
      SpellsPop(s, first, l, Nil);
      ListIsClosed(s, s.Next(first), l[1..], R);
      assert l == [l[0]] + l[1..];
    }
  }

  /** What is left within reach: the controller's list, the new chain, and the armed endpoints. */
  ghost function ReachAfter(s: State, l: Lists, n: nat): set<TD> {
    (set t | t in DoneAfter(l.hc, n)) + (set i | 0 <= i <= n :: Ctl(i)) + (set e | e in s.devices :: Dummy(e))
    + (set e | e in s.devices && s.Head(e) == Hid(e) :: Hid(e)) + {Nil}
  }

  lemma ReachAfterNext(s: State, l: Lists, lost: set<nat>, n: nat, t: TD)
    requires Inv(s, l, lost) && s.handler.Idle? && t in ReachAfter(s, l, n)
    ensures Submit(s, n).Next(t) in ReachAfter(s, l, n)
  {
    var s' := Submit(s, n);
    SubmitNext(s, n, t);
    if t in DoneAfter(l.hc, n) {
      DoneAfterSpells(s, n, s.hcDoneHead, l.hc);
      var i :| 0 <= i < |DoneAfter(l.hc, n)| && DoneAfter(l.hc, n)[i] == t;
      assert s'.Next(DoneAfter(l.hc, n)[i]) in ReachAfter(s, l, n);
    } else if t.Hid? {
      assert if t.device in lost then Lost(s, l, t.device) else Owned(s, l, t.device);
    }
  }

  lemma HeadInReachAfter(s: State, l: Lists, lost: set<nat>, n: nat, d: nat)
    requires Inv(s, l, lost) && d in s.devices
    ensures Submit(s, n).Head(d) in ReachAfter(s, l, n) && Dummy(d) in ReachAfter(s, l, n)
  {
    assert Settled(s, l, lost, d);
    assert Submit(s, n).Head(d) == s.Head(d);
  }

  lemma ReachAfterClosed(s: State, l: Lists, lost: set<nat>, n: nat)
    requires Inv(s, l, lost) && s.handler.Idle?
    ensures Closed(Submit(s, n), ReachAfter(s, l, n))
  {
    var s' := Submit(s, n);
    DoneAfterSpells(s, n, s.hcDoneHead, l.hc);
    forall t | t in ReachAfter(s, l, n) ensures s'.Next(t) in ReachAfter(s, l, n) {
      ReachAfterNext(s, l, lost, n, t);
    }
    forall d | d in s.devices ensures s'.Head(d) in ReachAfter(s, l, n) && Dummy(d) in ReachAfter(s, l, n) {
      HeadInReachAfter(s, l, lost, n, d);
    }
  }

  /** A submission loses a device exactly when its descriptor waits in the HCCA, or when a
      descriptor of the new chain stands before it on the controller's list. */
  lemma SubmitLosesIff(s: State, l: Lists, lost: set<nat>, n: nat, d: nat)
    requires Inv(s, l, lost) && s.handler.Idle? && d in s.devices - lost
    ensures Unreachable(Submit(s, n), d) <==> Hid(d) in l.hcca || Behind(l.hc, n, d)
  {
    assert Settled(s, l, lost, d);
    DoneAfterHas(l.hc, n, d);
    if Hid(d) in l.hcca || Behind(l.hc, n, d) {
      ReachAfterClosed(s, l, lost, n);
      ReachAfterHas(s, l, n, d);
    } else {
      forall R | Closed(Submit(s, n), R) ensures Hid(d) in R { StaysInReach(s, l, n, d, R); }
    }
  }

  lemma ReachAfterHas(s: State, l: Lists, n: nat, d: nat)
    requires s.Head(d) == Dummy(d) && Hid(d) !in DoneAfter(l.hc, n)
    ensures Hid(d) !in ReachAfter(s, l, n)
  {
  }

  lemma StaysInReach(s: State, l: Lists, n: nat, d: nat, R: set<TD>)
    requires Spells(s, s.hcDoneHead, l.hc, Nil) && d in s.devices
    requires Hid(d) in DoneAfter(l.hc, n) || s.Head(d) == Hid(d)
    requires Closed(Submit(s, n), R)
    ensures Hid(d) in R
  {
    var s' := Submit(s, n);
    if Hid(d) in DoneAfter(l.hc, n) {
      DoneAfterSpells(s, n, s.hcDoneHead, l.hc);
      ListIsClosed(s', s.hcDoneHead, DoneAfter(l.hc, n), R);
    } else {
      assert s'.Word(d) == s.Word(d);
      assert s'.Head(d) == Hid(d);
    }
  }

  /** A device lost earlier is out of reach. */
  lemma LostIsUnreachable(s: State, l: Lists, lost: set<nat>, d: nat)
    requires Inv(s, l, lost) && d in lost
    ensures Unreachable(s, d)
  {
    assert Settled(s, l, lost, d);
    ReachHas(s, l, Hid(d));
    ReachClosed(s, l, lost);
  }

  /** All lists, all dummies, and the descriptors on endpoints or in the handler's hands. */
  ghost function Reach(s: State, l: Lists): set<TD> {
    (set t | t in l.hc + l.hcca + l.walk + l.control) + (set e | e in s.devices :: Dummy(e))
    + (set e | e in s.devices && (s.Head(e) == Hid(e) || Held(s, e)) :: Hid(e)) + {Nil, s.controlTail}
  }

  lemma ReachHas(s: State, l: Lists, u: TD)
    ensures u in Reach(s, l) <==>
      || Done(l, u) || u in l.control || (u.Dummy? && u.device in s.devices) || u == Nil || u == s.controlTail
      || (u.Hid? && u.device in s.devices && (s.Head(u.device) == u || Held(s, u.device)))
  {
  }

  lemma ReachClosed(s: State, l: Lists, lost: set<nat>)
    requires Inv(s, l, lost)
    ensures Closed(s, Reach(s, l))
  {
    var R := Reach(s, l);
    forall u ensures u in R <==>
      || Done(l, u) || u in l.control || (u.Dummy? && u.device in s.devices) || u == Nil || u == s.controlTail
      || (u.Hid? && u.device in s.devices && (s.Head(u.device) == u || Held(s, u.device)))
    {
      ReachHas(s, l, u);
    }
    forall t | t in R ensures s.Next(t) in R { LostNext(s, l, lost, R, t); }
    ReachRoots(s, l, lost);
  }

  lemma ReachRoots(s: State, l: Lists, lost: set<nat>)
    requires Inv(s, l, lost)
    ensures Roots(s, Reach(s, l))
  {
    var R := Reach(s, l);
    FirstInReach(s, l, s.hcDoneHead, l.hc, Nil);
    FirstInReach(s, l, s.hccaDoneHead, l.hcca, Nil);
    if !s.controlHalted { FirstInReach(s, l, s.controlHead, l.control, s.controlTail); }
    if s.handler.AtLoop? { FirstInReach(s, l, s.handler.DoneQueueHead, l.walk, Nil); }
    if s.handler.Rearming? { FirstInReach(s, l, s.handler.NextCompletedTD, l.walk, Nil); }
  }

  lemma FirstInReach(s: State, l: Lists, first: TD, m: seq<TD>, last: TD)
    requires Spells(s, first, m, last) && last in {Nil, s.controlTail}
    requires m == l.hc || m == l.hcca || m == l.walk || m == l.control
    ensures first in Reach(s, l)
  {
    if m != [] { assert m[0] in m; }
  }

  lemma LostNext(s: State, l: Lists, lost: set<nat>, R: set<TD>, t: TD)
    requires Inv(s, l, lost) && t in R && Nil in R && s.controlTail in R
    requires forall u :: u in R <==>
      || Done(l, u) || u in l.control || (u.Dummy? && u.device in s.devices) || u == Nil || u == s.controlTail
      || (u.Hid? && u.device in s.devices && (s.Head(u.device) == u || Held(s, u.device)))
    ensures s.Next(t) in R
  {
    if t in l.hc {
      NextInList(s, s.hcDoneHead, l.hc, Nil, t);
    } else if t in l.hcca {
      NextInList(s, s.hccaDoneHead, l.hcca, Nil, t);
    } else if t in l.walk {
      NextInList(s, if s.handler.AtLoop? then s.handler.DoneQueueHead else s.handler.NextCompletedTD, l.walk, Nil, t);
    } else if t in l.control {
      NextInList(s, s.controlHead, l.control, s.controlTail, t);
    } else if t.Hid? {
      assert if t.device in lost then Lost(s, l, t.device) else Owned(s, l, t.device);
    }
  }

  lemma NextInList(s: State, first: TD, l: seq<TD>, last: TD, t: TD)
    requires Spells(s, first, l, last) && t in l
    ensures s.Next(t) in l || s.Next(t) == last
  {
    var i :| 0 <= i < |l| && l[i] == t;
    assert s.Next(l[i]) == if i + 1 < |l| then l[i + 1] else last;
  }

  // ----- Runs -----

  /** The controller's list does not lead into the part of the new chain that it executes. */
  ghost predicate Untangled(s: State, n: nat) {
    s.controlHalted || forall l: seq<TD> :: Spells(s, s.hcDoneHead, l, Nil) ==> !Tangled(l, n)
  }

  ghost predicate SubmitStep(s: State, s': State) {
    s.handler.Idle? && exists n: nat :: ChainLength(n) && s' == Submit(s, n) && Untangled(s, n)
  }

  ghost predicate AttachStep(s: State, s': State) {
    exists d: nat, a: bv32, b: bv32 ::
      d !in s.devices && Aligned(a) && Aligned(b) && a != b && s' == Attach(s, d, a, b)
  }

  ghost predicate Step(s: State, s': State) {
    ControllerStep(s, s') || HandlerStep(s, s') || AttachStep(s, s') || SubmitStep(s, s')
  }

  function Start(): State {
    State({}, map[], map[], map[], map[], Ctl(0), Ctl(0), false, Nil, Nil, false, Idle, false, [], [])
  }

  ghost predicate IsRun(t: seq<State>) {
    t != [] && t[0] == Start() && forall i :: 0 <= i < |t| - 1 ==> Step(t[i], t[i + 1])
  }

  /** The devices whose descriptor is out of reach. */
  ghost function Gone(s: State): set<nat> {
    set d | d in s.devices && Unreachable(s, d)
  }

  lemma LostIsGone(s: State, l: Lists, lost: set<nat>)
    requires Inv(s, l, lost)
    ensures lost == Gone(s)
  {
    forall d | d in s.devices ensures d in lost <==> Unreachable(s, d) {
      if d in lost {
        LostIsUnreachable(s, l, lost, d);
      } else {
        forall R | Closed(s, R) ensures Hid(d) in R { KeptIsReachable(s, l, lost, d, R); }
      }
    }
  }

  lemma KeptIsReachable(s: State, l: Lists, lost: set<nat>, d: nat, R: set<TD>)
    requires Inv(s, l, lost) && d in s.devices - lost && Closed(s, R)
    ensures Hid(d) in R
  {
    assert Settled(s, l, lost, d);
    if Hid(d) in l.hc {
      ListIsClosed(s, s.hcDoneHead, l.hc, R);
    } else if Hid(d) in l.hcca {
      ListIsClosed(s, s.hccaDoneHead, l.hcca, R);
    } else if Hid(d) in l.walk {
      ListIsClosed(s, if s.handler.AtLoop? then s.handler.DoneQueueHead else s.handler.NextCompletedTD, l.walk, R);
    } else if !Held(s, d) {
      assert s.Head(d) == Hid(d) && s.Head(d) in R;
    }
  }

  lemma ControllerInv(s: State, s': State, l: Lists, lost: set<nat>) returns (l': Lists)
    requires Inv(s, l, lost) && ControllerStep(s, s')
    ensures Inv(s', l', lost) && l'.walk == l.walk && s'.handler == s.handler
  {
    if d, code, toggle :| RetireHid(s, s', d, code, toggle) {
      l' := RetireHidInv(s, s', l, lost, d, code, toggle);
    } else if code :| RetireControl(s, s', code) {
      l' := RetireControlInv(s, s', l, lost, code);
    } else {
      l' := WriteBackInv(s, s', l, lost);
    }
  }

  /** What is left of a handler invocation. */
  function Work(h: Handler, walk: seq<TD>): nat {
    match h
    case Idle => 0
    case AtLoop(_) => 2 * |walk| + 1
    case Rearming(_, _) => 2 * |walk| + 2
  }

  function ListsAfter(s: State, l: Lists): Lists {
    match s.handler
    case Idle => l.(hcca := [], walk := l.hcca)
    case AtLoop(t) => if t != Nil && l.walk != [] then l.(walk := l.walk[1..]) else l
    case Rearming(_, _) => l
  }

  /** Handler steps keep the invariant. */
  lemma HandlerInv(s: State, s': State, l: Lists, lost: set<nat>)
    requires Inv(s, l, lost) && HandlerStep(s, s')
    ensures Inv(s', ListsAfter(s, l), lost)
  {
    if s.handler.Idle? {
      var l' := EnterInv(s, l, lost);
    } else if s.handler.Rearming? {
      RearmInv(s, l, lost);
    } else if s.handler.DoneQueueHead != Nil {
      var l' := CompleteInv(s, l, lost);
    } else {
      LeaveInv(s, l, lost);
    }
  }

  /** Handler steps use up the walk, whatever the controller does in between, and leave
      every toggle carry as it was. */
  lemma HandlerProgress(s: State, s': State, l: Lists, lost: set<nat>)
    requires Inv(s, l, lost) && HandlerStep(s, s')
    ensures !s.handler.Idle? ==> Work(s'.handler, ListsAfter(s, l).walk) < Work(s.handler, l.walk)
    ensures forall d :: s'.Carry(d) == s.Carry(d)
  {
    if s.handler.AtLoop? { WalkIsNil(s, l); }
    HandlerKeepsCarry(s, s', l, lost);
  }

  lemma HandlerKeepsCarry(s: State, s': State, l: Lists, lost: set<nat>)
    requires Inv(s, l, lost) && HandlerStep(s, s')
    ensures forall d :: s'.Carry(d) == s.Carry(d)
  {
    forall d ensures s'.Carry(d) == s.Carry(d) { StepKeepsCarry(s, s', l, lost, d); }
  }

  lemma StepKeepsCarry(s: State, s': State, l: Lists, lost: set<nat>, d: nat)
    requires Inv(s, l, lost) && HandlerStep(s, s')
    ensures s'.Carry(d) == s.Carry(d)
  {
    if s.handler.Rearming? {
      assert Placed(s, s.handler.CompletedTD.device);
      RearmCarry(s, d);
    } else if s.handler.AtLoop? && s.handler.DoneQueueHead != Nil {
      CompleteFields(s);
      HeadFrame(s, s', d);
    } else {
      HeadFrame(s, s', d);
    }
  }

  lemma RearmCarry(s: State, d: nat)
    requires s.handler.Rearming? && s.handler.CompletedTD.Hid? && Aligned(s.Address(s.handler.CompletedTD))
    ensures Rearm(s).Carry(d) == s.Carry(d)
  {
    if Held(s, d) { RearmHead(s, d); }
  }

  lemma WalkIsNil(s: State, l: Lists)
    requires Pointers(s, l) && s.handler.AtLoop?
    ensures s.handler.DoneQueueHead != Nil ==> l.walk != []
  {
  }

  /** Once inside, the handler always has a step to take. */
  lemma HandlerNeverStuck(s: State, l: Lists, lost: set<nat>)
    requires Inv(s, l, lost) && !s.handler.Idle?
    ensures exists s' :: HandlerStep(s, s')
  {
    if s.handler.Rearming? {
      assert HandlerStep(s, Rearm(s));
    } else if s.handler.DoneQueueHead != Nil {
      assert HandlerStep(s, Complete(s));
    } else {
      assert HandlerStep(s, Leave(s));
    }
  }

  lemma StartInv()
    ensures Inv(Start(), Lists([], [], [], []), {})
  {
  }

  lemma StepInv(s: State, s': State, l: Lists, lost: set<nat>) returns (l': Lists)
    requires Inv(s, l, lost) && (ControllerStep(s, s') || HandlerStep(s, s') || AttachStep(s, s'))
    ensures Inv(s', l', lost)
  {
    if ControllerStep(s, s') {
      l' := ControllerInv(s, s', l, lost);
    } else if HandlerStep(s, s') {
      HandlerInv(s, s', l, lost);
      l' := ListsAfter(s, l);
    } else {
      var d: nat, a: bv32, b: bv32 :| d !in s.devices && Aligned(a) && Aligned(b) && a != b && s' == Attach(s, d, a, b);
      AttachInv(s, l, lost, d, a, b);
      l' := l;
    }
  }

  /** Over every interleaving no descriptor is linked twice, and each is in its place but those that
      are out of reach. */
  lemma {:induction false} RunInv(t: seq<State>, i: nat) returns (l: Lists)
    requires IsRun(t) && i < |t|
    ensures Inv(t[i], l, Gone(t[i]))
  {
    if i == 0 {
      StartInv();
      l := Lists([], [], [], []);
      LostIsGone(t[0], l, {});
    } else {
      l := RunInv(t, i - 1);
      assert Step(t[i - 1], t[i - 1 + 1]);
      var lost;
      l, lost := AnyStepInv(t[i - 1], t[i], l, Gone(t[i - 1]));
      LostIsGone(t[i], l, lost);
    }
  }

  lemma AnyStepInv(s: State, s': State, l: Lists, lost: set<nat>) returns (l': Lists, lost': set<nat>)
    requires Inv(s, l, lost) && Step(s, s')
    ensures Inv(s', l', lost')
  {
    if SubmitStep(s, s') {
      var n: nat :| ChainLength(n) && s' == Submit(s, n) && Untangled(s, n);
      l' := SubmitInv(s, l, lost, n);
      lost' := lost + Dropped(s, l, n);
    } else {
      l' := StepInv(s, s', l, lost);
      lost' := lost;
    }
  }

  /** Only a submission puts a device out of reach. */
  lemma OnlySubmissionsLose(t: seq<State>, i: nat)
    requires IsRun(t) && i + 1 < |t| && !SubmitStep(t[i], t[i + 1])
    ensures Gone(t[i + 1]) == Gone(t[i])
  {
    var l := RunInv(t, i);
    var l' := StepInv(t[i], t[i + 1], l, Gone(t[i]));
    LostIsGone(t[i + 1], l', Gone(t[i]));
  }

  /** When nothing is pending, every device that is not lost has had exactly one report per
      successful completion. */
  lemma QuiescentBalance(t: seq<State>, i: nat, d: nat)
    requires IsRun(t) && i < |t| && d in t[i].devices - Gone(t[i])
    requires t[i].hcDoneHead == Nil && t[i].hccaDoneHead == Nil && t[i].handler.Idle?
    ensures multiset(t[i].successes)[d] == multiset(t[i].reports)[d]
    ensures t[i].Head(d) == Hid(d) && t[i].Next(Hid(d)) == Dummy(d)
  {
    var l := RunInv(t, i);
    NilIsEmpty(t[i], l, Gone(t[i]));
    assert Settled(t[i], l, Gone(t[i]), d);
  }

  // ----- Lost for good -----

  /** Any step at all, submissions at the worst moment included. */
  ghost predicate AnyStep(s: State, s': State) {
    || ControllerStep(s, s') || HandlerStep(s, s') || AttachStep(s, s')
    || exists n: nat :: ChainLength(n) && s' == Submit(s, n)
  }

  /** A head pointer leads to the device's own descriptors or nowhere. */
  lemma HeadsInReach(s: State, s': State, R: set<TD>, e: nat)
    requires Roots(s, R) && s'.devices == s.devices && s'.address == s.address && (e in s.devices ==> Hid(e) in R)
    requires forall u :: u != e ==> s'.Word(u) == s.Word(u)
    ensures forall u :: u in s.devices ==> s'.Head(u) in R
  {
    forall u | u in s.devices ensures s'.Head(u) in R {
      assert s.Head(u) in R && Dummy(u) in R;
      if u != e { assert s'.Head(u) == s.Head(u); }
    }
  }

  lemma HeadsUnchanged(s: State, s': State, R: set<TD>)
    requires Roots(s, R) && s'.devices == s.devices && s'.address == s.address && s'.head == s.head
    ensures forall u :: u in s.devices ==> s'.Head(u) in R
  {
    forall u | u in s.devices ensures s'.Head(u) in R {
      HeadFrame(s, s', u);
      assert s.Head(u) in R;
    }
  }

  lemma NextUpdated(s: State, s': State, R: set<TD>, t: TD, u: TD)
    requires (forall v :: v in R ==> s.Next(v) in R) && u in R && s'.nextTD == s.nextTD[t := u]
    ensures forall v :: v in R ==> s'.Next(v) in R
  {
    forall v | v in R ensures s'.Next(v) in R { assert s.Next(v) in R; }
  }

  lemma RetireHidClosed(s: State, s': State, R: set<TD>, e: nat, code: nat, toggle: bool)
    requires Closed(s, R) && RetireHid(s, s', e, code, toggle)
    ensures Closed(s', R)
  {
    assert s.Head(e) in R;
    HeadsInReach(s, s', R, e);
    NextUpdated(s, s', R, Hid(e), s.hcDoneHead);
  }

  lemma RetireControlClosed(s: State, s': State, R: set<TD>, code: nat)
    requires Closed(s, R) && RetireControl(s, s', code)
    ensures Closed(s', R)
  {
    HeadsUnchanged(s, s', R);
    NextUpdated(s, s', R, s.controlHead, s.hcDoneHead);
  }

  lemma ControllerClosed(s: State, s': State, R: set<TD>)
    requires Closed(s, R) && ControllerStep(s, s')
    ensures Closed(s', R) && s'.devices == s.devices && s'.reports == s.reports
  {
    if e, code, toggle :| RetireHid(s, s', e, code, toggle) {
      RetireHidClosed(s, s', R, e, code, toggle);
    } else if code :| RetireControl(s, s', code) {
      RetireControlClosed(s, s', R, code);
    } else {
      WriteBackClosed(s, s', R);
    }
  }

  lemma WriteBackClosed(s: State, s': State, R: set<TD>)
    requires Closed(s, R) && WriteBack(s, s')
    ensures Closed(s', R)
  {
    HeadsUnchanged(s, s', R);
    NextUnchanged(s, s', R);
  }

  lemma NextUnchanged(s: State, s': State, R: set<TD>)
    requires (forall v :: v in R ==> s.Next(v) in R) && s'.nextTD == s.nextTD
    ensures forall v :: v in R ==> s'.Next(v) in R
  {
    forall v | v in R ensures s'.Next(v) in R { assert s'.Next(v) == s.Next(v); }
  }

  lemma CompleteClosed(s: State, R: set<TD>)
    requires Closed(s, R) && s.handler.AtLoop? && s.handler.DoneQueueHead != Nil
    ensures Closed(Complete(s), R)
  {
    var s', t := Complete(s), s.handler.DoneQueueHead;
    assert s.Next(t) in R;
    HeadsUnchanged(s, s', R);
    if t.Hid? && t.device in s.devices {
      assert Dummy(t.device) in R;
      NextUpdated(s, s', R, t, Dummy(t.device));
    } else {
      NextUnchanged(s, s', R);
    }
  }

  lemma RearmClosed(s: State, R: set<TD>)
    requires Closed(s, R) && s.handler.Rearming? && s.handler.CompletedTD.Hid?
    ensures Closed(Rearm(s), R)
  {
    HeadsInReach(s, Rearm(s), R, s.handler.CompletedTD.device);
    NextUnchanged(s, Rearm(s), R);
  }

  lemma HandlerClosed(s: State, s': State, R: set<TD>, d: nat)
    requires Closed(s, R) && HandlerStep(s, s') && Hid(d) !in R
    ensures Closed(s', R) && s'.devices == s.devices && multiset(s'.reports)[d] == multiset(s.reports)[d]
  {
    if s.handler.Rearming? {
      RearmClosed(s, R);
    } else if s.handler.AtLoop? && s.handler.DoneQueueHead != Nil {
      CompleteReports(s, s.handler.DoneQueueHead, d);
      CompleteClosed(s, R);
    } else {
      HeadsUnchanged(s, s', R);
      NextUnchanged(s, s', R);
    }
  }

  lemma CompleteReports(s: State, t: TD, d: nat)
    requires s.handler == AtLoop(t) && t != Nil && t != Hid(d)
    ensures multiset(Complete(s).reports)[d] == multiset(s.reports)[d]
  {
    if t.Hid? { assert t.device != d; }
  }

  lemma AttachClosed(s: State, R: set<TD>, e: nat, a: bv32, b: bv32)
    requires Closed(s, R) && e !in s.devices
    ensures Closed(Attach(s, e, a, b), R + {Hid(e), Dummy(e)})
  {
    var s', R' := Attach(s, e, a, b), R + {Hid(e), Dummy(e)};
    forall u | u in s.devices ensures s'.Head(u) in R' && Dummy(u) in R' {
      AttachOther(s, e, a, b, u);
      assert s.Head(u) in R;
    }
    forall t | t in R' ensures s'.Next(t) in R' {
      if t != Hid(e) && t != Dummy(e) { assert s'.Next(t) == s.Next(t); }
    }
  }

  lemma SubmitClosed(s: State, R: set<TD>, n: nat)
    requires Closed(s, R)
    ensures Closed(Submit(s, n), R + set i | 0 <= i <= n :: Ctl(i))
  {
    var s', R' := Submit(s, n), R + set i | 0 <= i <= n :: Ctl(i);
    forall t | t in R' ensures s'.Next(t) in R' { SubmitNext(s, n, t); }
    HeadsUnchanged(s, s', R);
  }

  /** One step leaves the device out of reach and silent. */
  lemma UnreachableStep(s: State, s': State, d: nat)
    requires d in s.devices && Unreachable(s, d) && AnyStep(s, s')
    ensures d in s'.devices && Unreachable(s', d) && multiset(s'.reports)[d] == multiset(s.reports)[d]
  {
    var R :| Closed(s, R) && Hid(d) !in R;
    var R' := AnyClosed(s, s', R, d);
  }

  lemma AnyClosed(s: State, s': State, R: set<TD>, d: nat) returns (R': set<TD>)
    requires d in s.devices && Closed(s, R) && Hid(d) !in R && AnyStep(s, s')
    ensures Closed(s', R') && Hid(d) !in R' && d in s'.devices
    ensures multiset(s'.reports)[d] == multiset(s.reports)[d]
  {
    R' := R;
    if ControllerStep(s, s') {
      ControllerClosed(s, s', R);
    } else if HandlerStep(s, s') {
      HandlerClosed(s, s', R, d);
    } else if AttachStep(s, s') {
      var e: nat, a: bv32, b: bv32 :| e !in s.devices && Aligned(a) && Aligned(b) && a != b && s' == Attach(s, e, a, b);
      AttachClosed(s, R, e, a, b);
      R' := R + {Hid(e), Dummy(e)};
    } else {
      var n: nat :| ChainLength(n) && s' == Submit(s, n);
      SubmitClosed(s, R, n);
      R' := R + set i | 0 <= i <= n :: Ctl(i);
    }
  }

  /** A device out of reach delivers no report in any later run, whatever happens. */
  lemma {:induction false} LostForGood(t: seq<State>, d: nat, i: nat)
    requires t != [] && d in t[0].devices && Unreachable(t[0], d) && i < |t|
    requires forall k :: 0 <= k < |t| - 1 ==> AnyStep(t[k], t[k + 1])
    ensures d in t[i].devices && Unreachable(t[i], d) && multiset(t[i].reports)[d] == multiset(t[0].reports)[d]
  {
    if i > 0 {
      LostForGood(t, d, i - 1);
      assert AnyStep(t[i - 1], t[i - 1 + 1]);
      UnreachableStep(t[i - 1], t[i], d);
    }
  }

  // ----- The failures are reachable -----

  /** Device 1 attached, and its descriptor retired without error onto the list before it. */
  function Attached(): State { Attach(Start(), 1, 0x1000, 0x2000) }

  function Retired(s: State): State {
    s.(head := s.head[1 := 0x2000], nextTD := s.nextTD[Hid(1) := s.hcDoneHead],
       condition := s.condition[Hid(1) := 0], hcDoneHead := Hid(1), successes := s.successes + [1])
  }

  function HandedOver(s: State): State {
    s.(hccaDoneHead := s.hcDoneHead, hcDoneHead := Nil, writeback := true)
  }

  lemma RunExtends(t: seq<State>, s: State)
    requires IsRun(t) && Step(t[|t| - 1], s)
    ensures IsRun(t + [s])
  {
    forall i | 0 <= i < |t| ensures Step((t + [s])[i], (t + [s])[i + 1]) {
      if i < |t| - 1 { assert Step(t[i], t[i + 1]); }
    }
  }

  /** A first request is submitted while the device's descriptor is armed. */
  lemma FirstRequest() returns (t: seq<State>, b: State)
    ensures IsRun(t) && b == t[|t| - 1] && b == Submit(Attached(), 2)
    ensures b.Head(1) == Hid(1) && b.Next(Ctl(0)) == Ctl(1) && b.Next(Hid(1)) == Dummy(1) && b.Next(Dummy(1)) == Nil
  {
    var a := Attached();
    b := Submit(a, 2);
    SubmitNext(a, 2, Ctl(0));
    SubmitNext(a, 2, Hid(1));
    SubmitNext(a, 2, Dummy(1));
    t := [Start(), a, b];
    assert AttachStep(t[0], t[1]);
    FirstSubmission(a, 2);
    assert SubmitStep(t[1], t[2]);
  }

  /** A completed list is handed over, and a control transfer is submitted before the interrupt is taken. */
  lemma SubmitCanLoseDevice() returns (t: seq<State>, s: State)
    ensures IsRun(t) && s == t[|t| - 1] && s.handler.Idle? && 1 in s.devices
    ensures !Unreachable(s, 1) && Unreachable(Submit(s, 2), 1)
  {
    var a := Attached();
    var b := Retired(a);
    s := HandedOver(b);
    t := [Start(), a, b, s];
    assert AttachStep(t[0], t[1]);
    assert RetireHid(t[1], t[2], 1, 0, false);
    assert ControllerStep(t[1], t[2]);
    assert WriteBack(t[2], t[3]);
    assert ControllerStep(t[2], t[3]);
    assert forall R :: Closed(s, R) ==> s.hccaDoneHead in R;
    var l := RunInv(t, 3);
    assert l.hcca != [] && l.hcca[0] == Hid(1);
    SubmitLosesIff(s, l, Gone(s), 2, 1);
  }

  /** The setup descriptor of a first transfer is retired right after the device's descriptor, and
      a second transfer is submitted with the HCCA empty. */
  lemma SubmitCanLoseBehindControl() returns (t: seq<State>, s: State)
    ensures IsRun(t) && s == t[|t| - 1] && s.handler.Idle? && s.hccaDoneHead == Nil && 1 in s.devices
    ensures !Unreachable(s, 1) && Unreachable(Submit(s, 2), 1)
  {
    var b;
    t, b := FirstRequest();
    var c := Retired(b);
    assert RetireHid(b, c, 1, 0, false);
    assert ControllerStep(b, c);
    s := ControlRetired(c, 0);
    assert RetireControl(c, s, 0);
    assert ControllerStep(c, s);
    RunExtends(t, c);
    RunExtends(t + [c], s);
    t := t + [c] + [s];
    assert forall R :: Closed(s, R) ==> s.hcDoneHead in R && s.Next(Ctl(0)) in R;
    var l := RunInv(t, |t| - 1);
    HeadsOfList(s, l);
    SubmitLosesIff(s, l, Gone(s), 2, 1);
  }

  lemma HeadsOfList(s: State, l: Lists)
    requires Inv(s, l, Gone(s)) && s.hcDoneHead == Ctl(0) && s.Next(Ctl(0)) == Hid(1)
    ensures Behind(l.hc, 2, 1)
  {
    SpellsPop(s, Ctl(0), l.hc, Nil);
    assert l.hc[0] == Ctl(0) && l.hc[1] == Hid(1) && Rebuilt(l.hc[0], 2);
  }

  lemma FirstSubmission(s: State, n: nat)
    requires s.hcDoneHead == Nil && s.Next(Nil) == Nil
    ensures Untangled(s, n)
  {
    forall l: seq<TD> | Spells(s, s.hcDoneHead, l, Nil) ensures !Tangled(l, n) {
      OnlyNil(s, l, n);
    }
  }

  lemma {:induction false} OnlyNil(s: State, l: seq<TD>, n: nat)
    requires Spells(s, Nil, l, Nil) && s.Next(Nil) == Nil
    ensures !Tangled(l, n)
    decreases |l|
  {
    if l != [] {
      SpellsPop(s, Nil, l, Nil);
      OnlyNil(s, l[1..], n);
    }
  }

  // ----- The handler as it is written -----

  const USB_MAX_DEVICES: nat := 128

  /** The reports due for a done list: one for each error-free HID descriptor, in list order. */
  ghost function Delivered(s: State, l: seq<TD>): seq<nat> {
    if l == [] then []
    else (if l[0].Hid? && s.Code(l[0]) == 0 then [l[0].device] else []) + Delivered(s, l[1..])
  }

  lemma {:induction false} DeliveredFrame(s: State, s': State, l: seq<TD>)
    requires forall d :: s'.Code(Hid(d)) == s.Code(Hid(d))
    ensures Delivered(s, l) == Delivered(s', l)
  {
    if l != [] { DeliveredFrame(s, s', l[1..]); }
  }

  /** What is due for one descriptor, and that it is due in list order. */
  lemma {:induction false} DeliveredConcat(s: State, t: TD, a: seq<TD>, b: seq<TD>)
    ensures Delivered(s, []) == []
    ensures Delivered(s, [t]) == if t.Hid? && s.Code(t) == 0 then [t.device] else []
    ensures Delivered(s, a + b) == Delivered(s, a) + Delivered(s, b)
    decreases |a|
  {
    assert [t][1..] == [];
    if a == [] {
      assert a + b == b;
    } else {
      assert (a + b)[0] == a[0] && (a + b)[1..] == a[1..] + b;
      DeliveredConcat(s, t, a[1..], b);
    }
  }

  ghost predicate HasControl(l: seq<TD>) { exists t :: t in l && t.Ctl? }

  /** A control descriptor, or that of an active device. */
  predicate Known(s: State, t: TD) { t.Ctl? || (t.Hid? && t.device in s.devices) }

  /** One loop iteration: both of its steps when it finds the device. */
  function Iterated(s: State): State
    requires s.handler.AtLoop? && s.handler.DoneQueueHead != Nil
  {
    var s' := Complete(s);
    if s'.handler.Rearming? then Rearm(s') else s'
  }

  lemma IterationInv(s: State, l: Lists, lost: set<nat>) returns (l': Lists)
    requires Inv(s, l, lost) && s.handler.AtLoop? && s.handler.DoneQueueHead != Nil
    requires Known(s, s.handler.DoneQueueHead)
    ensures Inv(Iterated(s), l', lost) && l.walk != [] && l' == l.(walk := l.walk[1..])
    ensures Iterated(s).reports + Delivered(Iterated(s), l'.walk) == s.reports + Delivered(s, l.walk)
    ensures forall d :: Iterated(s).Carry(d) == s.Carry(d)
  {
    l' := CompleteInv(s, l, lost);
    HandlerKeepsCarry(s, Complete(s), l, lost);
    if s.handler.DoneQueueHead.Hid? {
      RearmInv(Complete(s), l', lost);
      HandlerKeepsCarry(Complete(s), Rearm(Complete(s)), l', lost);
    }
    IterationReports(s, l.walk);
  }

  lemma IterationReports(s: State, walk: seq<TD>)
    requires s.handler.AtLoop? && s.handler.DoneQueueHead != Nil && walk != [] && walk[0] == s.handler.DoneQueueHead
    requires Known(s, s.handler.DoneQueueHead)
    ensures Iterated(s).reports + Delivered(Iterated(s), walk[1..]) == s.reports + Delivered(s, walk)
  {
    var due := if walk[0].Hid? && s.Code(walk[0]) == 0 then [walk[0].device] else [];
    IterationReport(s, due);
    DeliveredFrame(s, Iterated(s), walk[1..]);
    Regroup(s.reports, due, Delivered(s, walk[1..]));
  }

  lemma Regroup(a: seq<nat>, b: seq<nat>, c: seq<nat>)
    ensures (a + b) + c == a + (b + c)
  {
  }

  lemma IterationReport(s: State, due: seq<nat>)
    requires s.handler.AtLoop? && s.handler.DoneQueueHead != Nil
    requires Known(s, s.handler.DoneQueueHead)
    requires var t := s.handler.DoneQueueHead; due == if t.Hid? && s.Code(t) == 0 then [t.device] else []
    ensures Iterated(s).reports == s.reports + due && Iterated(s).condition == s.condition
  {
  }

  lemma HeadIsDone(s: State, l: Lists, lost: set<nat>)
    requires Inv(s, l, lost) && s.handler.AtLoop? && s.handler.DoneQueueHead != Nil
    ensures Known(s, s.handler.DoneQueueHead)
  {
    assert l.walk[0] in l.walk;
    assert Done(l, l.walk[0]);
  }

  lemma DoneIsOwned(s: State, l: Lists, lost: set<nat>, d: nat)
    requires Inv(s, l, lost) && Hid(d) in l.hcca
    ensures d in s.devices && d !in lost
  {
    assert Done(l, Hid(d));
    assert d in lost ==> Lost(s, l, d);
  }

  /** Between two iterations: what is delivered and what is still due make up what was due. */
  ghost predicate Walking(was: State, l: Lists, s: State, l': Lists, lost: set<nat>) {
    && Inv(s, l', lost) && s.handler.AtLoop? && l'.hc == l.hc && l'.hcca == []
    && s.devices == was.devices && s.successes == was.successes
    && (forall d :: s.Carry(d) == was.Carry(d))
    && s.reports + Delivered(s, l'.walk) == was.reports + Delivered(was, l.hcca)
    && (s.transferComplete || HasControl(l'.walk) <==> was.transferComplete || HasControl(l.hcca))
    && (forall t :: t in l'.walk ==> t in l.hcca)
    && s.hccaDoneHead == Nil && s.hcDoneHead == was.hcDoneHead
    && forall d :: Hid(d) !in l.hcca ==> s.Word(d) == was.Word(d)
  }

  lemma WalkingStart(s: State, l: Lists, l': Lists, lost: set<nat>)
    requires Inv(s, l, lost) && s.handler.Idle? && s.writeback
    requires l' == l.(hcca := [], walk := l.hcca) && Inv(Enter(s), l', lost)
    ensures Walking(s, l, Enter(s), l', lost)
  {
    DeliveredFrame(s, Enter(s), l.hcca);
  }

  lemma WalkingStep(was: State, l: Lists, s: State, l': Lists, lost: set<nat>) returns (m: Lists)
    requires Walking(was, l, s, l', lost) && s.handler.DoneQueueHead != Nil
    ensures Known(s, s.handler.DoneQueueHead)
    ensures Walking(was, l, Iterated(s), m, lost) && |m.walk| < |l'.walk|
  {
    HeadIsDone(s, l', lost);
    m := IterationInv(s, l', lost);
    IterationFlag(s, l'.walk);
    IterationWords(s);
    HeadOfWalk(s, l', lost);
    assert forall t :: t in m.walk ==> t in l'.walk;
  }

  lemma HeadOfWalk(s: State, l: Lists, lost: set<nat>)
    requires Inv(s, l, lost) && s.handler.AtLoop? && s.handler.DoneQueueHead != Nil
    ensures l.walk != [] && l.walk[0] == s.handler.DoneQueueHead && s.handler.DoneQueueHead in l.walk
  {
  }

  lemma IterationFlag(s: State, walk: seq<TD>)
    requires s.handler.AtLoop? && s.handler.DoneQueueHead != Nil && walk != [] && walk[0] == s.handler.DoneQueueHead
    requires Known(s, s.handler.DoneQueueHead)
    ensures Iterated(s).transferComplete || HasControl(walk[1..]) <==> s.transferComplete || HasControl(walk)
  {
    assert Iterated(s).transferComplete <==> s.transferComplete || walk[0].Ctl?;
    assert walk == [walk[0]] + walk[1..];
    if t :| t in walk && t.Ctl? { assert t == walk[0] || t in walk[1..]; }
    if t :| t in walk[1..] && t.Ctl? { assert t in walk; }
    if walk[0].Ctl? { assert walk[0] in walk; }
  }

  lemma IterationWords(s: State)
    requires s.handler.AtLoop? && s.handler.DoneQueueHead != Nil && Known(s, s.handler.DoneQueueHead)
    ensures forall d :: Hid(d) != s.handler.DoneQueueHead ==> Iterated(s).Word(d) == s.Word(d)
  {
  }

  /** What the handler has taken from the HCCA is armed again. */
  lemma Rearmed(s: State, l: Lists, s': State, l': Lists, lost: set<nat>)
    requires Inv(s, l, lost) && Inv(s', l', lost) && l'.hc == l.hc && l'.hcca == [] && s'.handler.Idle?
    requires s'.devices == s.devices
    ensures forall d :: Hid(d) in l.hcca ==> s'.Head(d) == Hid(d) && s'.Next(Hid(d)) == Dummy(d) && !s'.Halted(d)
  {
    forall d | Hid(d) in l.hcca ensures s'.Head(d) == Hid(d) && s'.Next(Hid(d)) == Dummy(d) && !s'.Halted(d) {
      DoneIsOwned(s, l, lost, d);
      assert !Done(l', Hid(d));
      assert Owned(s', l', d);
    }
  }

  /** The bits of the words it has written. */
  lemma RearmedBits(s: State, s': State, d: nat)
    requires s'.Head(d) == Hid(d) && !s'.Halted(d) && s'.Carry(d) == s.Carry(d)
    ensures s'.Word(d) & 0xFFFF_FFF0 == s'.Address(Hid(d)) && s'.Word(d) & 1 == 0
    ensures s'.Word(d) & 2 != 0 <==> s.Word(d) & 2 != 0
  {
  }

  lemma AfterWalk(was: State, l: Lists, s: State, l': Lists, lost: set<nat>)
    requires Inv(was, l, lost) && Walking(was, l, s, l', lost) && s.handler == AtLoop(Nil)
    ensures var s' := Leave(s);
      && Inv(s', l', lost) && s'.handler.Idle? && !s'.writeback && l'.hc == l.hc && l'.hcca == []
      && s'.reports == was.reports + Delivered(was, l.hcca)
      && (s'.transferComplete <==> was.transferComplete || exists t :: t in l.hcca && t.Ctl?)
      && (forall d :: s'.Carry(d) == was.Carry(d))
      && (forall d :: Hid(d) in l.hcca ==> s'.Head(d) == Hid(d) && s'.Next(Hid(d)) == Dummy(d) && !s'.Halted(d))
      && forall d :: Hid(d) in l.hcca ==>
        && s'.Word(d) & 0xFFFF_FFF0 == s'.Address(Hid(d)) && s'.Word(d) & 1 == 0
        && (s'.Word(d) & 2 != 0 <==> was.Word(d) & 2 != 0)
  {
    var s' := Leave(s);
    LeaveInv(s, l', lost);
    assert Delivered(s, l'.walk) == [] && s.reports + [] == s.reports;
    Rearmed(was, l, s', l', lost);
    assert forall d :: s'.Carry(d) == s.Carry(d);
    forall d | Hid(d) in l.hcca
      ensures s'.Word(d) & 0xFFFF_FFF0 == s'.Address(Hid(d)) && s'.Word(d) & 1 == 0
      ensures s'.Word(d) & 2 != 0 <==> was.Word(d) & 2 != 0
    {
      RearmedBits(was, s', d);
    }
  }

  class Driver {
    var S: State

    constructor ()
      ensures S == Start()
    {
      S := Start();
    }

    /** The handler run without the controller stepping in between. */
    method OHCIInterruptHandler(ghost l: Lists, ghost lost: set<nat>) returns (ghost l': Lists)
      requires Inv(S, l, lost) && S.handler.Idle? && forall d :: d in S.devices ==> d < 128
      modifies this
      ensures Inv(S, l', lost) && S.handler.Idle? && !S.writeback && l'.hc == l.hc && l'.hcca == []
      ensures S.reports == old(S).reports + Delivered(old(S), l.hcca) && S.successes == old(S).successes
      ensures forall d :: S.Carry(d) == old(S).Carry(d)
      ensures forall d :: Hid(d) in l.hcca ==> S.Head(d) == Hid(d) && S.Next(Hid(d)) == Dummy(d) && !S.Halted(d)
      ensures forall d :: Hid(d) in l.hcca ==>
        && S.Word(d) & 0xFFFF_FFF0 == S.Address(Hid(d)) && S.Word(d) & 1 == 0
        && (S.Word(d) & 2 != 0 <==> old(S).Word(d) & 2 != 0)
      ensures forall d :: Hid(d) !in l.hcca ==> S.Word(d) == old(S).Word(d)
      ensures S.transferComplete <==> old(S).transferComplete || (old(S).writeback && exists t :: t in l.hcca && t.Ctl?)
      ensures S.hccaDoneHead == Nil && S.hcDoneHead == old(S).hcDoneHead && (!old(S).writeback ==> S == old(S))
    {
      l' := l;
      if S.writeback {
        l' := EnterInv(S, l, lost);
        WalkingStart(S, l, l', lost);
        var DoneQueueHead := S.hccaDoneHead;
        S := S.(handler := AtLoop(DoneQueueHead), hccaDoneHead := Nil);
        while DoneQueueHead != Nil
          invariant S.handler == AtLoop(DoneQueueHead) && Walking(old(S), l, S, l', lost)
          decreases |l'.walk|
        {
          l' := WalkingStep(old(S), l, S, l', lost);
          CompleteOne(DoneQueueHead);
          DoneQueueHead := S.handler.DoneQueueHead;
        }
        AfterWalk(old(S), l, S, l', lost);
        S := S.(handler := Idle, writeback := false);
      }
    }

    /** The loop body: search the device that owns the descriptor, report, and re-arm. */
    method CompleteOne(CompletedTD: TD)
      requires S.handler == AtLoop(CompletedTD)
      requires CompletedTD.Ctl?
            || (CompletedTD.Hid? && CompletedTD.device in S.devices && CompletedTD.device < USB_MAX_DEVICES)
      modifies this
      ensures S == Iterated(old(S))
    {
      var NextCompletedTD := S.Next(CompletedTD);
      if CompletedTD.Ctl? {
        S := S.(transferComplete := true);
        S := S.(handler := AtLoop(NextCompletedTD));
      } else {
        var i := 0;
        while i < USB_MAX_DEVICES && !(i in S.devices && CompletedTD == Hid(i))
          invariant i <= CompletedTD.device
        {
          i := i + 1;
        }
        Requeue(CompletedTD, i);
        S := S.(handler := AtLoop(NextCompletedTD));
      }
    }

    method Requeue(CompletedTD: TD, i: nat)
      requires CompletedTD == Hid(i)
      modifies this
      ensures S == old(S).(reports := if old(S).Code(Hid(i)) == 0 then old(S).reports + [i] else old(S).reports,
                           nextTD := old(S).nextTD[Hid(i) := Dummy(i)],
                           head := old(S).head[i := RearmedWord(old(S).Address(Hid(i)), old(S).Word(i))])
    {
      if S.Code(CompletedTD) == 0 {
        S := S.(reports := S.reports + [i]);
      }
      S := S.(nextTD := S.nextTD[CompletedTD := Dummy(i)]);
      var CurrentHead := S.Word(i);
      S := S.(head := S.head[i := RearmedWord(S.Address(CompletedTD), CurrentHead)]);
    }
  }
}
