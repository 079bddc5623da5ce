/** The descriptor chain of a control request (system/kernel/Drivers/USB/OHCI.c),
    against the packets a control transfer consists of (section 8.5.3 of USB 2.0). */
module ControlTransfer {
  import opened Arithmetic
  import opened Options

  const U32: nat := 0x1_0000_0000
  const SETUP: nat := 0
  const OUT: nat := 1
  const IN: nat := 2

  /** A general transfer descriptor; addresses are physical, 0 is no address. */
  datatype Descriptor = Descriptor(
    BufferRounding: nat, DirectionPID: nat, DelayInterrupt: nat, DataToggle: nat, ErrorCount: nat, ConditionCode: nat,
    CurrentBufferPointer: nat, NextTD: nat, BufferEnd: nat)

  const ZERO: Descriptor := Descriptor(0, 0, 0, 0, 0, 0, 0, 0, 0)

  /** One packet on the bus: its token, the bytes [start, start + len), the DataToggle field it
      is sent with, and whether its completion asks for an interrupt. */
  datatype Packet = Packet(pid: nat, start: nat, len: nat, toggle: nat, interrupts: bool)

  // ----- What a control transfer is -----

  /** What happened to the descriptors so far: a request was built with its status descriptor at
      the given place, or the controller completed a descriptor. */
  datatype Event = Built(status: nat) | Completed(index: nat)

  /** The data stage, sent from descriptor k on. */
  function DataPackets(pid: nat, buffer: nat, count: nat, size: nat, events: seq<Event>, k: nat): (ps: seq<Packet>)
    requires size > 0
    decreases count
  {
    if count == 0 then []
    else if count <= size then [Packet(pid, buffer, count, ToggleField(events, k), false)]
    else
      [Packet(pid, buffer, size, ToggleField(events, k), false)]
      + DataPackets(pid, buffer + size, count - size, size, events, k + 1)
  }

  function Transfer(request: nat, deviceToHost: bool, buffer: nat, count: nat, size: nat,
                    events: seq<Event>): seq<Packet>
    requires size > 0
  {
    [Packet(SETUP, request, 8, 3, false)]
    + DataPackets(if deviceToHost then IN else OUT, buffer, count, size, events, 1)
    + [Packet(if deviceToHost then OUT else IN, 0, 0, 3, true)]
  }

  // ----- Data toggles -----

  function Flipped(f: nat): nat { if f % 2 == 0 then f + 1 else f - 1 }

  /** The DataToggle field of descriptor k. A request sets it to 3 in its setup and status
      descriptors, zeroes the dummy after the status, and writes it nowhere else; the controller
      flips the low bit of a descriptor it completes (section 4.3.1 of OpenHCI 1.0a). */
  function ToggleField(events: seq<Event>, k: nat): (f: nat)
    ensures f < 4
  {
    if events == [] then 0
    else
      var f := ToggleField(events[..|events| - 1], k);
      match events[|events| - 1]
      case Built(e) => if k == 0 || k == e then 3 else if k == e + 1 then 0 else f
      case Completed(i) => if i == k then Flipped(f) else f
  }

  /** A completion exchanges DATA0 (2) and DATA1 (3) in its own descriptor, and 0 and 1, and nothing else. */
  lemma CompletionExchanges(events: seq<Event>, i: nat, k: nat)
    ensures var f, f' := ToggleField(events, k), ToggleField(events + [Completed(i)], k);
      if i != k then f' == f else (f == 2 <==> f' == 3) && (f == 3 <==> f' == 2) && (f == 0 <==> f' == 1)
  {
    assert (events + [Completed(i)])[..|events|] == events;
  }

  /** A data descriptor has a toggle of its own, instead of the endpoint's, exactly when an earlier
      request ended at it and none after that ended right before it. */
  lemma {:induction false} ToggleFieldIff(events: seq<Event>, k: nat)
    requires k > 0
    ensures ToggleField(events, k) >= 2 <==> exists j :: EndedAt(events, k, j)
  {
    if events != [] {
      var n := |events| - 1;
      var before := events[..n];
      ToggleFieldIff(before, k);
      if events[n] == Built(k) {
        assert EndedAt(events, k, n);
      } else if events[n] != Built(k - 1) {
        if j :| EndedAt(before, k, j) { assert EndedAt(events, k, j); }
        if j :| EndedAt(events, k, j) { assert EndedAt(before, k, j); }
      }
    }
  }

  ghost predicate EndedAt(events: seq<Event>, k: nat, j: int)
    requires k > 0
  {
    && 0 <= j < |events| && events[j] == Built(k)
    && forall m {:trigger events[m]} :: j < m < |events| ==> events[m] != Built(k - 1)
  }

  /** DATA0 (false) or DATA1 (true) for each packet: from the descriptor if its field says so, else
      from the endpoint's carry, which follows the last packet (section 4.3.1 of OpenHCI 1.0a). */
  function Toggles(ps: seq<Packet>, carry: bool): (ts: seq<bool>)
    ensures |ts| == |ps|
  {
    if ps == [] then []
    else
      var t := if ps[0].toggle >= 2 then ps[0].toggle == 3 else carry;
      [t] + Toggles(ps[1..], !t)
  }

  lemma {:induction false} TogglesAt(ps: seq<Packet>, carry: bool, i: nat)
    requires i < |ps|
    ensures Toggles(ps, carry)[i]
       == if ps[i].toggle >= 2 then ps[i].toggle == 3 else if i == 0 then carry else !Toggles(ps, carry)[i - 1]
  {
    if i > 0 {
      var t := Toggles(ps, carry)[0];
      TogglesAt(ps[1..], !t, i - 1);
    }
  }

  /** Section 8.5.3 of USB 2.0 asks for DATA0 in the setup stage; every request built here uses
      DATA1 there, and in the status stage, where DATA1 is right. */
  lemma SetupAndStatusUseData1(request: nat, deviceToHost: bool, buffer: nat, count: nat, size: nat,
                               events: seq<Event>, carry: bool)
    requires size > 0
    ensures var ts := Toggles(Transfer(request, deviceToHost, buffer, count, size, events), carry);
      ts[0] && ts[|ts| - 1]
  {
    var ps := Transfer(request, deviceToHost, buffer, count, size, events);
    TogglesAt(ps, carry, 0);
    TogglesAt(ps, carry, |ps| - 1);
  }

  /** The field lets data packet i have the toggle it needs after packets that had theirs. */
  predicate Right(i: nat, f: nat) {
    if i == 1 then f == 3 else if i % 2 == 0 then f != 3 else f != 2
  }

  /** The data stage has to alternate, beginning with DATA1. It does exactly when the fields left in
      its descriptors are right, which in particular takes a 3 in descriptor 1. */
  lemma DataAlternatesIff(request: nat, deviceToHost: bool, buffer: nat, count: nat, size: nat, events: seq<Event>,
                          carry: bool)
    requires size > 0
    ensures var n := (count + size - 1) / size;
      var ts := Toggles(Transfer(request, deviceToHost, buffer, count, size, events), carry);
      && |ts| == n + 2
      && (Alternates(ts, n) <==> forall i :: 1 <= i <= n ==> Right(i, ToggleField(events, i)))
  {
    var n := (count + size - 1) / size;
    var pid := if deviceToHost then IN else OUT;
    var ps := Transfer(request, deviceToHost, buffer, count, size, events);
    var ts := Toggles(ps, carry);
    DataPacketsAt(pid, buffer, count, size, events, 1);
    TogglesAt(ps, carry, 0);
    forall i | 1 <= i <= n ensures Follows(ts, i, ToggleField(events, i)) {
      assert ps[i] == DataPackets(pid, buffer, count, size, events, 1)[i - 1];
      TogglesAt(ps, carry, i);
    }
    AlternatesIff(ts, n, events);
  }

  /** It happens with every first request: no descriptor has a field left in it, and the data stage
      begins with DATA0. */
  lemma FirstDataStageFails(request: nat, deviceToHost: bool, buffer: nat, count: nat, size: nat, carry: bool)
    requires size > 0 && count > 0
    ensures var n := (count + size - 1) / size;
      var ts := Toggles(Transfer(request, deviceToHost, buffer, count, size, []), carry);
      |ts| == n + 2 && n > 0 && !Alternates(ts, n)
  {
    var n := (count + size - 1) / size;
    DataAlternatesIff(request, deviceToHost, buffer, count, size, [], carry);
    DataPacketsAt(if deviceToHost then IN else OUT, buffer, count, size, [], 1);
    assert n > 0 && !Right(1, ToggleField([], 1));
  }

  /** Toggle i comes from its own field, or from the packet before. */
  predicate Follows(ts: seq<bool>, i: nat, f: nat)
    requires 1 <= i < |ts|
  {
    ts[i] == if f >= 2 then f == 3 else !ts[i - 1]
  }

  ghost predicate Alternates(ts: seq<bool>, n: nat)
    requires n < |ts|
  {
    forall i :: 1 <= i <= n ==> (ts[i] <==> i % 2 == 1)
  }

  lemma {:induction false} AlternatesIff(ts: seq<bool>, n: nat, events: seq<Event>)
    requires n < |ts| && ts[0] && forall i :: 1 <= i <= n ==> Follows(ts, i, ToggleField(events, i))
    ensures Alternates(ts, n) <==> forall i :: 1 <= i <= n ==> Right(i, ToggleField(events, i))
  {
    if n > 0 {
      AlternatesIff(ts, n - 1, events);
      assert Follows(ts, n, ToggleField(events, n));
      if Alternates(ts, n - 1) {
        assert ts[n - 1] <==> n == 1 || (n - 1) % 2 == 1;
        assert (ts[n] <==> n % 2 == 1) <==> Right(n, ToggleField(events, n));
      }
      assert Alternates(ts, n) <==> Alternates(ts, n - 1) && (ts[n] <==> n % 2 == 1);
    }
  }

  // ----- What the controller does with a chain -----

  function PacketOf(d: Descriptor): Packet {
    Packet(d.DirectionPID, d.CurrentBufferPointer,
           if d.CurrentBufferPointer == 0 || d.BufferEnd + 1 < d.CurrentBufferPointer then 0
           else d.BufferEnd + 1 - d.CurrentBufferPointer,
           d.DataToggle, d.DelayInterrupt == 0)
  }

  /** The packets sent from address head up to the tail; None if the chain leaves the
      descriptor array or does not reach the tail within the given number of steps. */
  function Execute(td: seq<Descriptor>, base: nat, head: nat, tail: nat, steps: nat): Option<seq<Packet>>
    decreases steps
  {
    if head == tail then Some([])
    else if steps == 0 || head < base || (head - base) % 16 != 0 || (head - base) / 16 >= |td| then None
    else
      var d := td[(head - base) / 16];
      match Execute(td, base, d.NextTD, tail, steps - 1)
      case None => None
      case Some(rest) => Some([PacketOf(d)] + rest)
  }

  lemma CeilingStep(count: nat, size: nat)
    requires 0 < size < count
    ensures (count + size - 1) / size == 1 + (count - size + size - 1) / size
  {
    var q, r := (count - 1) / size, (count - 1) % size;
    DivMod(q + 1, r, size);
    assert count + size - 1 == (q + 1) * size + r;
  }

  lemma CeilingSmall(count: nat, size: nat)
    requires count <= size && size > 0
    ensures (count + size - 1) / size == if count == 0 then 0 else 1
  {
    if count == 0 { DivMod(0, size - 1, size); } else {
      DivMod(1, count - 1, size);
      assert count + size - 1 == 1 * size + (count - 1);
    }
  }

  /** The data stage has ceil(count / size) packets; packet i starts i * size bytes in, and
      all but the last are full. */
  /** Packet i of a transfer is packet i - 1 of its rest. */
  lemma PacketShift(pid: nat, buffer: nat, count: nat, size: nat, i: nat, toggle: nat)
    requires i > 0 && count >= size
    ensures DataPacket(pid, buffer, count, size, i, toggle)
         == DataPacket(pid, buffer + size, count - size, size, i - 1, toggle)
    ensures i * size < count <==> (i - 1) * size < count - size
  {
    assert i * size == (i - 1) * size + size;
  }

  lemma {:induction false} DataPacketsAt(pid: nat, buffer: nat, count: nat, size: nat, events: seq<Event>, k: nat)
    requires size > 0
    ensures |DataPackets(pid, buffer, count, size, events, k)| == (count + size - 1) / size
    ensures forall i :: 0 <= i < (count + size - 1) / size ==>
      && i * size < count
      && DataPackets(pid, buffer, count, size, events, k)[i]
         == DataPacket(pid, buffer, count, size, i, ToggleField(events, k + i))
    decreases count
  {
    var ps := DataPackets(pid, buffer, count, size, events, k);
    if count <= size {
      CeilingSmall(count, size);
    } else {
      CeilingStep(count, size);
      var rest := DataPackets(pid, buffer + size, count - size, size, events, k + 1);
      DataPacketsAt(pid, buffer + size, count - size, size, events, k + 1);
      forall i | 0 <= i < |ps|
        ensures i * size < count && ps[i] == DataPacket(pid, buffer, count, size, i, ToggleField(events, k + i))
      {
        if i > 0 {
          assert ps[i] == rest[i - 1];
          PacketShift(pid, buffer, count, size, i, ToggleField(events, k + i));
        }
      }
    }
  }

  /** The number of bytes in packet i of the data stage. */
  function PacketLength(count: nat, size: nat, i: nat): nat {
    if i * size >= count then 0 else if count - i * size > size then size else count - i * size
  }

  function DataPacket(pid: nat, buffer: nat, count: nat, size: nat, i: nat, toggle: nat): Packet {
    Packet(pid, buffer + i * size, PacketLength(count, size, i), toggle, false)
  }

  /** All packets are full but the last, which ends the data. */
  lemma LengthsTile(count: nat, size: nat, i: nat)
    requires size > 0 && i * size < count
    ensures 0 < PacketLength(count, size, i) <= size
    ensures i * size + size <= count ==> PacketLength(count, size, i) == size
    ensures i * size + size > count ==> i * size + PacketLength(count, size, i) == count
  {
  }

  /** The packets of a transfer one by one: setup is token 0, OUT is 1 and IN is 2. The data stage goes
      the way the request asks for, and the status stage the other way. */
  lemma TransferPackets(request: nat, deviceToHost: bool, buffer: nat, count: nat, size: nat, events: seq<Event>,
                        i: nat)
    requires size > 0
    ensures var ps, n := Transfer(request, deviceToHost, buffer, count, size, events), (count + size - 1) / size;
      && |ps| == n + 2
      && ps[0] == Packet(0, request, 8, 3, false)
      && (1 <= i <= n ==>
            && (i - 1) * size < count
            && ps[i] == Packet(if deviceToHost then 2 else 1, buffer + (i - 1) * size,
                               PacketLength(count, size, i - 1), ToggleField(events, i), false))
      && ps[n + 1] == Packet(if deviceToHost then 1 else 2, 0, 0, 3, true)
  {
    var pid, n := if deviceToHost then IN else OUT, (count + size - 1) / size;
    DataPacketsAt(pid, buffer, count, size, events, 1);
    if 1 <= i <= n {
      var k := i - 1;
      assert DataPackets(pid, buffer, count, size, events, 1)[k]
          == DataPacket(pid, buffer, count, size, k, ToggleField(events, 1 + k));
    }
  }

  // ----- The transfer moves the buffer exactly once -----

  /** Storing the bytes of incoming packets where they belong. */
  function Store(mem: seq<int>, ps: seq<Packet>, bytes: seq<int>): seq<int>
    decreases |ps|
  {
    if ps == [] then mem
    else if ps[0].len > |bytes| || ps[0].start + ps[0].len > |mem| then mem
    else Store(mem[..ps[0].start] + bytes[..ps[0].len] + mem[ps[0].start + ps[0].len..], ps[1..], bytes[ps[0].len..])
  }

  function Load(mem: seq<int>, ps: seq<Packet>): seq<int>
    requires forall i :: 0 <= i < |ps| ==> ps[i].start + ps[i].len <= |mem|
  {
    if ps == [] then [] else mem[ps[0].start..ps[0].start + ps[0].len] + Load(mem, ps[1..])
  }

  lemma CopyStep(mem: seq<int>, buffer: nat, size: nat, bytes: seq<int>)
    requires size < |bytes| && buffer + |bytes| <= |mem|
    ensures var m := mem[..buffer] + bytes[..size] + mem[buffer + size..];
      && |m| == |mem|
      && m[..buffer + size] + bytes[size..] + m[buffer + |bytes|..] == mem[..buffer] + bytes + mem[buffer + |bytes|..]
  {
  }

  /** Incoming packets that all arrive full amount to one contiguous copy. */
  lemma {:induction false} StoreIsCopy(mem: seq<int>, pid: nat, buffer: nat, size: nat, bytes: seq<int>,
                                       events: seq<Event>, k: nat)
    requires size > 0 && buffer + |bytes| <= |mem|
    ensures Store(mem, DataPackets(pid, buffer, |bytes|, size, events, k), bytes)
         == mem[..buffer] + bytes + mem[buffer + |bytes|..]
    decreases |bytes|
  {
    var count := |bytes|;
    var ps := DataPackets(pid, buffer, count, size, events, k);
    if count > size {
      var mem' := mem[..buffer] + bytes[..size] + mem[buffer + size..];
      CopyStep(mem, buffer, size, bytes);
      StoreIsCopy(mem', pid, buffer + size, size, bytes[size..], events, k + 1);
      assert ps[1..] == DataPackets(pid, buffer + size, count - size, size, events, k + 1);
    } else if count > 0 {
      assert bytes[..count] == bytes;
    }
  }

  lemma SplitSlice(mem: seq<int>, a: nat, b: nat, c: nat)
    requires a <= b <= c <= |mem|
    ensures mem[a..c] == mem[a..b] + mem[b..c]
  {
  }

  /** Outgoing packets carry the buffer, in order, once. */
  lemma {:induction false} LoadIsBuffer(mem: seq<int>, pid: nat, buffer: nat, count: nat, size: nat,
                                        events: seq<Event>, k: nat)
    requires size > 0 && buffer + count <= |mem|
    ensures var ps := DataPackets(pid, buffer, count, size, events, k);
      (forall i :: 0 <= i < |ps| ==> ps[i].start + ps[i].len <= |mem|) && Load(mem, ps) == mem[buffer..buffer + count]
    decreases count
  {
    if count > size {
      LoadIsBuffer(mem, pid, buffer + size, count - size, size, events, k + 1);
      var ps := DataPackets(pid, buffer, count, size, events, k);
      assert ps[1..] == DataPackets(pid, buffer + size, count - size, size, events, k + 1);
      SplitSlice(mem, buffer, buffer + size, buffer + count);
    }
  }

  // ----- The chain as it is built -----

  datatype RequestPacket = RequestPacket(RequestType: nat, Request: nat, Value: nat, Index: nat, Count: nat)

  /** A chain whose descriptors point to their successors executes one after the other. */
  lemma {:induction false} ExecuteInOrder(td: seq<Descriptor>, base: nat, k: nat, last: nat, steps: nat)
    requires k <= last <= |td| && last - k <= steps
    requires forall j :: k <= j < last ==> td[j].NextTD == base + 16 * (j + 1)
    ensures var r := Execute(td, base, base + 16 * k, base + 16 * last, steps);
      r.Some? && |r.value| == last - k && forall i :: 0 <= i < last - k ==> r.value[i] == PacketOf(td[k + i])
    decreases last - k
  {
    if k < last { ExecuteInOrder(td, base, k + 1, last, steps - 1); }
  }

  /** Descriptor k moves packet p and points to its successor. */
  ghost predicate Moves(d: Descriptor, base: nat, k: nat, p: Packet) {
    PacketOf(d) == p && d.NextTD == base + 16 * (k + 1)
  }

  /** A chain in order executes as the packets its descriptors move. */
  lemma ChainSpells(td: seq<Descriptor>, base: nat, ps: seq<Packet>, head: nat, tail: nat, steps: nat)
    requires |ps| <= |td| && |ps| <= steps && head == base && tail == base + 16 * |ps|
    requires forall j {:trigger td[j]} :: 0 <= j < |ps| ==> Moves(td[j], base, j, ps[j])
    ensures Execute(td, base, head, tail, steps) == Some(ps)
  {
    forall j | 0 <= j < |ps| ensures td[j].NextTD == base + 16 * (j + 1) { assert Moves(td[j], base, j, ps[j]); }
    ExecuteInOrder(td, base, 0, |ps|, steps);
    assert base + 16 * 0 == base;
    var r := Execute(td, base, base, base + 16 * |ps|, steps).value;
    forall i | 0 <= i < |ps| ensures r[i] == ps[i] {
      assert r[i] == PacketOf(td[0 + i]);
      assert Moves(td[i], base, i, ps[i]);
    }
    assert r == ps;
  }

  // ----- The descriptors of a request -----

  ghost predicate SetupBuilt(d: Descriptor, base: nat, request: nat) {
    d == Descriptor(BufferRounding := 0, DirectionPID := SETUP, DelayInterrupt := 7, DataToggle := 3, ErrorCount := 0,
                    ConditionCode := 0, CurrentBufferPointer := request, NextTD := base + 16, BufferEnd := request + 7)
  }

  /** Descriptor k sends packet k - 1 of the data stage. */
  ghost predicate DataBuilt(d: Descriptor, toggle: nat, base: nat, k: nat, deviceToHost: bool, buffer: nat, count: nat,
                            size: nat)
    requires k > 0
  {
    && d.BufferRounding == 1 && d.DirectionPID == (if deviceToHost then IN else OUT) && d.DelayInterrupt == 7
    && d.DataToggle == toggle && d.ErrorCount == 0 && d.ConditionCode == 0 && d.NextTD == base + 16 * (k + 1)
    && (k - 1) * size < count && d.CurrentBufferPointer == buffer + (k - 1) * size
    && d.BufferEnd + 1 == d.CurrentBufferPointer + PacketLength(count, size, k - 1)
  }

  ghost predicate StatusBuilt(d: Descriptor, base: nat, k: nat, deviceToHost: bool) {
    d == Descriptor(BufferRounding := 0, DirectionPID := if deviceToHost then OUT else IN, DelayInterrupt := 0,
                    DataToggle := 3, ErrorCount := 0, ConditionCode := 0, CurrentBufferPointer := 0,
                    NextTD := base + 16 * (k + 1), BufferEnd := 0)
  }

  /** All descriptors after a request with n data packets. */
  ghost predicate ChainBuilt(was: seq<Descriptor>, now: seq<Descriptor>, base: nat, request: nat, deviceToHost: bool,
                             buffer: nat, count: nat, size: nat, n: nat)
    requires |was| == 64 && |now| == 64 && n <= 61
  {
    && SetupBuilt(now[0], base, request)
    && (forall k :: 1 <= k <= n ==> DataBuilt(now[k], was[k].DataToggle, base, k, deviceToHost, buffer, count, size))
    && StatusBuilt(now[n + 1], base, n + 1, deviceToHost)
    && now[n + 2] == ZERO
    && forall k :: n + 2 < k < 64 ==> now[k] == was[k]
  }

  /** Field by field, what is in the descriptors: token 0 is setup, 1 is OUT and 2 is IN; only the status
      descriptor asks for an interrupt; DATA1 is 3; each points to the next one, 16 bytes on. */
  lemma BuiltFields(was: seq<Descriptor>, now: seq<Descriptor>, base: nat, request: nat, deviceToHost: bool,
                    buffer: nat, count: nat, size: nat, n: nat, k: nat)
    requires |was| == 64 && |now| == 64 && n <= 61
    requires ChainBuilt(was, now, base, request, deviceToHost, buffer, count, size, n)
    ensures now[0] == Descriptor(0, 0, 7, 3, 0, 0, request, base + 16, request + 7)
    ensures 1 <= k <= n ==>
      && (k - 1) * size < count
      && now[k] == Descriptor(1, if deviceToHost then 2 else 1, 7, was[k].DataToggle, 0, 0, buffer + (k - 1) * size,
                              base + 16 * (k + 1), now[k].BufferEnd)
      && now[k].BufferEnd + 1 == buffer + (k - 1) * size + PacketLength(count, size, k - 1)
    ensures now[n + 1] == Descriptor(0, if deviceToHost then 1 else 2, 0, 3, 0, 0, 0, base + 16 * (n + 2), 0)
    ensures now[n + 2] == Descriptor(0, 0, 0, 0, 0, 0, 0, 0, 0)
    ensures n + 2 < k < 64 ==> now[k] == was[k]
  {
    if 1 <= k <= n { assert DataBuilt(now[k], was[k].DataToggle, base, k, deviceToHost, buffer, count, size); }
  }

  /** Packet i of the data stage is the one that descriptor i + 1 has to send. */
  ghost predicate Plan(ps: seq<Packet>, was: seq<Descriptor>, deviceToHost: bool, count: nat, buffer: nat, size: nat) {
    && |ps| < |was|
    && forall i :: 0 <= i < |ps| ==>
      && i * size < count
      && ps[i] == DataPacket(if deviceToHost then IN else OUT, buffer, count, size, i, was[i + 1].DataToggle)
  }

  /** Such a chain executes as the packets of the three stages. */
  lemma ChainExecutes(was: seq<Descriptor>, now: seq<Descriptor>, base: nat, request: nat, deviceToHost: bool,
                      buffer: nat, count: nat, size: nat, ps: seq<Packet>, head: nat, tail: nat)
    requires |was| == 64 && |now| == 64 && |ps| <= 61 && size > 0 && request > 0 && (count > 0 ==> buffer > 0)
    requires ChainBuilt(was, now, base, request, deviceToHost, buffer, count, size, |ps|)
    requires Plan(ps, was, deviceToHost, count, buffer, size)
    requires head == base && tail == base + 16 * (|ps| + 2)
    ensures Execute(now, base, head, tail, 64)
         == Some([Packet(SETUP, request, 8, 3, false)] + ps + [Packet(if deviceToHost then OUT else IN, 0, 0, 3, true)])
  {
    var t := [Packet(SETUP, request, 8, 3, false)] + ps + [Packet(if deviceToHost then OUT else IN, 0, 0, 3, true)];
    forall j {:trigger now[j]} | 0 <= j < |t| ensures Moves(now[j], base, j, t[j]) {
      if 1 <= j <= |ps| {
        assert t[j] == ps[j - 1];
        DataMoves(now[j], base, j, deviceToHost, buffer, count, size, ps[j - 1]);
      }
    }
    ChainSpells(now, base, t, head, tail, 64);
  }

  lemma DataMoves(d: Descriptor, base: nat, k: nat, deviceToHost: bool, buffer: nat, count: nat, size: nat, p: Packet)
    requires k > 0 && size > 0 && buffer > 0 && DataBuilt(d, p.toggle, base, k, deviceToHost, buffer, count, size)
    requires p == DataPacket(if deviceToHost then IN else OUT, buffer, count, size, k - 1, p.toggle)
    ensures Moves(d, base, k, p)
  {
    LengthsTile(count, size, k - 1);
  }

  class RequestStorage {
    const Base: nat               // address of TransferDescriptor[0]
    const RequestAddress: nat     // address of Request
    const td: array<Descriptor>   // TransferDescriptor
    var Request: RequestPacket
    var FunctionAddress: nat
    var MaxPacketSize: nat
    var HeadPointer: nat          // the 28-bit field: an address divided by 16
    var TailPointer: nat
    ghost var Events: seq<Event>  // what happened to the descriptors so far

    /** Every address fits its field. */
    ghost predicate Fixed() {
      && td.Length == 64 && Base % 16 == 0 && 0 < RequestAddress
      && Base + 64 * 16 <= U32 && RequestAddress + 8 <= U32
    }

    ghost predicate Valid()
      reads this`Events, td
    {
      && Fixed()
      && (forall k :: 0 <= k < 64 ==> td[k].DataToggle == ToggleField(Events, k))
    }

    constructor (base: nat, request: nat)
      requires base % 16 == 0 && 0 < request && base + 64 * 16 <= U32 && request + 8 <= U32
      ensures Valid() && fresh(td) && Base == base && RequestAddress == request && Events == []
      ensures forall i :: 0 <= i < 64 ==> td[i] == ZERO
    {
      Base, RequestAddress := base, request;
      td := new Descriptor[64](_ => ZERO);
      Request := RequestPacket(0, 0, 0, 0, 0);
      FunctionAddress, MaxPacketSize, HeadPointer, TailPointer := 0, 0, 0, 0;
      Events := [];
    }

    /** The address of a descriptor, as stored in a 32-bit field. */
    function AddressOf(i: nat): nat { (Base + 16 * i) % U32 }

    /** OHCISendControlRequest up to the hand-over to the controller. */
    method BuildRequest(functionAddress: nat, RequestType: nat, request: nat, Value: nat, Index: nat, Count: nat,
                        DataBuffer: nat, maxPacketSize: nat)
      requires Valid() && Count < 0x1_0000 && 1 <= maxPacketSize < 0x800
      requires (Count + maxPacketSize - 1) / maxPacketSize <= 61
      requires Count > 0 ==> 0 < DataBuffer && DataBuffer + Count <= U32
      modifies this, td
      ensures Valid() && Request == RequestPacket(RequestType, request, Value, Index, Count)
      ensures FunctionAddress == functionAddress && MaxPacketSize == maxPacketSize
      ensures ChainBuilt(old(td[..]), td[..], Base, RequestAddress, RequestType >= 0x80, DataBuffer, Count,
                         maxPacketSize, (Count + maxPacketSize - 1) / maxPacketSize)
      ensures HeadPointer * 16 == Base && TailPointer == Base + 16 * (2 + (Count + maxPacketSize - 1) / maxPacketSize)
      ensures Events == old(Events) + [Built(1 + (Count + maxPacketSize - 1) / maxPacketSize)]
      ensures Execute(td[..], Base, HeadPointer * 16, TailPointer, td.Length)
           == Some(Transfer(RequestAddress, RequestType >= 0x80, DataBuffer, Count, maxPacketSize, old(Events)))
    {
      MaxPacketSize, FunctionAddress := maxPacketSize, functionAddress;
      Request := RequestPacket(RequestType, request, Value, Index, Count);
      var IsDeviceToHost := RequestType >= 0x80;
      var NumDataTDs: nat := 0;
      if Count > 0 {
        NumDataTDs := (Count + maxPacketSize - 1) / maxPacketSize;
      }
      CeilingSmall(0, maxPacketSize);
      ghost var pid := if IsDeviceToHost then IN else OUT;
      ghost var ps := DataPackets(pid, DataBuffer, Count, maxPacketSize, Events, 1);
      DataPacketsAt(pid, DataBuffer, Count, maxPacketSize, Events, 1);
      BuildChain(NumDataTDs, IsDeviceToHost, Count, DataBuffer, maxPacketSize, ps);
    }

    /** The three stages, linked in order, and the endpoint's head and tail. */
    method BuildChain(NumDataTDs: nat, IsDeviceToHost: bool, Count: nat, DataBuffer: nat, maxPacketSize: nat,
                      ghost ps: seq<Packet>)
      requires Valid() && |ps| == NumDataTDs <= 61 && 1 <= maxPacketSize
      requires Plan(ps, td[..], IsDeviceToHost, Count, DataBuffer, maxPacketSize)
      requires Count > 0 ==> 0 < DataBuffer && DataBuffer + Count <= U32
      modifies this`HeadPointer, this`TailPointer, this`Events, td
      ensures Valid() && Events == old(Events) + [Built(1 + NumDataTDs)]
      ensures HeadPointer * 16 == Base && TailPointer == Base + 16 * (2 + NumDataTDs)
      ensures ChainBuilt(old(td[..]), td[..], Base, RequestAddress, IsDeviceToHost, DataBuffer, Count, maxPacketSize,
                         NumDataTDs)
      ensures Execute(td[..], Base, HeadPointer * 16, TailPointer, td.Length)
           == Some([Packet(SETUP, RequestAddress, 8, 3, false)] + ps
                   + [Packet(if IsDeviceToHost then OUT else IN, 0, 0, 3, true)])
    {
      var StatusTDIndex := 1 + NumDataTDs;
      var DummyTDIndex := StatusTDIndex + 1;
      ghost var was := td[..];
      BuildSetup(NumDataTDs, StatusTDIndex);
      BuildData(NumDataTDs, StatusTDIndex, IsDeviceToHost, Count, DataBuffer, maxPacketSize);
      BuildStatus(IsDeviceToHost, StatusTDIndex, DummyTDIndex);
      HeadPointer := AddressOf(0) / 16;
      TailPointer := AddressOf(DummyTDIndex);
      Pointers(Base, 2 + NumDataTDs);
      ghost var now := td[..];
      assert ChainBuilt(was, now, Base, RequestAddress, IsDeviceToHost, DataBuffer, Count, maxPacketSize, NumDataTDs);
      ChainExecutes(was, now, Base, RequestAddress, IsDeviceToHost, DataBuffer, Count, maxPacketSize, ps,
                    HeadPointer * 16, TailPointer);
      RecordBuilt(StatusTDIndex, now);
    }

    /** The history grows by this request. */
    ghost method RecordBuilt(StatusTDIndex: nat, now: seq<Descriptor>)
      requires td.Length == 64 && now == td[..] && 0 < StatusTDIndex < 63
      requires now[0].DataToggle == 3 && now[StatusTDIndex].DataToggle == 3 && now[StatusTDIndex + 1].DataToggle == 0
      requires forall k :: 0 < k < 64 && k != StatusTDIndex && k != StatusTDIndex + 1 ==>
        now[k].DataToggle == ToggleField(Events, k)
      modifies this`Events
      ensures Events == old(Events) + [Built(StatusTDIndex)]
      ensures forall k :: 0 <= k < 64 ==> td[k].DataToggle == ToggleField(Events, k)
    {
      ghost var before := Events;
      Events := Events + [Built(StatusTDIndex)];
      assert Events[..|Events| - 1] == before;
      forall k | 0 <= k < 64 ensures now[k].DataToggle == ToggleField(Events, k) {}
    }

    /** What the controller writes back into a descriptor when it completes it. */
    method Complete(k: nat, code: nat, current: nat, next: nat)
      requires Valid() && k < 64
      modifies td, this`Events
      ensures Valid() && Events == old(Events) + [Completed(k)]
      ensures forall j :: 0 <= j < 64 && j != k ==> td[j] == old(td[j])
      ensures var f := old(td[k].DataToggle); td[k].DataToggle == if f == 0 then 1 else if f == 1 then 0 else 5 - f
    {
      ghost var now := td[..];
      td[k] := td[k].(DataToggle := Flipped(td[k].DataToggle), ConditionCode := code, CurrentBufferPointer := current,
                      NextTD := next);
      ghost var before := Events;
      Events := Events + [Completed(k)];
      assert Events[..|Events| - 1] == before;
      forall j | 0 <= j < 64 ensures td[j].DataToggle == ToggleField(Events, j) {
        assert now[j].DataToggle == ToggleField(before, j);
      }
    }

    lemma Pointers(base: nat, n: nat)
      requires base % 16 == 0 && base + 16 * 64 <= U32 && n < 64
      ensures base % U32 / 16 * 16 == base && (base + 16 * n) % U32 == base + 16 * n
    {
    }

    method BuildSetup(NumDataTDs: nat, StatusTDIndex: nat)
      requires Valid() && NumDataTDs <= 61 && StatusTDIndex == 1 + NumDataTDs
      modifies td
      ensures SetupBuilt(td[0], Base, RequestAddress)
      ensures forall i :: 0 < i < td.Length ==> td[i] == old(td[i])
    {
      td[0] := td[0].(DirectionPID := 0, ConditionCode := 0, ErrorCount := 0, DataToggle := 3, DelayInterrupt := 7,
                      BufferRounding := 0, CurrentBufferPointer := RequestAddress, BufferEnd := RequestAddress + 8 - 1);
      if NumDataTDs > 0 {
        td[0] := td[0].(NextTD := AddressOf(1));
      } else {
        td[0] := td[0].(NextTD := AddressOf(StatusTDIndex));
      }
    }

    method BuildData(NumDataTDs: nat, StatusTDIndex: nat, IsDeviceToHost: bool, Count: nat, DataBuffer: nat,
                     maxPacketSize: nat)
      requires Fixed() && NumDataTDs <= 61 && StatusTDIndex == 1 + NumDataTDs && 1 <= maxPacketSize
      requires forall i :: 0 <= i < NumDataTDs ==> i * maxPacketSize < Count
      requires Count > 0 ==> 0 < DataBuffer && DataBuffer + Count <= U32
      modifies td
      ensures forall k :: 1 <= k <= NumDataTDs ==>
        DataBuilt(td[k], old(td[k].DataToggle), Base, k, IsDeviceToHost, DataBuffer, Count, maxPacketSize)
      ensures forall k :: 0 <= k < 64 && !(1 <= k <= NumDataTDs) ==> td[k] == old(td[k])
    {
      for i := 0 to NumDataTDs
        invariant forall k :: 0 <= k < 64 && !(1 <= k <= i) ==> td[k] == old(td[k])
        invariant forall k :: 1 <= k <= i ==>
          DataBuilt(td[k], old(td[k].DataToggle), Base, k, IsDeviceToHost, DataBuffer, Count, maxPacketSize)
      {
        BuildDataTD(i, NumDataTDs, StatusTDIndex, IsDeviceToHost, Count, DataBuffer, maxPacketSize);
      }
    }

    /** One iteration of the data loop; DataToggle is left as an earlier request left it. */
    method BuildDataTD(i: nat, NumDataTDs: nat, StatusTDIndex: nat, IsDeviceToHost: bool, Count: nat, DataBuffer: nat,
                       maxPacketSize: nat)
      requires Fixed() && i < NumDataTDs <= 61 && StatusTDIndex == 1 + NumDataTDs && 1 <= maxPacketSize
      requires i * maxPacketSize < Count && 0 < DataBuffer && DataBuffer + Count <= U32
      modifies td
      ensures DataBuilt(td[1 + i], old(td[1 + i].DataToggle), Base, 1 + i, IsDeviceToHost, DataBuffer, Count,
                        maxPacketSize)
      ensures forall j :: 0 <= j < td.Length && j != 1 + i ==> td[j] == old(td[j])
    {
      var TDIndex := 1 + i;
      var Offset := i * maxPacketSize;
      var RemainingBytes := Count - Offset;
      var ThisPacketSize := if RemainingBytes > maxPacketSize then maxPacketSize else RemainingBytes;
      assert ThisPacketSize == PacketLength(Count, maxPacketSize, i);
      FillData(TDIndex, IsDeviceToHost, Offset, ThisPacketSize, DataBuffer);
      if i < NumDataTDs - 1 {
        td[TDIndex] := td[TDIndex].(NextTD := AddressOf(TDIndex + 1));
      } else {
        td[TDIndex] := td[TDIndex].(NextTD := AddressOf(StatusTDIndex));
      }
    }

    method FillData(TDIndex: nat, IsDeviceToHost: bool, Offset: nat, ThisPacketSize: nat, DataBuffer: nat)
      requires Fixed() && TDIndex < td.Length
      requires 0 < ThisPacketSize && 0 < DataBuffer && DataBuffer + Offset + ThisPacketSize <= U32
      modifies td
      ensures td[TDIndex]
           == Descriptor(BufferRounding := 1, DirectionPID := if IsDeviceToHost then 2 else 1, DelayInterrupt := 7,
                         DataToggle := old(td[TDIndex].DataToggle), ErrorCount := 0, ConditionCode := 0,
                         CurrentBufferPointer := DataBuffer + Offset, NextTD := old(td[TDIndex].NextTD),
                         BufferEnd := DataBuffer + Offset + ThisPacketSize - 1)
      ensures forall j :: 0 <= j < td.Length && j != TDIndex ==> td[j] == old(td[j])
    {
      td[TDIndex] := td[TDIndex].(DirectionPID := if IsDeviceToHost then 2 else 1, ConditionCode := 0, ErrorCount := 0,
                                  DelayInterrupt := 7, BufferRounding := 1,
                                  CurrentBufferPointer := (DataBuffer + Offset) % U32,
                                  BufferEnd := (DataBuffer + Offset + ThisPacketSize - 1) % U32);
    }

    method BuildStatus(IsDeviceToHost: bool, StatusTDIndex: nat, DummyTDIndex: nat)
      requires Fixed() && 0 < StatusTDIndex < DummyTDIndex == StatusTDIndex + 1 < td.Length
      modifies td
      ensures StatusBuilt(td[StatusTDIndex], Base, StatusTDIndex, IsDeviceToHost)
      ensures td[DummyTDIndex] == ZERO
      ensures forall i :: 0 <= i < td.Length && i != StatusTDIndex && i != DummyTDIndex ==> td[i] == old(td[i])
    {
      td[StatusTDIndex] :=
        td[StatusTDIndex].(DirectionPID := if IsDeviceToHost then 1 else 2, ConditionCode := 0, ErrorCount := 0,
                           DataToggle := 3, DelayInterrupt := 0, BufferRounding := 0, CurrentBufferPointer := 0,
                           BufferEnd := 0, NextTD := AddressOf(DummyTDIndex));
      td[DummyTDIndex] := ZERO;
    }
  }
}
