/** What the controller and the interrupt handler make of a control chain that is built while
    earlier descriptors are still on the done lists (system/kernel/Drivers/USB/OHCI.c). */
module ControlChain {
  import opened DoneQueue

  // ----- What a submission tangles -----

  /** HcDoneHead leads to address 0. */
  ghost predicate ReachesNil(s: State) {
    exists l :: Spells(s, s.hcDoneHead, l, Nil)
  }

  ghost predicate ControllerRun(t: seq<State>, s: State) {
    t != [] && t[0] == s && forall i :: 0 <= i < |t| - 1 ==> ControllerStep(t[i], t[i + 1])
  }

  lemma {:induction false} ControllerRunInv(t: seq<State>, s: State, l: Lists, lost: set<nat>, i: nat)
    returns (l': Lists)
    requires ControllerRun(t, s) && Inv(s, l, lost) && i < |t|
    ensures Inv(t[i], l', lost)
  {
    l' := l;
    if i > 0 {
      l' := ControllerRunInv(t, s, l, lost, i - 1);
      assert ControllerStep(t[i - 1], t[i - 1 + 1]);
      l' := ControllerInv(t[i - 1], t[i], l', lost);
    }
  }

  /** The controller has executed the first k descriptors of the new chain without error. */
  function Executed(s: State, n: nat, k: nat): (u: State)
    ensures u.handler == s.handler
  {
    if k == 0 then Submit(s, n) else ControlRetired(Executed(s, n, k - 1), 0)
  }

  /** A retired descriptor points to the one before, and the setup descriptor to the list before. */
  ghost predicate LinkedBack(u: State, first: TD, i: nat) {
    u.Next(Ctl(i)) == if i == 0 then first else Ctl(i - 1)
  }

  ghost predicate LinkedOn(u: State, i: nat) { u.Next(Ctl(i)) == Ctl(i + 1) }

  /** What has changed on the done lists when the first k descriptors are retired. */
  ghost predicate ChainRetired(s: State, n: nat, k: nat, u: State) {
    && u.hcDoneHead == (if k == 0 then s.hcDoneHead else Ctl(k - 1))
    && (forall i: nat :: i < k ==> LinkedBack(u, s.hcDoneHead, i))
    && (forall t: TD :: !Rebuilt(t, n) ==> u.Next(t) == s.Next(t))
    && u.devices == s.devices && u.reports == s.reports && u.successes == s.successes
    && forall d :: u.Code(Hid(d)) == s.Code(Hid(d))
  }

  /** Between two of these retirements. */
  ghost predicate Executing(s: State, n: nat, k: nat, u: State) {
    && u.controlHead == Ctl(k) && u.controlTail == Ctl(n) && !u.controlHalted
    && u.writeback == s.writeback && u.handler == s.handler
    && ChainRetired(s, n, k, u) && forall i: nat :: k <= i < n ==> LinkedOn(u, i)
  }

  lemma ExecutingStart(s: State, n: nat)
    requires !s.controlHalted
    ensures Executing(s, n, 0, Submit(s, n))
  {
    var u := Submit(s, n);
    forall t: TD | !Rebuilt(t, n) ensures u.Next(t) == s.Next(t) { SubmitNext(s, n, t); }
    forall i: nat | i < n ensures LinkedOn(u, i) { SubmitNext(s, n, Ctl(i)); }
  }

  lemma ExecutingStep(s: State, n: nat, k: nat, u: State)
    requires Executing(s, n, k, u) && k < n
    ensures Executing(s, n, k + 1, ControlRetired(u, 0)) && RetireControl(u, ControlRetired(u, 0), 0)
  {
    var v := ControlRetired(u, 0);
    assert LinkedOn(u, k);
    RetiredLinks(s, n, k, u);
    assert forall d :: v.Code(Hid(d)) == u.Code(Hid(d));
  }

  lemma RetiredLinks(s: State, n: nat, k: nat, u: State)
    requires Executing(s, n, k, u) && k < n
    ensures var v := ControlRetired(u, 0);
      && (forall i: nat :: i < k + 1 ==> LinkedBack(v, s.hcDoneHead, i))
      && (forall i: nat :: k + 1 <= i < n ==> LinkedOn(v, i))
      && (forall t: TD :: !Rebuilt(t, n) ==> v.Next(t) == s.Next(t))
  {
    var v := ControlRetired(u, 0);
    assert v.nextTD == u.nextTD[Ctl(k) := u.hcDoneHead];
    forall i: nat | i < k + 1 ensures LinkedBack(v, s.hcDoneHead, i) {
      if i < k { assert LinkedBack(u, s.hcDoneHead, i); }
    }
    forall i: nat | k + 1 <= i < n ensures LinkedOn(v, i) { assert LinkedOn(u, i); }
  }

  lemma {:induction false} ExecutedFacts(s: State, n: nat, k: nat)
    requires k <= n && !s.controlHalted
    ensures Executing(s, n, k, Executed(s, n, k))
  {
    if k == 0 {
      ExecutingStart(s, n);
    } else {
      ExecutedFacts(s, n, k - 1);
      ExecutingStep(s, n, k - 1, Executed(s, n, k - 1));
    }
  }

  /** The run that executes the first k descriptors. */
  lemma {:induction false} ExecutedRun(s: State, n: nat, k: nat) returns (t: seq<State>)
    requires k <= n && !s.controlHalted
    ensures ControllerRun(t, Submit(s, n)) && t[|t| - 1] == Executed(s, n, k)
  {
    if k == 0 {
      t := [Submit(s, n)];
    } else {
      var r := ExecutedRun(s, n, k - 1);
      t := ExtendRun(r, Submit(s, n), s, n, k);
    }
  }

  lemma ExtendRun(r: seq<State>, first: State, s: State, n: nat, k: nat) returns (t: seq<State>)
    requires 0 < k <= n && !s.controlHalted && ControllerRun(r, first) && r[|r| - 1] == Executed(s, n, k - 1)
    ensures ControllerRun(t, first) && t[|t| - 1] == Executed(s, n, k)
  {
    ExecutedFacts(s, n, k - 1);
    ExecutingStep(s, n, k - 1, Executed(s, n, k - 1));
    assert ControllerStep(Executed(s, n, k - 1), Executed(s, n, k));
    t := r + [Executed(s, n, k)];
    forall i | 0 <= i < |t| - 1 ensures ControllerStep(t[i], t[i + 1]) {
      if i < |r| - 1 { assert ControllerStep(r[i], r[i + 1]); }
    }
  }

  /** The list up to its first rebuilt descriptor. */
  function Before(l: seq<TD>, n: nat): seq<TD> {
    if l == [] || Rebuilt(l[0], n) then [] else [l[0]] + Before(l[1..], n)
  }

  function FirstRebuilt(l: seq<TD>, n: nat): (i: nat)
    requires Tangled(l, n)
    ensures i < n
  {
    if Rebuilt(l[0], n) then l[0].index else FirstRebuilt(l[1..], n)
  }

  lemma {:induction false} BeforeSpells(s: State, n: nat, first: TD, l: seq<TD>)
    requires Spells(s, first, l, Nil) && Tangled(l, n)
    ensures Spells(s, first, Before(l, n), Ctl(FirstRebuilt(l, n)))
    ensures forall t :: t in Before(l, n) ==> t in l && !Rebuilt(t, n)
    decreases |l|
  {
    if !Rebuilt(l[0], n) {
      SpellsPop(s, first, l, Nil);
      BeforeSpells(s, n, s.Next(first), l[1..]);
      SpellsCons(s, first, Before(l[1..], n), Ctl(FirstRebuilt(l, n)));
    }
  }

  /** What can only be left through itself never leads to address 0. */
  lemma {:induction false} NoWayOut(s: State, first: TD, l: seq<TD>, C: set<TD>)
    requires first in C && Nil !in C && forall t :: t in C ==> s.Next(t) in C
    ensures !Spells(s, first, l, Nil)
    decreases |l|
  {
    if l != [] && Spells(s, first, l, Nil) {
      SpellsPop(s, first, l, Nil);
      NoWayOut(s, s.Next(first), l[1..], C);
    }
  }

  /** The new chain, from descriptor i back to the setup descriptor. */
  function Down(i: nat): (l: seq<TD>)
    ensures |l| == i + 1 && forall j :: 0 <= j <= i ==> l[j] == Ctl(i - j)
  {
    if i == 0 then [Ctl(0)] else [Ctl(i)] + Down(i - 1)
  }

  lemma {:induction false} DownSpells(u: State, first: TD, i: nat)
    requires forall j: nat :: j <= i ==> LinkedBack(u, first, j)
    ensures Spells(u, Ctl(i), Down(i), first)
    decreases i
  {
    assert LinkedBack(u, first, i);
    if i == 0 {
      SpellsCons(u, Ctl(0), [], first);
      assert [Ctl(0)] + [] == [Ctl(0)];
    } else {
      DownSpells(u, first, i - 1);
      SpellsCons(u, Ctl(i), Down(i - 1), first);
    }
  }

  lemma SpellsConcat(s: State, first: TD, a: seq<TD>, mid: TD, b: seq<TD>, last: TD)
    requires Spells(s, first, a, mid) && Spells(s, mid, b, last)
    ensures Spells(s, first, a + b, last)
  {
    var l := a + b;
    forall i | 0 <= i < |l| ensures s.Next(l[i]) == if i + 1 < |l| then l[i + 1] else last {
      if i < |a| { assert l[i] == a[i]; } else { assert l[i] == b[i - |a|]; }
    }
  }

  lemma {:induction false} BeforeIsPrefix(l: seq<TD>, n: nat)
    ensures Before(l, n) <= l
    decreases |l|
  {
    if l != [] && !Rebuilt(l[0], n) { BeforeIsPrefix(l[1..], n); }
  }

  /** The circle: the new chain back to its setup descriptor, then the old list. */
  function Circuit(l: seq<TD>, n: nat): seq<TD>
    requires Tangled(l, n)
  {
    Down(FirstRebuilt(l, n)) + Before(l, n)
  }

  /** When the first rebuilt descriptor of the list has been executed again, the list runs in a circle. */
  lemma CircuitSpells(s: State, u: State, n: nat, l: seq<TD>)
    requires Spells(s, s.hcDoneHead, l, Nil) && Tangled(l, n) && ChainRetired(s, n, FirstRebuilt(l, n) + 1, u)
    ensures Spells(u, Ctl(FirstRebuilt(l, n)), Circuit(l, n), Ctl(FirstRebuilt(l, n)))
  {
    var i, before := FirstRebuilt(l, n), Before(l, n);
    DownSpells(u, s.hcDoneHead, i);
    BeforeSpells(s, n, s.hcDoneHead, l);
    SpellsFrame(s, u, s.hcDoneHead, before, Ctl(i));
    SpellsConcat(u, Ctl(i), Down(i), s.hcDoneHead, before, Ctl(i));
  }

  lemma CircleIsClosed(s: State, C: seq<TD>, t: TD)
    requires C != [] && Spells(s, C[0], C, C[0]) && t in C
    ensures s.Next(t) in C
  {
    var j :| 0 <= j < |C| && C[j] == t;
    assert s.Next(C[j]) == if j + 1 < |C| then C[j + 1] else C[0];
  }

  lemma NilNotInCircuit(l: seq<TD>, n: nat)
    requires Tangled(l, n) && Nil !in l
    ensures Nil !in Circuit(l, n)
  {
    BeforeIsPrefix(l, n);
  }

  lemma CircleNeverEnds(u: State, C: seq<TD>)
    requires C != [] && Nil !in C && Spells(u, C[0], C, C[0]) && u.hcDoneHead == C[0]
    ensures !ReachesNil(u)
  {
    var R := set t | t in C;
    forall t | t in R ensures u.Next(t) in R { CircleIsClosed(u, C, t); }
    assert C[0] in R;
    forall m ensures !Spells(u, u.hcDoneHead, m, Nil) { NoWayOut(u, u.hcDoneHead, m, R); }
  }

  lemma TangledIsEndless(s: State, u: State, n: nat, l: seq<TD>)
    requires Spells(s, s.hcDoneHead, l, Nil) && Tangled(l, n) && ChainRetired(s, n, FirstRebuilt(l, n) + 1, u)
    requires Nil !in l
    ensures !ReachesNil(u)
  {
    CircuitSpells(s, u, n, l);
    NilNotInCircuit(l, n);
    CircleNeverEnds(u, Circuit(l, n));
  }

  /** After a submission the controller can come to a done list without end exactly when its list leads
      into the part of the new chain that it executes. */
  lemma SubmitTanglesIff(s: State, l: Lists, lost: set<nat>, n: nat)
    requires Inv(s, l, lost) && s.handler.Idle?
    ensures CanBeEndless(Submit(s, n)) <==> !s.controlHalted && Tangled(l.hc, n)
  {
    if !s.controlHalted && Tangled(l.hc, n) {
      var k := FirstRebuilt(l.hc, n) + 1;
      var t := ExecutedRun(s, n, k);
      ExecutedFacts(s, n, k);
      NilNotListed(s, l, lost);
      TangledIsEndless(s, Executed(s, n, k), n, l.hc);
      assert EndlessRun(t, Submit(s, n));
    } else {
      forall t ensures !EndlessRun(t, Submit(s, n)) { UntangledEnds(s, l, lost, n, t); }
    }
  }

  lemma NilNotListed(s: State, l: Lists, lost: set<nat>)
    requires Inv(s, l, lost)
    ensures Nil !in l.hc && Spells(s, s.hcDoneHead, l.hc, Nil)
  {
    assert !Done(l, Nil);
  }

  ghost predicate EndlessRun(t: seq<State>, s: State) {
    ControllerRun(t, s) && !ReachesNil(t[|t| - 1])
  }

  /** Some run of the controller leads to a done list without end. */
  ghost predicate CanBeEndless(s: State) {
    exists t :: EndlessRun(t, s)
  }

  lemma UntangledEnds(s: State, l: Lists, lost: set<nat>, n: nat, t: seq<State>)
    requires Inv(s, l, lost) && s.handler.Idle? && (s.controlHalted || !Tangled(l.hc, n))
    ensures !EndlessRun(t, Submit(s, n))
  {
    if ControllerRun(t, Submit(s, n)) {
      var l' := SubmitInv(s, l, lost, n);
      var m := ControllerRunInv(t, Submit(s, n), l', lost + Dropped(s, l, n), |t| - 1);
      InvReachesNil(t[|t| - 1], m, lost + Dropped(s, l, n));
    }
  }

  lemma InvReachesNil(s: State, l: Lists, lost: set<nat>)
    requires Inv(s, l, lost)
    ensures ReachesNil(s)
  {
  }

  // ----- What a submission can execute -----

  lemma {:induction false} HaltedStays(t: seq<State>, s: State, i: nat)
    requires ControllerRun(t, s) && s.controlHalted && i < |t|
    ensures t[i].controlHalted && t[i].controlHead == s.controlHead && t[i].controlTail == s.controlTail
  {
    if i > 0 {
      HaltedStays(t, s, i - 1);
      assert ControllerStep(t[i - 1], t[i - 1 + 1]);
    }
  }

  /** The controller can execute a new chain to its end exactly when the endpoint is not halted. */
  lemma CanExecuteIff(s: State, n: nat)
    requires ChainLength(n)
    ensures !s.controlHalted
        <==> exists t: seq<State> :: ControllerRun(t, Submit(s, n)) && t[|t| - 1].controlHead == Ctl(n)
  {
    if s.controlHalted {
      forall t: seq<State> | ControllerRun(t, Submit(s, n)) ensures t[|t| - 1].controlHead == Ctl(0) {
        HaltedStays(t, Submit(s, n), |t| - 1);
      }
    } else {
      var t := ExecutedRun(s, n, n);
      ExecutedFacts(s, n, n);
    }
  }

  /** A control descriptor is retired with an error. */
  ghost predicate ControlFails(s: State, s': State) {
    exists code :: RetireControl(s, s', code) && code != 0
  }

  /** It is halted exactly when some control descriptor was retired with an error, whatever else
      has happened since. */
  lemma {:induction false} HaltedIffFailed(t: seq<State>, i: nat)
    requires t != [] && t[0] == Start() && i < |t| && forall k :: 0 <= k < |t| - 1 ==> AnyStep(t[k], t[k + 1])
    ensures t[i].controlHalted <==> exists k :: FailsAt(t, i, k)
  {
    if i > 0 {
      var j := i - 1;
      HaltedIffFailed(t, j);
      assert AnyStep(t[j], t[j + 1]);
      HaltedStep(t[j], t[i]);
      if ControlFails(t[j], t[i]) { assert FailsAt(t, i, j); }
      if k :| FailsAt(t, j, k) { assert FailsAt(t, i, k); }
      if k :| FailsAt(t, i, k) { assert k == j || FailsAt(t, j, k); }
    } else {
      assert forall k :: !FailsAt(t, 0, k);
    }
  }

  ghost predicate FailsAt(t: seq<State>, i: nat, k: int)
    requires i < |t|
  {
    0 <= k < i && ControlFails(t[k], t[k + 1])
  }

  lemma HaltedStep(s: State, s': State)
    requires AnyStep(s, s')
    ensures s'.controlHalted <==> s.controlHalted || ControlFails(s, s')
  {
    assert ControlFails(s, s') ==> s'.controlHalted;
    if ControllerStep(s, s') {
      HaltedByController(s, s');
    } else if HandlerStep(s, s') {
      HaltedByHandler(s, s');
    } else {
      assert s'.controlHalted == s.controlHalted;
    }
  }

  lemma HaltedByController(s: State, s': State)
    requires ControllerStep(s, s')
    ensures s'.controlHalted ==> s.controlHalted || ControlFails(s, s')
    ensures s.controlHalted ==> s'.controlHalted
  {
    if d, code, toggle :| RetireHid(s, s', d, code, toggle) {
    } else if code :| RetireControl(s, s', code) {
      assert s'.controlHalted == (code != 0);
    }
  }

  lemma HaltedByHandler(s: State, s': State)
    requires HandlerStep(s, s')
    ensures s'.controlHalted == s.controlHalted
  {
    if s.handler.AtLoop? && s.handler.DoneQueueHead != Nil && s' == Complete(s) {
      HaltedByComplete(s);
    } else if s.handler.Rearming? && s.handler.CompletedTD.Hid? && s' == Rearm(s) {
      HaltedByRearm(s);
    }
  }

  lemma HaltedByComplete(s: State)
    requires s.handler.AtLoop? && s.handler.DoneQueueHead != Nil
    ensures Complete(s).controlHalted == s.controlHalted
  {
  }

  lemma HaltedByRearm(s: State)
    requires s.handler.Rearming? && s.handler.CompletedTD.Hid?
    ensures Rearm(s).controlHalted == s.controlHalted
  {
  }

  // ----- What the completion flag says -----

  /** The handler takes a control descriptor from its list. */
  ghost predicate TakesControl(s: State, s': State) {
    s.handler.AtLoop? && s.handler.DoneQueueHead.Ctl? && s' == Complete(s)
  }

  ghost predicate Submits(s: State, s': State) {
    exists n: nat :: ChainLength(n) && s' == Submit(s, n)
  }

  /** Step j takes a control descriptor, and no step from there to i submits a request. */
  ghost predicate TakenSince(t: seq<State>, i: nat, j: int)
    requires i < |t|
  {
    0 <= j < i && TakesControl(t[j], t[j + 1]) && forall m {:trigger t[m]} :: j < m < i ==> !Submits(t[m], t[m + 1])
  }

  /** What a request waits for is set exactly when the handler has taken a control descriptor, of
      whatever request, since the last submission. */
  lemma {:induction false} FlagIffTaken(t: seq<State>, i: nat)
    requires t != [] && t[0] == Start() && i < |t| && forall k :: 0 <= k < |t| - 1 ==> AnyStep(t[k], t[k + 1])
    ensures t[i].transferComplete <==> exists j :: TakenSince(t, i, j)
  {
    if i > 0 {
      var k := i - 1;
      FlagIffTaken(t, k);
      assert AnyStep(t[k], t[k + 1]);
      FlagStep(t[k], t[i]);
      TakenExtends(t, k, i);
    } else {
      assert forall j :: !TakenSince(t, 0, j);
    }
  }

  lemma TakenExtends(t: seq<State>, k: nat, i: nat)
    requires i == k + 1 < |t|
    ensures (exists j :: TakenSince(t, i, j))
       <==> TakesControl(t[k], t[k + 1]) || (!Submits(t[k], t[k + 1]) && exists j :: TakenSince(t, k, j))
  {
    if TakesControl(t[k], t[k + 1]) { assert TakenSince(t, i, k); }
    if !Submits(t[k], t[k + 1]) {
      if j :| TakenSince(t, k, j) { assert TakenSince(t, i, j); }
    }
    if j :| TakenSince(t, i, j) {
      if j < k {
        assert TakenSince(t, k, j);
        assert !Submits(t[k], t[k + 1]);
      }
    }
  }

  lemma FlagStep(s: State, s': State)
    requires AnyStep(s, s')
    ensures s'.transferComplete <==> TakesControl(s, s') || (s.transferComplete && !Submits(s, s'))
  {
    if Submits(s, s') {
      assert !s'.transferComplete;
    } else if HandlerStep(s, s') {
      FlagByHandler(s, s');
    } else if ControllerStep(s, s') {
      FlagByController(s, s');
    } else {
      assert s'.transferComplete == s.transferComplete;
    }
  }

  lemma FlagByController(s: State, s': State)
    requires ControllerStep(s, s')
    ensures s'.transferComplete == s.transferComplete
  {
    if d, code, toggle :| RetireHid(s, s', d, code, toggle) {
    } else if code :| RetireControl(s, s', code) {
    }
  }

  lemma FlagByHandler(s: State, s': State)
    requires HandlerStep(s, s')
    ensures s'.transferComplete <==> s.transferComplete || TakesControl(s, s')
  {
    if s.handler.AtLoop? && s.handler.DoneQueueHead != Nil && s' == Complete(s) {
      FlagByComplete(s);
    } else if s.handler.Rearming? && s.handler.CompletedTD.Hid? && s' == Rearm(s) {
      FlagByRearm(s);
    }
  }

  lemma FlagByComplete(s: State)
    requires s.handler.AtLoop? && s.handler.DoneQueueHead != Nil
    ensures Complete(s).transferComplete <==> s.transferComplete || s.handler.DoneQueueHead.Ctl?
  {
  }

  lemma FlagByRearm(s: State)
    requires s.handler.Rearming? && s.handler.CompletedTD.Hid?
    ensures Rearm(s).transferComplete == s.transferComplete
  {
  }

  // ----- What the handler makes of a list without end -----

  /** After k loop iterations, or at the end of the list. */
  function Walk(s: State, k: nat): (w: State)
    requires s.handler.AtLoop?
    ensures w.handler.AtLoop?
    decreases k
  {
    if k == 0 || s.handler.DoneQueueHead == Nil then s else Walk(Iterated(s), k - 1)
  }

  ghost predicate WalksForEver(s: State)
    requires s.handler.AtLoop?
  {
    forall k: nat :: Walk(s, k).handler.DoneQueueHead != Nil
  }

  lemma {:induction false} WalkAdd(s: State, a: nat, b: nat)
    requires s.handler.AtLoop?
    ensures Walk(s, a + b) == Walk(Walk(s, a), b)
    decreases a
  {
    if a > 0 && s.handler.DoneQueueHead != Nil { WalkAdd(Iterated(s), a - 1, b); }
  }

  lemma {:induction false} TrappedIn(s: State, C: set<TD>, k: nat)
    requires s.handler.AtLoop? && s.handler.DoneQueueHead in C
    requires Nil !in C && forall t :: t in C ==> t.Ctl? && s.Next(t) in C
    ensures Walk(s, k).handler.DoneQueueHead in C
    decreases k
  {
    if k > 0 {
      IteratedNext(s);
      assert forall t :: Iterated(s).Next(t) == s.Next(t);
      TrappedIn(Iterated(s), C, k - 1);
    }
  }

  /** What has changed when the handler has walked a stretch of list. */
  ghost predicate WalkedPast(s: State, m: seq<TD>, last: TD, w: State) {
    && w.handler == AtLoop(last) && w.devices == s.devices && w.condition == s.condition && w.successes == s.successes
    && (forall t :: w.Next(t) == if t in m && t.Hid? then Dummy(t.device) else s.Next(t))
    && w.reports == s.reports + Delivered(s, m)
  }

  lemma {:induction false} WalkStretch(s: State, m: seq<TD>, last: TD)
    requires s.handler.AtLoop? && Spells(s, s.handler.DoneQueueHead, m, last) && NoRepeats(m)
    requires forall t :: t in m ==> Known(s, t)
    ensures WalkedPast(s, m, last, Walk(s, |m|))
    decreases |m|
  {
    if m != [] {
      assert m[0] in m && Known(s, m[0]);
      var v := Iterated(s);
      SpellsPop(s, m[0], m, last);
      PopMembers(m);
      IteratedNext(s);
      IteratedKeeps(s);
      SpellsFrame(s, v, s.Next(m[0]), m[1..], last);
      WalkStretch(v, m[1..], last);
      WalkedMore(s, v, m, last, Walk(v, |m| - 1));
    }
  }

  lemma IteratedNext(s: State)
    requires s.handler.AtLoop? && Known(s, s.handler.DoneQueueHead)
    ensures var t, s' := s.handler.DoneQueueHead, Iterated(s);
      && s'.handler == AtLoop(s.Next(t))
      && s'.nextTD == if t.Hid? then s.nextTD[t := Dummy(t.device)] else s.nextTD
  {
  }

  lemma IteratedKeeps(s: State)
    requires s.handler.AtLoop? && Known(s, s.handler.DoneQueueHead)
    ensures var s' := Iterated(s); s'.devices == s.devices && s'.condition == s.condition && s'.successes == s.successes
  {
  }

  lemma WalkedMore(s: State, v: State, m: seq<TD>, last: TD, w: State)
    requires s.handler.AtLoop? && m != [] && m[0] == s.handler.DoneQueueHead && Known(s, m[0]) && NoRepeats(m)
    requires v == Iterated(s) && WalkedPast(v, m[1..], last, w)
    ensures WalkedPast(s, m, last, w)
  {
    IteratedNext(s);
    IteratedKeeps(s);
    PopMembers(m);
    IterationReports(s, m);
  }

  /** A circle with a HID descriptor in it is walked once round and up to that descriptor again: there
      the handler finds the dummy it has just linked, and the list ends. */
  lemma SecondRound(s: State, C: seq<TD>, q: nat)
    requires s.handler.AtLoop? && q < |C| && Spells(s, s.handler.DoneQueueHead, C, s.handler.DoneQueueHead)
    requires NoRepeats(C) && (forall t :: t in C ==> Known(s, t)) && (forall j :: 0 <= j < q ==> C[j].Ctl?)
    requires C[q].Hid? && s.Next(Dummy(C[q].device)) == Nil
    ensures var w := Walk(s, |C| + (q + 1) + 1);
      && w.handler == AtLoop(Nil) && w.successes == s.successes
      && w.reports == s.reports + Delivered(s, C) + Delivered(s, C[..q + 1])
  {
    var v := Walk(s, |C|);
    WalkStretch(s, C, s.handler.DoneQueueHead);
    SecondLap(s, C, q, v);
    WalkAdd(s, |C|, q + 1 + 1);
  }

  lemma SecondLap(s: State, C: seq<TD>, q: nat, v: State)
    requires q < |C| && C[q].Hid? && (forall j :: 0 <= j < q ==> C[j].Ctl?) && NoRepeats(C)
    requires (forall t :: t in C ==> Known(s, t)) && s.Next(Dummy(C[q].device)) == Nil
    requires Spells(s, C[0], C, C[0]) && WalkedPast(s, C, C[0], v)
    ensures var w := Walk(v, q + 1 + 1);
      && w.handler == AtLoop(Nil) && w.successes == s.successes
      && w.reports == s.reports + Delivered(s, C) + Delivered(s, C[..q + 1])
  {
    var m := C[..q + 1];
    assert C[q] in C && Dummy(C[q].device) !in C;
    RoundToDevice(s, C, q, v);
    ToDummy(v, m, C[q].device);
    DeliveredFrame(s, v, m);
  }

  lemma ToDummy(s: State, m: seq<TD>, d: nat)
    requires s.handler.AtLoop? && Spells(s, s.handler.DoneQueueHead, m, Dummy(d)) && NoRepeats(m)
    requires s.Next(Dummy(d)) == Nil && forall t :: t in m ==> Known(s, t)
    ensures var w := Walk(s, |m| + 1);
      w.handler == AtLoop(Nil) && w.successes == s.successes && w.reports == s.reports + Delivered(s, m)
  {
    WalkStretch(s, m, Dummy(d));
    WalkAdd(s, |m|, 1);
    assert Dummy(d) !in m;
    EndOfDummy(Walk(s, |m|), d);
  }

  lemma RoundToDevice(s: State, C: seq<TD>, q: nat, v: State)
    requires q < |C| && C[q].Hid? && (forall j :: 0 <= j < q ==> C[j].Ctl?) && NoRepeats(C)
    requires Spells(s, C[0], C, C[0]) && WalkedPast(s, C, C[0], v)
    ensures Spells(v, C[0], C[..q + 1], Dummy(C[q].device)) && NoRepeats(C[..q + 1])
  {
    var m := C[..q + 1];
    forall i | 0 <= i < |m| ensures v.Next(m[i]) == if i + 1 < |m| then m[i + 1] else Dummy(C[q].device) {
      assert m[i] == C[i] && C[i] in C && s.Next(C[i]) == if i + 1 < |C| then C[i + 1] else C[0];
    }
  }

  lemma EndOfDummy(s: State, d: nat)
    requires s.handler == AtLoop(Dummy(d)) && s.Next(Dummy(d)) == Nil
    ensures var w := Walk(s, 1);
      w.handler == AtLoop(Nil) && w.reports == s.reports && w.successes == s.successes
  {
    assert Walk(s, 1) == Walk(Iterated(s), 0);
  }

  /** The list before a submission: its descriptors are known, and every dummy is zero. */
  ghost predicate Listed(s: State, l: seq<TD>) {
    && Spells(s, s.hcDoneHead, l, Nil) && NoRepeats(l) && (forall t :: t in l ==> Known(s, t))
    && forall d :: d in s.devices ==> s.Next(Dummy(d)) == Nil
  }

  lemma InvListed(s: State, l: Lists, lost: set<nat>)
    requires Inv(s, l, lost)
    ensures Listed(s, l.hc)
  {
    forall t | t in l.hc ensures Known(s, t) { assert Done(l, t); }
  }

  lemma JoinedNoRepeats(a: seq<TD>, b: seq<TD>)
    requires NoRepeats(a) && NoRepeats(b) && Disjoint(a, b)
    ensures NoRepeats(a + b)
  {
    var l := a + b;
    forall i, j | 0 <= i < j < |l| ensures l[i] != l[j] {
      if i < |a| <= j { assert l[i] in a && l[j] in b; }
    }
  }

  lemma CircuitMembers(s: State, l: seq<TD>, n: nat)
    requires Listed(s, l) && Tangled(l, n)
    ensures NoRepeats(Circuit(l, n)) && forall t :: t in Circuit(l, n) ==> Known(s, t)
  {
    var i, before := FirstRebuilt(l, n), Before(l, n);
    BeforeIsPrefix(l, n);
    BeforeSpells(s, n, s.hcDoneHead, l);
    assert forall t :: t in Down(i) ==> Rebuilt(t, n);
    JoinedNoRepeats(Down(i), before);
  }

  /** The handler stands at descriptor i of a circle in which nothing has been reported yet. */
  ghost predicate Circling(s: State, u: State, i: nat, before: seq<TD>) {
    && u.handler == AtLoop(Ctl(i)) && Spells(u, Ctl(i), Down(i) + before, Ctl(i)) && NoRepeats(Down(i) + before)
    && (forall t :: t in Down(i) + before ==> Known(u, t))
    && (forall d :: d in u.devices ==> u.Next(Dummy(d)) == Nil)
    && u.reports == s.reports && u.successes == s.successes && forall d :: u.Code(Hid(d)) == s.Code(Hid(d))
  }

  lemma TakenCircles(s: State, v: State, n: nat, l: seq<TD>)
    requires Listed(s, l) && Tangled(l, n) && ChainRetired(s, n, FirstRebuilt(l, n) + 1, v) && v.handler.Idle?
    ensures Circling(s, Enter(HandedOver(v)), FirstRebuilt(l, n), Before(l, n))
  {
    var u, i := Enter(HandedOver(v)), FirstRebuilt(l, n);
    CircuitMembers(s, l, n);
    CircuitSpells(s, v, n, l);
    SpellsFrame(v, u, Ctl(i), Circuit(l, n), Ctl(i));
  }

  /** The chain is executed up to the first rebuilt descriptor of the list, and the list is handed over.
      It keeps the handler for ever exactly when no device's descriptor stands before that one. */
  lemma TrappedIff(s: State, l: Lists, lost: set<nat>, n: nat) returns (v: State)
    requires Inv(s, l, lost) && s.handler.Idle? && !s.writeback && Tangled(l.hc, n) && !s.controlHalted
    ensures v == Executed(s, n, FirstRebuilt(l.hc, n) + 1) && v.handler.Idle? && WriteBack(v, HandedOver(v))
    ensures WalksForEver(Enter(HandedOver(v))) <==> forall t :: t in Before(l.hc, n) ==> t.Ctl?
  {
    InvListed(s, l, lost);
    v := ExecutedUpTo(s, n, FirstRebuilt(l.hc, n) + 1);
    HandOver(v);
    TrappedFrom(s, v, n, l.hc);
  }

  lemma ExecutedUpTo(s: State, n: nat, k: nat) returns (v: State)
    requires 0 < k <= n && !s.controlHalted
    ensures v == Executed(s, n, k) && ChainRetired(s, n, k, v) && v.handler == s.handler && v.writeback == s.writeback
    ensures v.hcDoneHead != Nil
  {
    v := Executed(s, n, k);
    ExecutedFacts(s, n, k);
  }

  lemma HandOver(v: State)
    requires !v.writeback && v.hcDoneHead != Nil
    ensures WriteBack(v, HandedOver(v))
  {
  }

  lemma TrappedFrom(s: State, v: State, n: nat, l: seq<TD>)
    requires Listed(s, l) && Tangled(l, n) && ChainRetired(s, n, FirstRebuilt(l, n) + 1, v) && v.handler.Idle?
    ensures WalksForEver(Enter(HandedOver(v))) <==> forall t :: t in Before(l, n) ==> t.Ctl?
  {
    TakenCircles(s, v, n, l);
    CirclingIff(s, Enter(HandedOver(v)), FirstRebuilt(l, n), Before(l, n));
  }

  lemma CirclingIff(s: State, u: State, i: nat, before: seq<TD>)
    requires Circling(s, u, i, before)
    ensures WalksForEver(u) <==> forall t :: t in before ==> t.Ctl?
  {
    if forall t :: t in before ==> t.Ctl? {
      ControlsOnly(u, Down(i) + before);
    } else {
      var p := FirstDevice(before);
      var k := CirclingReports(s, u, i, before, p);
    }
  }

  lemma ControlsOnly(s: State, C: seq<TD>)
    requires s.handler.AtLoop? && C != [] && Spells(s, s.handler.DoneQueueHead, C, s.handler.DoneQueueHead)
    requires forall t :: t in C ==> t.Ctl?
    ensures WalksForEver(s)
  {
    var R := set t | t in C;
    assert C[0] in R;
    forall t | t in R ensures s.Next(t) in R { CircleIsClosed(s, C, t); }
    forall k: nat ensures Walk(s, k).handler.DoneQueueHead != Nil { TrappedIn(s, R, k); }
  }

  ghost predicate FirstDeviceAt(l: seq<TD>, p: nat) {
    p < |l| && !l[p].Ctl? && forall j :: 0 <= j < p ==> l[j].Ctl?
  }

  lemma {:induction false} FirstDevice(l: seq<TD>) returns (p: nat)
    requires exists t :: t in l && !t.Ctl?
    ensures FirstDeviceAt(l, p)
    decreases |l|
  {
    if l[0].Ctl? {
      p := FirstDevice(l[1..]);
      p := p + 1;
    } else {
      p := 0;
    }
  }

  /** The walk has ended, and the device at position p was reported again after all others. */
  ghost predicate OnceTooOften(s: State, before: seq<TD>, p: nat, w: State) {
    && p < |before| && w.handler == AtLoop(Nil) && w.successes == s.successes
    && w.reports == s.reports + Delivered(s, before) + Delivered(s, [before[p]])
  }

  /** Otherwise it ends: every completion on the list is reported, and that of the first such device twice. */
  lemma CircleReports(s: State, l: Lists, lost: set<nat>, n: nat, p: nat) returns (v: State, k: nat)
    requires Inv(s, l, lost) && s.handler.Idle? && !s.writeback && Tangled(l.hc, n) && !s.controlHalted
    requires FirstDeviceAt(Before(l.hc, n), p)
    ensures v == Executed(s, n, FirstRebuilt(l.hc, n) + 1) && v.handler.Idle? && WriteBack(v, HandedOver(v))
    ensures OnceTooOften(s, Before(l.hc, n), p, Walk(Enter(HandedOver(v)), k))
  {
    InvListed(s, l, lost);
    v := ExecutedUpTo(s, n, FirstRebuilt(l.hc, n) + 1);
    HandOver(v);
    k := ReportsFrom(s, v, n, l.hc, p);
  }

  lemma ReportsFrom(s: State, v: State, n: nat, l: seq<TD>, p: nat) returns (k: nat)
    requires Listed(s, l) && Tangled(l, n) && ChainRetired(s, n, FirstRebuilt(l, n) + 1, v) && v.handler.Idle?
    requires FirstDeviceAt(Before(l, n), p)
    ensures OnceTooOften(s, Before(l, n), p, Walk(Enter(HandedOver(v)), k))
  {
    TakenCircles(s, v, n, l);
    k := CirclingReports(s, Enter(HandedOver(v)), FirstRebuilt(l, n), Before(l, n), p);
  }

  lemma CirclingReports(s: State, u: State, i: nat, before: seq<TD>, p: nat) returns (k: nat)
    requires Circling(s, u, i, before)
    requires FirstDeviceAt(before, p)
    ensures OnceTooOften(s, before, p, Walk(u, k))
  {
    var C, q := Down(i) + before, i + 1 + p;
    CircuitFirstDevice(i, before, p);
    SecondRound(u, C, q);
    k := |C| + (q + 1) + 1;
    CircuitDelivers(s, u, i, before, p);
  }

  lemma CircuitFirstDevice(i: nat, before: seq<TD>, p: nat)
    requires FirstDeviceAt(before, p)
    ensures var C, q := Down(i) + before, i + 1 + p;
      C[q] == before[p] && C[q] in C && forall j :: 0 <= j < q ==> C[j].Ctl?
  {
    var C := Down(i) + before;
    forall j | 0 <= j < i + 1 + p ensures C[j].Ctl? {
      assert j <= i || C[j] == before[j - (i + 1)];
    }
  }

  lemma CircuitDelivers(s: State, u: State, i: nat, before: seq<TD>, p: nat)
    requires FirstDeviceAt(before, p)
    requires forall d :: u.Code(Hid(d)) == s.Code(Hid(d))
    ensures var C := Down(i) + before;
      Delivered(u, C) == Delivered(s, before) && Delivered(u, C[..i + 1 + p + 1]) == Delivered(s, [before[p]])
  {
    var C, q := Down(i) + before, i + 1 + p;
    ControlsUnreported(u, Down(i), before);
    forall t | t in C[..q] ensures t.Ctl? {
      var j :| 0 <= j < q && C[j] == t;
      assert j <= i || C[j] == before[j - (i + 1)];
    }
    ControlsUnreported(u, C[..q], [before[p]]);
    assert C[..q + 1] == C[..q] + [before[p]];
    DeliveredFrame(s, u, before);
    DeliveredFrame(s, u, [before[p]]);
  }

  lemma {:induction false} ControlsUnreported(s: State, a: seq<TD>, b: seq<TD>)
    requires forall t :: t in a ==> t.Ctl?
    ensures Delivered(s, a + b) == Delivered(s, b)
    decreases |a|
  {
    if a == [] {
      assert a + b == b;
    } else {
      assert a[0] in a && (a + b)[0] == a[0] && (a + b)[1..] == a[1..] + b;
      ControlsUnreported(s, a[1..], b);
    }
  }

  // ----- The failures are reachable -----

  /** The setup descriptor is rebuilt while it is on the controller's list. Retired again, it points to
      itself, and the handler never gets past it. */
  lemma SubmitCanTrapHandler() returns (t: seq<State>, s: State, u: State)
    ensures IsRun(t) && s == t[|t| - 1] && s.handler.Idle? && s.hccaDoneHead == Nil
    ensures var v := ControlRetired(Submit(s, 2), 0); var w := HandedOver(v);
      RetireControl(Submit(s, 2), v, 0) && WriteBack(v, w) && w.handler.Idle? && w.writeback && u == Enter(w)
    ensures u.handler == AtLoop(Ctl(0)) && WalksForEver(u)
  {
    var a := Submit(Start(), 2);
    SubmitNext(Start(), 2, Ctl(0));
    s := ControlRetired(a, 0);
    t := [Start(), a, s];
    FirstSubmission(Start(), 2);
    assert SubmitStep(t[0], t[1]);
    assert RetireControl(t[1], t[2], 0);
    assert ControllerStep(t[1], t[2]);
    SubmitNext(s, 2, Ctl(0));
    u := Enter(HandedOver(ControlRetired(Submit(s, 2), 0)));
    ControlsOnly(u, [Ctl(0)]);
  }

  /** With the device's descriptor before the setup descriptor on the list, the circle is broken when
      the handler re-arms the device, but only after it has come by a second time: one completion
      gives two reports. */
  lemma SubmitCanReportTwice() returns (t: seq<State>, s: State, u: State)
    ensures IsRun(t) && s == t[|t| - 1] && s.handler.Idle? && s.hccaDoneHead == Nil
    ensures var v := ControlRetired(Submit(s, 2), 0);
      RetireControl(Submit(s, 2), v, 0) && WriteBack(v, HandedOver(v)) && u == Enter(HandedOver(v))
    ensures var w := Walk(u, 5); w.handler == AtLoop(Nil) && w.successes == [1] && w.reports == [1, 1]
  {
    t, s := SetupBehindDevice();
    SubmitNext(s, 2, Ctl(0));
    SubmitNext(s, 2, Hid(1));
    SubmitNext(s, 2, Dummy(1));
    u := Enter(HandedOver(ControlRetired(Submit(s, 2), 0)));
    var C := [Ctl(0), Hid(1)];
    SecondRound(u, C, 1);
    assert C[..2] == C && C == [Ctl(0)] + [Hid(1)];
    ControlsUnreported(u, [Ctl(0)], [Hid(1)]);
    OneDelivered(u, 1);
  }

  lemma OneDelivered(s: State, d: nat)
    requires s.Code(Hid(d)) == 0
    ensures Delivered(s, [Hid(d)]) == [d]
  {
    assert Delivered(s, [Hid(d)][1..]) == [];
  }

  /** Device 1 is retired after the setup descriptor of a first request. */
  lemma SetupBehindDevice() returns (t: seq<State>, s: State)
    ensures IsRun(t) && s == t[|t| - 1] && s.handler.Idle? && s.hccaDoneHead == Nil && !s.writeback && !s.controlHalted
    ensures s.hcDoneHead == Hid(1) && s.Next(Hid(1)) == Ctl(0) && s.Code(Hid(1)) == 0 && 1 in s.devices
    ensures s.successes == [1] && s.reports == [] && s.Next(Dummy(1)) == Nil
  {
    var b;
    t, b := FirstRequest();
    var c := ControlRetired(b, 0);
    assert RetireControl(b, c, 0);
    assert ControllerStep(b, c);
    s := Retired(c);
    assert RetireHid(c, s, 1, 0, false);
    assert ControllerStep(c, s);
    RunExtends(t, c);
    RunExtends(t + [c], s);
    t := t + [c] + [s];
  }
}
