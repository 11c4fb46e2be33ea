/** Allocation and transfers of a DMA device together, over the same slots: one run of acquire, release, reset,
    transfer, interrupt and wake-up. */
module DmaSystem {
  import opened Common
  import A = DmaAllocation
  import T = DmaTransfer

  /** The slot table and the protocol state of one device. */
  datatype Sys = Sys(alloc: A.Alloc, st: T.State)

  /** A call of the allocator, or a protocol event other than acquire and release. */
  datatype Call = Allocate(op: A.Op) | Protocol(e: T.Event)

  /** Both halves describe the same slots and semaphores. */
  ghost predicate Linked(x: Sys, n: nat, m: nat) {
    && T.Shape(x.st, n) && A.InRange(x.alloc.owners, n, m)
    && x.st.enabled == x.alloc.owners.Keys && x.st.made == x.alloc.sems
  }

  ghost predicate Allowed(x: Sys, n: nat, call: Call)
    requires T.Shape(x.st, n)
  {
    match call
    case Allocate(op) => op.ReleaseOp? ==> op.slot.0 < n
    case Protocol(e) => !e.Acquire? && !e.Release? && T.Enabled(x.st, e)
  }

  /** The protocol event of an allocator call: none when an acquire is turned down. */
  ghost function EventOf(x: Sys, n: nat, m: nat, op: A.Op): Option<T.Event> {
    match op
    case AcquireOp(hw, peri, semOk, driverHw) =>
      var v := A.Acquire(x.alloc, n, m, hw, peri, semOk, driverHw).1;
      if v.Granted? then Some(T.Acquire(v.slot, semOk)) else None
    case ReleaseOp(slot) => Some(T.Release(slot))
  }

  lemma EventIsEnabled(x: Sys, n: nat, m: nat, op: A.Op)
    requires Linked(x, n, m) && 0 < m && Allowed(x, n, Allocate(op))
    ensures var e := EventOf(x, n, m, op); e.Some? ==> T.Enabled(x.st, e.value)
  {
    if op.AcquireOp? {
      A.SlotIsFresh(x.alloc.owners, n, m, op.hw);
    }
  }

  ghost function Apply(x: Sys, n: nat, m: nat, call: Call): Sys
    requires Linked(x, n, m) && 0 < m && Allowed(x, n, call)
  {
    match call
    case Allocate(op) =>
      EventIsEnabled(x, n, m, op);
      var e := EventOf(x, n, m, op);
      Sys(A.Apply(x.alloc, n, m, op), if e.Some? then T.Step(x.st, e.value).0 else x.st)
    case Protocol(e) => Sys(x.alloc, T.Step(x.st, e).0)
  }

  lemma InUseIsChan(owners: map<Slot, A.Pair>, c: nat)
    ensures T.InUse(owners.Keys, c) <==> c in A.Chans(owners)
  {
    if k :| k in owners.Keys && k.0 == c {
      A.InChans(owners, k);
    }
    if c in A.Chans(owners) {
      var k :| k in owners && k.0 == c;
      assert k in owners.Keys;
    }
  }

  lemma AcquireLinked(x: Sys, n: nat, m: nat, op: A.Op)
    requires Linked(x, n, m) && 0 < m && op.AcquireOp?
    ensures Linked(Apply(x, n, m, Allocate(op)), n, m)
  {
    A.SlotIsFresh(x.alloc.owners, n, m, op.hw);
    A.AcquireInRange(x.alloc, n, m, op.hw, op.peri, op.semOk, op.driverHw);
    var (b, v) := A.Acquire(x.alloc, n, m, op.hw, op.peri, op.semOk, op.driverHw);
    if v.Granted? {
      InUseIsChan(x.alloc.owners, v.slot.0);
      assert b.owners.Keys == x.alloc.owners.Keys + {v.slot};
    }
  }

  lemma ReleaseLinked(x: Sys, n: nat, m: nat, slot: Slot)
    requires Linked(x, n, m) && 0 < m && slot.0 < n
    ensures Linked(Apply(x, n, m, Allocate(A.ReleaseOp(slot))), n, m)
  {
    var owners := x.alloc.owners - {slot};
    assert owners.Keys == x.alloc.owners.Keys - {slot};
    InUseIsChan(owners, slot.0);
  }

  /** Every call keeps the two halves together. */
  lemma StepLinked(x: Sys, n: nat, m: nat, call: Call)
    requires Linked(x, n, m) && 0 < m && Allowed(x, n, call)
    ensures Linked(Apply(x, n, m, call), n, m)
  {
    match call
    case Allocate(op) =>
      match op {
        case AcquireOp(_, _, _, _) => AcquireLinked(x, n, m, op);
        case ReleaseOp(slot) => ReleaseLinked(x, n, m, slot);
      }
    case Protocol(e) =>
  }

  /** A consistent slot table and the protocol invariant over the same slots. */
  ghost predicate Inv(x: Sys, n: nat, m: nat) {
    Linked(x, n, m) && A.Ok(x.alloc.owners, n, m) && T.Inv(x.st, n)
  }

  /** What an observer asks: a consistent slot table and a safe protocol state. */
  ghost predicate Safe(x: Sys, n: nat, m: nat)
    requires T.Shape(x.st, n)
  {
    A.Ok(x.alloc.owners, n, m) && T.Safe(x.st)
  }

  /** The guard of a call: a grant leaves an id the table can take, a synchronous transfer that starts carries one
      request or will never be served, and a channel is reset, or loses its last slot, only while nothing of it is
      listed, awaited or posted. */
  ghost predicate Guard(x: Sys, n: nat, m: nat, call: Call)
    requires Linked(x, n, m) && 0 < m && Allowed(x, n, call)
  {
    match call
    case Allocate(op) =>
      EventIsEnabled(x, n, m, op);
      var e := EventOf(x, n, m, op);
      A.Guard(x.alloc, n, m, op) && (e.Some? ==> T.Guard(x.st, e.value))
    case Protocol(e) => T.Guard(x.st, e)
  }

  /** Every call keeps both invariants if and only if it meets its guard. */
  lemma StepInv(x: Sys, n: nat, m: nat, call: Call)
    requires Inv(x, n, m) && 0 < m && Allowed(x, n, call)
    ensures Inv(Apply(x, n, m, call), n, m) <==> Guard(x, n, m, call)
  {
    StepLinked(x, n, m, call);
    match call
    case Allocate(op) =>
      A.StepKeepsOk(x.alloc, n, m, op);
      EventIsEnabled(x, n, m, op);
      var e := EventOf(x, n, m, op);
      if e.Some? {
        T.StepInv(x.st, n, e.value);
      }
    case Protocol(e) => T.StepInv(x.st, n, e);
  }

  /** Every call of the run is possible when it happens. */
  ghost predicate Possible(x: Sys, n: nat, m: nat, calls: seq<Call>)
    requires Linked(x, n, m) && 0 < m
    decreases calls
  {
    calls == [] ||
    (Allowed(x, n, calls[0]) && (StepLinked(x, n, m, calls[0]); Possible(Apply(x, n, m, calls[0]), n, m, calls[1..])))
  }

  ghost predicate Guarded(x: Sys, n: nat, m: nat, calls: seq<Call>)
    requires Linked(x, n, m) && 0 < m && Possible(x, n, m, calls)
    decreases calls
  {
    calls == [] ||
    (Guard(x, n, m, calls[0]) && (StepLinked(x, n, m, calls[0]); Guarded(Apply(x, n, m, calls[0]), n, m, calls[1..])))
  }

  /** The device is safe before, between and after the calls. */
  ghost predicate AlwaysSafe(x: Sys, n: nat, m: nat, calls: seq<Call>)
    requires Linked(x, n, m) && 0 < m && Possible(x, n, m, calls)
    decreases calls
  {
    Safe(x, n, m) &&
    (calls == [] || (StepLinked(x, n, m, calls[0]); AlwaysSafe(Apply(x, n, m, calls[0]), n, m, calls[1..])))
  }

  /** Over every run of acquire, release, reset, transfer, interrupt and wake-up on one device in which every call meets
      its guard, slot table and transfer protocol are safe throughout. */
  lemma {:induction false} EverySystemRun(x: Sys, n: nat, m: nat, calls: seq<Call>)
    requires Inv(x, n, m) && 0 < m && Possible(x, n, m, calls) && Guarded(x, n, m, calls)
    ensures AlwaysSafe(x, n, m, calls)
    decreases calls
  {
    T.InvIsSafe(x.st, n);
    if calls != [] {
      StepInv(x, n, m, calls[0]);
      EverySystemRun(Apply(x, n, m, calls[0]), n, m, calls[1..]);
    }
  }

  // ----- the guards are exact -----

  /** One more call in front of a run that breaks. */
  lemma Prefix(x: Sys, n: nat, m: nat, call: Call, rest: seq<Call>)
    requires Linked(x, n, m) && 0 < m && Allowed(x, n, call) && Guard(x, n, m, call)
    requires var y := Apply(x, n, m, call); Linked(y, n, m) && Possible(y, n, m, rest) && Guarded(y, n, m, rest)
    ensures var calls := [call] + rest;
            && Possible(x, n, m, calls) && Guarded(x, n, m, calls)
            && (AlwaysSafe(x, n, m, calls) ==> AlwaysSafe(Apply(x, n, m, call), n, m, rest))
  {
    assert ([call] + rest)[0] == call && ([call] + rest)[1..] == rest;
  }

  /** Interrupts and wake-ups of the protocol as calls of the device. */
  function Calls(es: seq<T.Event>): seq<Call> {
    if es == [] then [] else [Protocol(es[0])] + Calls(es[1..])
  }

  ghost predicate NoSlots(es: seq<T.Event>) {
    forall i | 0 <= i < |es| :: !es[i].Acquire? && !es[i].Release?
  }

  lemma {:induction false} SameRun(x: Sys, n: nat, m: nat, es: seq<T.Event>)
    requires Linked(x, n, m) && 0 < m && NoSlots(es) && T.Possible(x.st, es) && T.Guarded(x.st, es)
    ensures var calls := Calls(es);
            && Possible(x, n, m, calls) && Guarded(x, n, m, calls)
            && (AlwaysSafe(x, n, m, calls) ==> T.AlwaysSafe(x.st, es))
    decreases es
  {
    if es != [] {
      var call := Protocol(es[0]);
      StepLinked(x, n, m, call);
      SameRun(Apply(x, n, m, call), n, m, es[1..]);
      Prefix(x, n, m, call, Calls(es[1..]));
    }
  }

  /** A hardware id that no slot carries. */
  lemma {:induction false} FreshId(owners: map<Slot, A.Pair>, keys: set<Slot>) returns (hw: nat)
    requires keys <= owners.Keys
    ensures forall k | k in keys :: owners[k].0 < hw
    decreases keys
  {
    hw := 0;
    if keys != {} {
      var k :| k in keys;
      hw := FreshId(owners, keys - {k});
      if hw <= owners[k].0 {
        hw := owners[k].0 + 1;
      }
    }
  }

  /** An acquire for an id that no slot carries takes the first unused channel and creates its semaphore. */
  lemma TakesChannel(x: Sys, n: nat, m: nat, hw: nat)
    requires Linked(x, n, m) && 0 < m && !A.Known(x.alloc.owners, hw)
    requires A.FirstFree(A.Chans(x.alloc.owners), 0, n) < n
    ensures var call := Allocate(A.AcquireOp(hw, 0, true, hw));
            var f := A.FirstFree(A.Chans(x.alloc.owners), 0, n);
            && Guard(x, n, m, call)
            && var y := Apply(x, n, m, call);
               && Linked(y, n, m) && A.Chans(y.alloc.owners) == A.Chans(x.alloc.owners) + {f}
               && y.st.queue == x.st.queue && y.st.waiters == x.st.waiters && y.st.groups == x.st.groups
               && y.st.sems == x.st.sems[f := 1]
  {
    var op := A.AcquireOp(hw, 0, true, hw);
    var f := A.FirstFree(A.Chans(x.alloc.owners), 0, n);
    A.SlotIsFresh(x.alloc.owners, n, m, hw);
    StepLinked(x, n, m, Allocate(op));
    A.ChansOfGrant(x.alloc.owners, (f, 0), (hw, 0));
    InUseIsChan(x.alloc.owners, f);
  }

  /** Acquires that end at an unused channel `c` with something still listed, awaited or posted. */
  lemma FillUpTo(x: Sys, n: nat, m: nat, c: nat) returns (calls: seq<Call>)
    requires Linked(x, n, m) && 0 < m && c < n && c !in A.Chans(x.alloc.owners) && !T.Idle(x.st, c)
    ensures Possible(x, n, m, calls) && Guarded(x, n, m, calls) && !AlwaysSafe(x, n, m, calls)
    decreases c - A.FirstFree(A.Chans(x.alloc.owners), 0, n)
  {
    var f := A.FirstFree(A.Chans(x.alloc.owners), 0, n);
    var hw := FreshId(x.alloc.owners, x.alloc.owners.Keys);
    var call := Allocate(A.AcquireOp(hw, 0, true, hw));
    TakesChannel(x, n, m, hw);
    var y := Apply(x, n, m, call);
    assert T.Listed(y.st, c) == T.Listed(x.st, c);
    var rest := [];
    if f == c {
      assert !T.ChannelSafe(y.st, c);
    } else {
      rest := FillUpTo(y, n, m, c);
    }
    calls := [call] + rest;
    Prefix(x, n, m, call, rest);
  }

  /** A call that does not meet its guard, and a guarded continuation that is not safe. */
  lemma Breaks(x: Sys, n: nat, m: nat, call: Call) returns (calls: seq<Call>)
    requires Inv(x, n, m) && 0 < m && Allowed(x, n, call) && !Guard(x, n, m, call)
    ensures var y := Apply(x, n, m, call);
            Linked(y, n, m) && Possible(y, n, m, calls) && Guarded(y, n, m, calls) && !AlwaysSafe(y, n, m, calls)
  {
    StepLinked(x, n, m, call);
    var y := Apply(x, n, m, call);
    calls := [];
    match call
    case Allocate(op) =>
      A.StepKeepsOk(x.alloc, n, m, op);
      if A.Guard(x.alloc, n, m, op) {
        var c := op.slot.0;
        InUseIsChan(y.alloc.owners, c);
        assert T.Listed(y.st, c) == T.Listed(x.st, c);
        calls := FillUpTo(y, n, m, c);
      }
    case Protocol(e) =>
      var es := T.Breaks(x.st, n, e);
      SameRun(y, n, m, es);
      calls := Calls(es);
  }

  /** A call meets its guard if and only if every guarded run that goes on from it is safe in all its states. */
  lemma GuardIsExact(x: Sys, n: nat, m: nat, call: Call)
    requires Inv(x, n, m) && 0 < m && Allowed(x, n, call)
    ensures var y := Apply(x, n, m, call);
            && Linked(y, n, m)
            && (Guard(x, n, m, call) <==>
                  forall calls | Possible(y, n, m, calls) && Guarded(y, n, m, calls) :: AlwaysSafe(y, n, m, calls))
  {
    StepLinked(x, n, m, call);
    StepInv(x, n, m, call);
    var y := Apply(x, n, m, call);
    if Guard(x, n, m, call) {
      forall calls | Possible(y, n, m, calls) && Guarded(y, n, m, calls) ensures AlwaysSafe(y, n, m, calls) {
        EverySystemRun(y, n, m, calls);
      }
    } else {
      var calls := Breaks(x, n, m, call);
    }
  }

  /** A freshly opened device satisfies both invariants. */
  lemma OpenedInv(n: nat, m: nat)
    ensures Inv(Sys(A.EMPTY, T.Init(n)), n, m)
  {
    T.InitInv(n);
  }
}
