/** What each step of the transfer protocol changes and what it leaves alone, for every channel and in every state, and
    where the one semaphore count of a channel is at any time of a run. */
module DmaLedger {
  import opened Bits
  import opened Common
  import opened DmaRequestList
  import opened DmaTransfer

  /** A request that no channel takes: a continuous synchronous one. */
  predicate BadCount(e: Event)
    requires e.Start?
  {
    e.total == CONTINUOUS && e.kind.IsSync()
  }

  /** The slot is turned away: not enabled when the call was made. */
  predicate TurnedAway(s: State, e: Event)
    requires e.Start?
  {
    !e.waited && (e.chan, e.user) !in s.enabled
  }

  /** The step is a start that obtains the semaphore of channel `c`. */
  predicate Takes(s: State, e: Event, c: nat)
    requires Shape(s, |s.sems|) && Enabled(s, e)
  {
    e.Start? && e.chan == c && Obtains(s, c, e.user, e.kind, e.total, e.waited)
  }

  /** A start that does not obtain the semaphore changes nothing, and every status says exactly why a start ended as it
      did. */
  lemma StartOutcome(s: State, e: Event)
    requires Shape(s, |s.sems|) && Enabled(s, e) && e.Start?
    ensures var (t, status) := Step(s, e);
            var fit := !BadCount(e) && !TurnedAway(s, e);
            var taken := fit && e.chan in s.made && s.sems[e.chan] > 0;
            && (t == s <==> !taken)
            && (taken <==> Takes(s, e, e.chan))
            && (status == InvalidRequestCount <==> BadCount(e))
            && (status == InvalidHandle <==> !BadCount(e) && TurnedAway(s, e))
            && (status == NoSemaphore <==> fit && e.chan !in s.made)
            && (status == Timeout <==> fit && e.chan in s.made && s.sems[e.chan] == 0)
            && (status == DriverRefused <==> taken && !e.driverOk)
            && (status == NoStatus <==> taken && e.driverOk && e.kind.IsSync())
            && (status == Success <==> taken && e.driverOk && !e.kind.IsSync())
  {
    var t := Step(s, e).0;
    if Takes(s, e, e.chan) {
      assert t.sems[e.chan] != s.sems[e.chan];
    }
  }

  /** What a woken caller and a reset return. */
  lemma OtherOutcomes(s: State, e: Event)
    requires Shape(s, |s.sems|) && Enabled(s, e)
    ensures e.Wake? ==>
              var status, completed := Step(s, e).1, Posted(s.groups, e.wchan, true);
              && (status == Success <==> completed && e.wchan in s.made)
              && (status == NoSemaphore <==> completed && e.wchan !in s.made)
              && (status == DriverError <==> !completed)
    ensures e.Reset? ==> (Step(s, e).1 == InvalidHandle <==> e.slot !in s.enabled)
  {
  }

  // ----- who changes a semaphore count -----

  /** The step creates the semaphore of channel `c`: the first slot of the channel is enabled, and the OS can. */
  predicate Creates(s: State, e: Event, c: nat) {
    e.Acquire? && e.slot.0 == c && e.semOk && !InUse(s.enabled, c)
  }

  /** The step deletes the semaphore of channel `c`: no slot of the channel is left. */
  predicate Deletes(s: State, e: Event, c: nat) {
    e.Release? && e.slot.0 == c && !InUse(s.enabled - {e.slot}, c)
  }

  /** The step resets the semaphore of channel `c`. */
  predicate Resets(s: State, e: Event, c: nat) {
    e.Reset? && e.slot.0 == c && e.slot in s.enabled && c in s.made
  }

  /** The step ends the record at the head, which is one of channel `c`. */
  predicate Ends(s: State, e: Event, c: nat)
    requires Sized(s) && Enabled(s, e)
  {
    e.Interrupt? && s.queue[0].chan == c && Dec(s.queue[0].left) == 0
  }

  predicate Sized(s: State) {
    |s.sems| == |s.waiters| && |s.groups| == (|s.sems| + 15) / 16
  }

  /** The step gives the count of channel `c` back: its caller wakes up, or its last asynchronous request completes. */
  predicate Returns(s: State, e: Event, c: nat)
    requires Sized(s) && Enabled(s, e)
  {
    c in s.made && (e == Wake(c) || (Ends(s, e, c) && s.queue[0].kind.IsAsync()))
  }

  /** The semaphore count of every channel after every step: only a start that obtains it, a return, a creation, a
      deletion and a reset of that channel change it. */
  lemma CountChanges(s: State, e: Event, c: nat)
    requires Shape(s, |s.sems|) && Enabled(s, e) && c < |s.sems|
    ensures Step(s, e).0.sems[c] ==
            if Takes(s, e, c) then s.sems[c] - 1
            else if Returns(s, e, c) then s.sems[c] + 1
            else if Creates(s, e, c) || Resets(s, e, c) then 1
            else if Deletes(s, e, c) then 0
            else s.sems[c]
  {
  }

  /** Which channels have a semaphore: only creation and deletion change that. */
  lemma MadeChanges(s: State, e: Event, c: nat)
    requires Shape(s, |s.sems|) && Enabled(s, e)
    ensures c in Step(s, e).0.made <==> (c in s.made && !Deletes(s, e, c)) || Creates(s, e, c)
  {
  }

  /** Which slots are enabled: only acquiring and releasing that slot changes it. */
  lemma SlotChanges(s: State, e: Event, slot: Slot)
    requires Shape(s, |s.sems|) && Enabled(s, e)
    ensures slot in Step(s, e).0.enabled <==>
            (slot in s.enabled && !(e.Release? && e.slot == slot)) || (e.Acquire? && e.slot == slot)
  {
  }

  /** A further user of a channel in use leaves every semaphore as it is. */
  lemma FurtherUser(s: State, slot: Slot, semOk: bool)
    requires slot.0 < |s.sems| && InUse(s.enabled, slot.0)
    ensures AcquireStep(s, slot, semOk) == s.(enabled := s.enabled + {slot})
  {
  }

  /** The callers waiting on every channel: one more with a synchronous start the driver accepts, one less with a
      wake-up. */
  lemma WaiterChanges(s: State, e: Event, c: nat)
    requires Shape(s, |s.sems|) && Enabled(s, e) && c < |s.sems|
    ensures Step(s, e).0.waiters[c] ==
            if Takes(s, e, c) && e.kind.IsSync() && e.driverOk then s.waiters[c] + 1
            else if e == Wake(c) then s.waiters[c] - 1
            else s.waiters[c]
  {
  }

  /** The events of every channel: an interrupt for a synchronous head posts the one its outcome says, and a wake-up
      consumes both. */
  lemma EventChanges(s: State, e: Event, c: nat, b: bool)
    requires Shape(s, |s.sems|) && Enabled(s, e) && c < |s.sems|
    ensures Posted(Step(s, e).0.groups, c, b) <==>
            (Posted(s.groups, c, b) && e != Wake(c)) ||
            (e.Interrupt? && s.queue[0].chan == c && s.queue[0].kind.IsSync() && e.ok == b)
  {
    match e
    case Interrupt(ok) => PostIsExact(s.groups, s.queue[0].chan, ok, c, b);
    case Wake(d) => ConsumeIsExact(s.groups, d, c, b);
    case _ => assert Step(s, e).0.groups == s.groups;
  }

  /** The request list: only a start that obtains a semaphore and an interrupt change it, and an interrupt changes
      nothing behind the head. */
  lemma ListChanges(s: State, e: Event)
    requires Shape(s, |s.sems|) && Enabled(s, e)
    ensures var q, q' := s.queue, Step(s, e).0.queue;
            && (!e.Interrupt? && !(e.Start? && Takes(s, e, e.chan)) ==>
                  q' == q && Step(s, e).0.looped == s.looped)
            && (e.Interrupt? ==>
                  var off := if Dec(q[0].left) == 0 && !(s.looped && |q| == 1) then 1 else 0;
                  && |q'| == |q| - off && Step(s, e).0.looped == s.looped
                  && (forall i | 1 - off <= i < |q'| :: q'[i] == q[i + off])
                  && (off == 0 ==> q'[0] == q[0].(left := Dec(q[0].left))))
  {
    if e.Start? {
      StartOutcome(s, e);
    }
  }

  // ----- where the count of a channel is -----

  /** The count of a channel with a semaphore: available, or held by what is listed, awaited or posted. */
  function Tokens(s: State, c: nat): int
    requires Shape(s, |s.sems|) && c < |s.sems|
  {
    if c !in s.made then 0 else s.sems[c] + if Idle(s, c) then 0 else 1
  }

  /** The step loses the count of channel `c`: it ends a record that is neither synchronous nor asynchronous. */
  predicate Loses(s: State, e: Event, c: nat)
    requires Sized(s) && Enabled(s, e)
  {
    c in s.made && Ends(s, e, c) && !s.queue[0].kind.IsSync() && !s.queue[0].kind.IsAsync()
  }

  /** What a step does to the count. */
  function Change(s: State, e: Event, c: nat): int
    requires Shape(s, |s.sems|) && Enabled(s, e) && c < |s.sems|
  {
    if Creates(s, e, c) then 1
    else if Deletes(s, e, c) then -Tokens(s, c)
    else if Resets(s, e, c) then 1 - Tokens(s, c)
    else if Loses(s, e, c) then -1
    else 0
  }

  function Changes(s: State, es: seq<Event>, c: nat): int
    requires Shape(s, |s.sems|) && Possible(s, es) && c < |s.sems|
    decreases es
  {
    if es == [] then 0 else Change(s, es[0], c) + Changes(Step(s, es[0]).0, es[1..], c)
  }

  lemma TokensStart(s: State, n: nat, e: Event, c: nat)
    requires Inv(s, n) && Enabled(s, e) && e.Start? && c < n
    ensures Tokens(Step(s, e).0, c) == Tokens(s, c)
  {
    StartOutcome(s, e);
    assert ChannelInv(s, n, c);
    if Takes(s, e, e.chan) {
      ObtainedState(s, n, e.chan, e.user, e.kind, e.total, e.waited, e.driverOk);
      ListsAppend(s.queue, Record(e.chan, e.user, e.kind, e.total), c);
    }
  }

  lemma TokensInterrupt(s: State, n: nat, ok: bool, c: nat)
    requires Inv(s, n) && s.queue != [] && c < n
    ensures Tokens(Step(s, Interrupt(ok)).0, c) ==
            Tokens(s, c) - if Loses(s, Interrupt(ok), c) then 1 else 0
  {
    assert ChannelInv(s, n, c) && RecordInv(s, n, 0) && !Blocked(s.queue[..0]);
    assert Listed(s, s.queue[0].chan);
    ServedQueue(s.queue);
    EventChanges(s, Interrupt(ok), c, true);
    EventChanges(s, Interrupt(ok), c, false);
  }

  lemma TokensWake(s: State, n: nat, d: nat, c: nat)
    requires Inv(s, n) && Enabled(s, Wake(d)) && c < n
    ensures Tokens(Step(s, Wake(d)).0, c) == Tokens(s, c)
  {
    assert ChannelInv(s, n, c) && ChannelInv(s, n, d);
    EventChanges(s, Wake(d), c, true);
    EventChanges(s, Wake(d), c, false);
    assert Listed(Step(s, Wake(d)).0, c) == Listed(s, c);
  }

  /** The count over one guarded step: it moves between available and held, and changes only by a creation, a deletion,
      a reset or the end of a record of no type. */
  lemma TokensStep(s: State, n: nat, e: Event, c: nat)
    requires Inv(s, n) && Enabled(s, e) && Guard(s, e) && c < n
    ensures 0 <= Tokens(s, c) <= 1
    ensures Tokens(Step(s, e).0, c) == Tokens(s, c) + Change(s, e, c)
  {
    assert ChannelInv(s, n, c);
    match e
    case Start(_, _, _, _, _, _) => TokensStart(s, n, e, c);
    case Interrupt(ok) => TokensInterrupt(s, n, ok, c);
    case Wake(d) => TokensWake(s, n, d, c);
    case _ => assert Listed(Step(s, e).0, c) == Listed(s, c);
  }

  /** Over every guarded run the one count of a channel is available or held, except for what creations, deletions,
      resets and ends of records of no type did to it. */
  lemma {:induction false} EveryCountIsKept(s: State, n: nat, es: seq<Event>, c: nat)
    requires Inv(s, n) && Possible(s, es) && Guarded(s, es) && c < n
    ensures Tokens(Final(s, es), c) == Tokens(s, c) + Changes(s, es, c)
    decreases es
  {
    if es != [] {
      TokensStep(s, n, es[0], c);
      StepInv(s, n, es[0]);
      EveryCountIsKept(Step(s, es[0]).0, n, es[1..], c);
    }
  }

  /** A fit request of a channel that has its count is timed out if and only if something of the channel is listed,
      awaited or posted: no other channel and no other user can block it. */
  lemma TimeoutIsBusy(s: State, n: nat, e: Event)
    requires Inv(s, n) && Enabled(s, e) && e.Start? && Tokens(s, e.chan) == 1
    requires !BadCount(e) && !TurnedAway(s, e)
    ensures Step(s, e).1 == Timeout <==> !Idle(s, e.chan)
  {
    assert ChannelInv(s, n, e.chan);
    StartOutcome(s, e);
  }
}
