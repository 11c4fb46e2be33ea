/** What becomes of a transfer over every run, guarded or not: how many interrupts it takes, when it never ends, what a
    reset, a release or a second start of a linked slot does to it, and when its channel is lost. */
module DmaProgress {
  import opened Bits
  import opened Common
  import opened DmaRequestList
  import opened DmaTransfer

  // ----- starts of a slot that is still linked -----

  /** A start that obtains the semaphore while its own slot is linked. */
  predicate Relinks(s: State, e: Event)
    requires Shape(s, |s.sems|) && Enabled(s, e)
  {
    && e.Start? && Obtains(s, e.chan, e.user, e.kind, e.total, e.waited)
    && Position(s.queue, e.chan, e.user) < |s.queue|
  }

  /** What it does to the list: its record is overwritten, exactly the records behind it are cut off, and if it is the
      tail the list has no end any more. Otherwise a start that obtains the semaphore appends. */
  lemma RelinkEffect(s: State, e: Event)
    requires Shape(s, |s.sems|) && Enabled(s, e) && e.Start? && Obtains(s, e.chan, e.user, e.kind, e.total, e.waited)
    ensures var k, t := Position(s.queue, e.chan, e.user), Step(s, e).0;
            var r := Record(e.chan, e.user, e.kind, e.total);
            if Relinks(s, e) then t.queue == s.queue[..k] + [r] && (t.looped <==> k == |s.queue| - 1)
            else t.queue == s.queue + [r] && !t.looped
  {
    assert s.queue[..|s.queue|] == s.queue;
  }

  /** Guarded runs never do that. */
  lemma GuardedNeverRelinks(s: State, n: nat, e: Event)
    requires Inv(s, n) && Enabled(s, e)
    ensures !Relinks(s, e)
  {
    if e.Start? {
      assert ChannelInv(s, n, e.chan);
    }
  }

  /** The step cuts a record of channel `c` off the list. */
  predicate CutsOff(s: State, e: Event, c: nat)
    requires Shape(s, |s.sems|) && Enabled(s, e)
  {
    && Relinks(s, e)
    && exists i :: Position(s.queue, e.chan, e.user) < i < |s.queue| && s.queue[i].chan == c
  }

  // ----- how many interrupts a transfer takes -----

  function Interrupts(es: seq<Event>): nat {
    if es == [] then 0 else (if es[0].Interrupt? then 1 else 0) + Interrupts(es[1..])
  }

  /** The interrupts of a run that serve channel `c`. */
  function Services(s: State, es: seq<Event>, c: nat): nat
    requires Shape(s, |s.sems|) && Possible(s, es)
    decreases es
  {
    if es == [] then 0
    else (if es[0].Interrupt? && s.queue[0].chan == c then 1 else 0) + Services(Step(s, es[0]).0, es[1..], c)
  }

  /** The step gives the channel a semaphore count from outside the protocol: a reset, or the creation of its
      semaphore. */
  predicate Revives(s: State, e: Event, c: nat) {
    match e
    case Reset(slot) => slot.0 == c && slot in s.enabled && c in s.made
    case Acquire(slot, semOk) => slot.0 == c && semOk && !InUse(s.enabled, c)
    case _ => false
  }

  /** No step of the run does that. */
  predicate Unrevived(s: State, es: seq<Event>, c: nat)
    requires Shape(s, |s.sems|) && Possible(s, es)
    decreases es
  {
    es == [] || (!Revives(s, es[0], c) && Unrevived(Step(s, es[0]).0, es[1..], c))
  }

  /** No step of the run revives channel `c` or cuts off its record. */
  predicate Undisturbed(s: State, es: seq<Event>, c: nat)
    requires Shape(s, |s.sems|) && Possible(s, es)
    decreases es
  {
    es == [] ||
    (!Revives(s, es[0], c) && !CutsOff(s, es[0], c) && Undisturbed(Step(s, es[0]).0, es[1..], c))
  }

  /** The list holds `r`, and no other record of its channel. */
  ghost predicate Alone(q: seq<Record>, r: Record) {
    exists k :: 0 <= k < |q| && q[k] == r && forall i | 0 <= i < |q| && i != k :: q[i].chan != r.chan
  }

  /** And it is not its own successor. */
  ghost predicate OnList(s: State, r: Record) {
    Alone(s.queue, r) && (s.looped ==> s.queue[|s.queue| - 1] != r)
  }

  lemma AloneAtEnd(q: seq<Record>, r: Record)
    requires !Lists(q, r.chan)
    ensures Alone(q + [r], r)
  {
    assert (q + [r])[|q|] == r;
  }

  /** Cutting a list behind position `k` and putting `x` there. */
  lemma CutList(q: seq<Record>, r: Record, k: nat, x: Record)
    requires Alone(q, r) && k <= |q| && x.chan != r.chan && (k < |q| ==> q[k].chan != r.chan)
    ensures if exists i :: k < i < |q| && q[i].chan == r.chan then !Lists(q[..k] + [x], r.chan)
            else Alone(q[..k] + [x], r)
  {
    var p :| 0 <= p < |q| && q[p] == r && forall i | 0 <= i < |q| && i != p :: q[i].chan != r.chan;
    var q' := q[..k] + [x];
    assert forall i | 0 <= i < k :: q'[i] == q[i];
    if p < k {
      assert q'[p] == r;
    } else {
      assert q[p].chan == r.chan;
    }
  }

  /** A start of another channel leaves the record on the list exactly when it does not cut it off. */
  lemma LinkOther(s: State, e: Event, r: Record)
    requires Shape(s, |s.sems|) && Enabled(s, e) && e.Start? && Obtains(s, e.chan, e.user, e.kind, e.total, e.waited)
    requires OnList(s, r) && e.chan != r.chan
    ensures var t := Step(s, e).0; if CutsOff(s, e, r.chan) then !Listed(t, r.chan) else OnList(t, r)
  {
    var k, x := Position(s.queue, e.chan, e.user), Record(e.chan, e.user, e.kind, e.total);
    var t := Step(s, e).0;
    assert t.queue == s.queue[..k] + [x];
    CutList(s.queue, r, k, x);
    assert t.queue[|t.queue| - 1] == x != r;
  }

  lemma AloneServed(q: seq<Record>, looped: bool, r: Record)
    requires q != [] && q[0].chan != r.chan && Alone(q, r)
    ensures Alone(Served(q, looped), r) && |q| > 1
  {
    var q' := Served(q, looped);
    var off := |q| - |q'|;
    var k :| 0 <= k < |q| && q[k] == r && forall i | 0 <= i < |q| && i != k :: q[i].chan != r.chan;
    forall i | 0 <= i < |q'|
      ensures q'[i].chan == q[i + off].chan && (i + off > 0 ==> q'[i] == q[i + off])
    {
    }
    assert q'[k - off] == r;
  }

  /** An interrupt for another channel leaves the record where it is. */
  lemma OthersServed(s: State, r: Record)
    requires s.queue != [] && s.queue[0].chan != r.chan && OnList(s, r)
    ensures OnList(s.(queue := Served(s.queue, s.looped)), r)
  {
    AloneServed(s.queue, s.looped, r);
    var q' := Served(s.queue, s.looped);
    assert q'[|q'| - 1] == s.queue[|s.queue| - 1];
  }

  /** An interrupt for its own channel counts it down, and unlinks it at zero. */
  lemma OwnServed(s: State, r: Record)
    requires s.queue != [] && s.queue[0].chan == r.chan && OnList(s, r)
    ensures s.queue[0] == r
    ensures var s' := s.(queue := Served(s.queue, s.looped));
            if Dec(r.left) == 0 then !Listed(s', r.chan) else OnList(s', r.(left := Dec(r.left)))
  {
    var q, q' := s.queue, Served(s.queue, s.looped);
    var k :| 0 <= k < |q| && q[k] == r && forall i | 0 <= i < |q| && i != k :: q[i].chan != r.chan;
    if Dec(r.left) == 0 {
      assert forall i | 0 <= i < |q'| :: q'[i] == q[i + 1];
    } else {
      assert q'[0] == r.(left := Dec(r.left)) && forall i | 1 <= i < |q'| :: q'[i] == q[i];
    }
  }

  /** An asynchronous request anywhere on the list, holding its channel. */
  ghost predicate AsyncListed(s: State, h: Record) {
    && OnList(s, h) && h.kind.IsAsync()
    && h.chan < |s.sems| == |s.waiters| && s.sems[h.chan] == 0 && s.waiters[h.chan] == 0
  }

  lemma AsyncStart(s: State, h: Record, e: Event)
    requires Shape(s, |s.sems|) && Enabled(s, e) && AsyncListed(s, h) && e.Start? && !CutsOff(s, e, h.chan)
    ensures AsyncListed(Step(s, e).0, h)
  {
    if Obtains(s, e.chan, e.user, e.kind, e.total, e.waited) {
      LinkOther(s, e, h);
    }
  }

  lemma AsyncServed(s: State, h: Record, ok: bool)
    requires Shape(s, |s.sems|) && s.queue != [] && AsyncListed(s, h)
    requires s.queue[0].chan == h.chan ==> Dec(h.left) != 0
    ensures AsyncListed(InterruptStep(s, ok), if s.queue[0].chan == h.chan then h.(left := Dec(h.left)) else h)
  {
    if s.queue[0].chan == h.chan {
      OwnServed(s, h);
    } else {
      OthersServed(s, h);
    }
  }

  lemma AsyncStep(s: State, h: Record, e: Event)
    requires Shape(s, |s.sems|) && Enabled(s, e) && AsyncListed(s, h)
    requires !Revives(s, e, h.chan) && !CutsOff(s, e, h.chan)
    requires e.Interrupt? && s.queue[0].chan == h.chan ==> Dec(h.left) != 0
    ensures AsyncListed(Step(s, e).0,
                        if e.Interrupt? && s.queue[0].chan == h.chan then h.(left := Dec(h.left)) else h)
  {
    match e
    case Start(_, _, _, _, _, _) => AsyncStart(s, h, e);
    case Interrupt(ok) => AsyncServed(s, h, ok);
    case _ =>
      assert Step(s, e).0.queue == s.queue && Step(s, e).0.looped == s.looped;
  }

  /** The interrupt for the last request unlinks the record and gives the semaphore back. */
  lemma AsyncFinish(t: State, h: Record, ok: bool)
    requires Shape(t, |t.sems|) && AsyncListed(t, h) && t.queue[0].chan == h.chan && h.left == 1
    ensures !Listed(InterruptStep(t, ok), h.chan)
    ensures InterruptStep(t, ok).sems[h.chan] == if h.chan in t.made then 1 else 0
  {
    OwnServed(t, h);
  }

  lemma {:induction false} AsyncKeeps(s: State, h: Record, es: seq<Event>)
    requires Shape(s, |s.sems|) && Possible(s, es) && AsyncListed(s, h) && Undisturbed(s, es, h.chan)
    requires 1 <= h.left < CONTINUOUS && Services(s, es, h.chan) < h.left
    ensures AsyncListed(Final(s, es), h.(left := h.left - Services(s, es, h.chan)))
    decreases es
  {
    if es != [] {
      AsyncStep(s, h, es[0]);
      var own := es[0].Interrupt? && s.queue[0].chan == h.chan;
      AsyncKeeps(Step(s, es[0]).0, if own then h.(left := h.left - 1) else h, es[1..]);
    }
  }

  /** An asynchronous transfer keeps its place and its semaphore for exactly as many interrupts for its channel as it
      has requests, whatever else happens in between, unless the channel is revived or its record cut off; the last of
      them unlinks it and gives the semaphore back. */
  lemma AsyncCountdown(s: State, h: Record, es: seq<Event>, ok: bool)
    requires Shape(s, |s.sems|) && Possible(s, es) && AsyncListed(s, h) && Undisturbed(s, es, h.chan)
    requires 1 <= h.left < CONTINUOUS && Services(s, es, h.chan) < h.left
    ensures var t, left := Final(s, es), h.left - Services(s, es, h.chan);
            && AsyncListed(t, h.(left := left))
            && (t.queue[0].chan == h.chan && left == 1 ==>
                  && !Listed(InterruptStep(t, ok), h.chan)
                  && InterruptStep(t, ok).sems[h.chan] == if h.chan in t.made then 1 else 0)
  {
    AsyncKeeps(s, h, es);
    var t, left := Final(s, es), h.left - Services(s, es, h.chan);
    if t.queue[0].chan == h.chan && left == 1 {
      AsyncFinish(t, h.(left := 1), ok);
    }
  }

  /** A continuous asynchronous transfer, and one of zero requests, whose count wraps, keeps list and semaphore in every
      run that does not revive its channel or cut off its record. */
  lemma {:induction false} NeverReturned(s: State, h: Record, es: seq<Event>)
    requires Shape(s, |s.sems|) && Possible(s, es) && AsyncListed(s, h) && Undisturbed(s, es, h.chan)
    requires h.left in {0, CONTINUOUS}
    ensures Final(s, es).sems[h.chan] == 0 && Listed(Final(s, es), h.chan)
    decreases es
  {
    if es != [] {
      AsyncStep(s, h, es[0]);
      var own := es[0].Interrupt? && s.queue[0].chan == h.chan;
      NeverReturned(Step(s, es[0]).0, if own then h.(left := CONTINUOUS) else h, es[1..]);
    }
  }

  /** The step starts the slot anew. */
  predicate Restarts(s: State, e: Event, slot: Slot)
    requires Shape(s, |s.sems|) && Enabled(s, e)
  {
    e.Start? && (e.chan, e.user) == slot && Obtains(s, e.chan, e.user, e.kind, e.total, e.waited)
  }

  predicate NotRestarted(s: State, es: seq<Event>, slot: Slot)
    requires Shape(s, |s.sems|) && Possible(s, es)
    decreases es
  {
    es == [] || (!Restarts(s, es[0], slot) && NotRestarted(Step(s, es[0]).0, es[1..], slot))
  }

  /** The head of a list that never finishes, in one step: a new start of its slot overwrites it and cuts off everything
      behind it, and nothing else moves it. */
  lemma EndlessHead(s: State, e: Event)
    requires Shape(s, |s.sems|) && Enabled(s, e) && s.queue != [] && s.queue[0].left in {0, CONTINUOUS}
    ensures var h, q := s.queue[0], Step(s, e).0.queue;
            if Restarts(s, e, (h.chan, h.user)) then q == [Record(h.chan, h.user, e.kind, e.total)]
            else q != [] && q[0] == if e.Interrupt? then h.(left := CONTINUOUS) else h
  {
    if e.Start? && Obtains(s, e.chan, e.user, e.kind, e.total, e.waited) {
      RelinkEffect(s, e);
    }
  }

  /** A continuous transfer at the head, and one of zero requests, stays at the head in every run in which its slot is
      not started anew. */
  lemma {:induction false} NeverFinishes(s: State, es: seq<Event>)
    requires Shape(s, |s.sems|) && Possible(s, es) && s.queue != [] && s.queue[0].left in {0, CONTINUOUS}
    requires NotRestarted(s, es, (s.queue[0].chan, s.queue[0].user))
    ensures var h, t := s.queue[0], Final(s, es);
            t.queue != [] && t.queue[0] == h.(left := if Interrupts(es) == 0 then h.left else CONTINUOUS)
    decreases es
  {
    if es != [] {
      EndlessHead(s, es[0]);
      NeverFinishes(Step(s, es[0]).0, es[1..]);
    }
  }

  // ----- where the guarantees stop -----

  /** A synchronous request that its caller waits for and that is listed once, with no event posted. */
  ghost predicate InFlight(s: State, r: Record)
    requires Shape(s, |s.sems|)
  {
    && r.kind.IsSync() && r.chan < |s.sems| && s.sems[r.chan] == 0 && s.waiters[r.chan] == 1
    && NonePosted(s.groups, r.chan) && r.chan in s.made && InUse(s.enabled, r.chan) && OnList(s, r)
  }

  /** The step neither serves the request of channel `c` nor cuts it off, nor resets or releases the channel. */
  predicate LeavesAlone(s: State, e: Event, c: nat)
    requires Shape(s, |s.sems|) && Enabled(s, e)
  {
    match e
    case Start(_, _, _, _, _, _) => !CutsOff(s, e, c)
    case Interrupt(_) => s.queue[0].chan != c
    case Reset(slot) => slot.0 != c
    case Release(slot) => slot.0 != c
    case _ => true
  }

  predicate Untouched(s: State, es: seq<Event>, c: nat)
    requires Shape(s, |s.sems|) && Possible(s, es)
    decreases es
  {
    es == [] || (LeavesAlone(s, es[0], c) && Untouched(Step(s, es[0]).0, es[1..], c))
  }

  lemma InFlightStart(s: State, e: Event, r: Record)
    requires Shape(s, |s.sems|) && Enabled(s, e) && InFlight(s, r) && e.Start? && !CutsOff(s, e, r.chan)
    ensures InFlight(Step(s, e).0, r)
  {
    if Obtains(s, e.chan, e.user, e.kind, e.total, e.waited) {
      LinkOther(s, e, r);
    }
  }

  lemma InFlightInterrupt(s: State, ok: bool, r: Record)
    requires Shape(s, |s.sems|) && s.queue != [] && InFlight(s, r) && s.queue[0].chan != r.chan
    ensures InFlight(Step(s, Interrupt(ok)).0, r)
  {
    OthersServed(s, r);
    PostIsExact(s.groups, s.queue[0].chan, ok, r.chan, true);
    PostIsExact(s.groups, s.queue[0].chan, ok, r.chan, false);
  }

  lemma InFlightStep(s: State, e: Event, r: Record)
    requires Shape(s, |s.sems|) && Enabled(s, e) && InFlight(s, r) && LeavesAlone(s, e, r.chan)
    ensures InFlight(Step(s, e).0, r)
  {
    match e
    case Start(_, _, _, _, _, _) => InFlightStart(s, e, r);
    case Interrupt(ok) => InFlightInterrupt(s, ok, r);
    case Wake(c) =>
      ConsumeIsExact(s.groups, c, r.chan, true);
      ConsumeIsExact(s.groups, c, r.chan, false);
    case Acquire(slot, _) => InUseAfter(s.enabled, slot, r.chan);
    case Release(slot) => InUseAfter(s.enabled, slot, r.chan);
    case Reset(_) =>
  }

  lemma {:induction false} InFlightRun(s: State, es: seq<Event>, r: Record)
    requires Shape(s, |s.sems|) && Possible(s, es) && InFlight(s, r) && Untouched(s, es, r.chan)
    ensures InFlight(Final(s, es), r)
    decreases es
  {
    if es != [] {
      InFlightStep(s, es[0], r);
      InFlightRun(Step(s, es[0]).0, es[1..], r);
    }
  }

  /** The interrupt that serves it and the wake-up of its caller. */
  lemma ServedAndWoken(s: State, n: nat, r: Record, ok: bool)
    requires Shape(s, n) && InFlight(s, r) && r.left != CONTINUOUS && s.queue[0].chan == r.chan
    ensures var t := InterruptStep(s, ok);
            && Shape(t, n) && Enabled(t, Wake(r.chan))
            && var (w, status) := WakeStep(t, r.chan);
               && Shape(w, n) && w.sems[r.chan] == 1 && status == (if ok then Success else DriverError)
               && (Listed(w, r.chan) <==> r.left != 1)
               && (ChannelSafe(w, r.chan) <==> r.left == 1)
               && (r.left != 1 ==> w.queue != [] && w.queue[0] == r.(left := Dec(r.left)))
  {
    var c := r.chan;
    var t := InterruptStep(s, ok);
    assert t == Step(s, Interrupt(ok)).0;
    PostIsExact(s.groups, c, ok, c, true);
    PostIsExact(s.groups, c, ok, c, false);
    var w := WakeStep(t, c).0;
    ConsumeIsExact(t.groups, c, c, true);
    ConsumeIsExact(t.groups, c, c, false);
    assert w.queue == t.queue == Served(s.queue, s.looped);
    OwnServed(s, r);
    if r.left != 1 {
      assert w.queue[0].chan == c;
    }
  }

  /** A synchronous transfer, started in any safe state, while any other transfers come and go: once an interrupt has
      served it and its caller has woken up, the semaphore is back; the record is off the list, and the channel safe, if
      and only if the transfer carried one request. Otherwise the next start of its slot relinks the head of the list:
      every other record is lost, or, if there is none, the list loses its end. */
  lemma SyncCountMustBeOne(s: State, n: nat, e: Event, es: seq<Event>, t: State, ok: bool, again: Event)
    requires Inv(s, n) && Enabled(s, e) && e.Start? && e.kind.IsSync() && e.driverOk
    requires Obtains(s, e.chan, e.user, e.kind, e.total, e.waited)
    requires Possible(Step(s, e).0, es) && Untouched(Step(s, e).0, es, e.chan)
    requires t == Final(Step(s, e).0, es) && t.queue != [] && t.queue[0].chan == e.chan
    requires again.Start? && again.chan == e.chan && again.user == e.user
    ensures Enabled(InterruptStep(t, ok), Wake(e.chan))
    ensures var w := WakeStep(InterruptStep(t, ok), e.chan).0;
            && Shape(w, n) && w.sems[e.chan] == 1
            && (Listed(w, e.chan) <==> e.total != 1) && (ChannelSafe(w, e.chan) <==> e.total == 1)
            && (e.total != 1 && Obtains(w, e.chan, e.user, again.kind, again.total, again.waited) ==>
                  && Relinks(w, again)
                  && Step(w, again).0.queue == [Record(e.chan, e.user, again.kind, again.total)]
                  && (Step(w, again).0.looped <==> |w.queue| == 1))
  {
    var c, u := e.chan, e.user;
    var r := Record(c, u, e.kind, e.total);
    assert ChannelInv(s, n, c);
    ObtainedState(s, n, c, u, e.kind, e.total, e.waited, true);
    AloneAtEnd(s.queue, r);
    InFlightRun(Step(s, e).0, es, r);
    ServedAndWoken(t, n, r, ok);
    var w := WakeStep(InterruptStep(t, ok), c).0;
    if e.total != 1 && Obtains(w, c, u, again.kind, again.total, again.waited) {
      assert Position(w.queue, c, u) == 0;
      RelinkEffect(w, again);
    }
  }

  /** A channel without semaphore count that nothing in the protocol gives back: nobody waits, and no asynchronous
      record is listed. */
  ghost predicate Dead(s: State, c: nat) {
    c < |s.sems| == |s.waiters| && s.sems[c] == 0 && s.waiters[c] == 0 && NoAsync(s.queue, c)
  }

  ghost predicate NoAsync(q: seq<Record>, c: nat) {
    forall i | 0 <= i < |q| && q[i].chan == c :: !q[i].kind.IsAsync()
  }

  lemma ServedNoAsync(q: seq<Record>, looped: bool, c: nat)
    requires q != [] && NoAsync(q, c)
    ensures NoAsync(Served(q, looped), c)
  {
    var q' := Served(q, looped);
    var off := |q| - |q'|;
    forall i | 0 <= i < |q'| && q'[i].chan == c ensures !q'[i].kind.IsAsync() {
      assert q[i + off].chan == c && q'[i].kind == q[i + off].kind;
    }
  }

  lemma LinkNoAsync(s: State, r: Record, c: nat)
    requires NoAsync(s.queue, c) && r.chan != c
    ensures NoAsync(Link(s, r).queue, c)
  {
    var q, q' := s.queue, Link(s, r).queue;
    assert forall i | 0 <= i < |q'| - 1 :: q'[i] == q[i];
  }

  /** On a dead channel a step makes the semaphore available if and only if it revives the channel. */
  lemma DeadStep(s: State, e: Event, c: nat)
    requires Shape(s, |s.sems|) && Enabled(s, e) && Dead(s, c)
    ensures if Revives(s, e, c) then Step(s, e).0.sems[c] == 1 else Dead(Step(s, e).0, c)
  {
    if e.Interrupt? {
      ServedNoAsync(s.queue, s.looped, c);
    } else if e.Start? && Obtains(s, e.chan, e.user, e.kind, e.total, e.waited) {
      LinkNoAsync(s, Record(e.chan, e.user, e.kind, e.total), c);
    }
  }

  /** A dead channel stays dead in every run, guarded or not, until it is reset or acquired anew. */
  lemma {:induction false} DeadUntilRevived(s: State, es: seq<Event>, c: nat)
    requires Shape(s, |s.sems|) && Possible(s, es) && Dead(s, c) && Unrevived(s, es, c)
    ensures Dead(Final(s, es), c)
    decreases es
  {
    if es != [] {
      DeadStep(s, es[0], c);
      DeadUntilRevived(Step(s, es[0]).0, es[1..], c);
    }
  }

  /** An asynchronous transfer whose record is cut off keeps its semaphore in every later run until its channel is
      reset or acquired anew. */
  lemma CutOffIsLost(s: State, e: Event, h: Record, es: seq<Event>)
    requires Shape(s, |s.sems|) && Enabled(s, e) && AsyncListed(s, h) && CutsOff(s, e, h.chan)
    requires Possible(Step(s, e).0, es) && Unrevived(Step(s, e).0, es, h.chan)
    ensures !Listed(Step(s, e).0, h.chan) && Final(Step(s, e).0, es).sems[h.chan] == 0
  {
    LinkOther(s, e, h);
    var t := Step(s, e).0;
    forall i | 0 <= i < |t.queue| ensures t.queue[i].chan != h.chan {
      assert !Lists(t.queue, h.chan);
    }
    DeadUntilRevived(t, es, h.chan);
  }

  /** A transfer that the driver refuses. A synchronous one keeps the semaphore in every later run until the channel is
      reset or acquired anew, and the step that does so makes the semaphore available. An asynchronous one leaves the
      state of an accepted one, so that as many interrupts as it has requests give the semaphore back. */
  lemma RefusedStartKeepsSemaphore(s: State, n: nat, e: Event, es: seq<Event>)
    requires Inv(s, n) && Enabled(s, e) && e.Start? && !e.driverOk
    requires Obtains(s, e.chan, e.user, e.kind, e.total, e.waited)
    requires Possible(Step(s, e).0, es)
    ensures var t, c := Step(s, e).0, e.chan;
            && (e.kind.IsAsync() ==>
                  t == Step(s, e.(driverOk := true)).0 && AsyncListed(t, Record(c, e.user, e.kind, e.total)))
            && (!e.kind.IsAsync() && Unrevived(t, es, c) ==>
                  && Final(t, es).sems[c] == 0
                  && forall f | Enabled(Final(t, es), f) && Revives(Final(t, es), f, c) ::
                       Step(Final(t, es), f).0.sems[c] == 1)
  {
    var t, c := Step(s, e).0, e.chan;
    assert ChannelInv(s, n, c);
    ObtainedState(s, n, c, e.user, e.kind, e.total, e.waited, false);
    AloneAtEnd(s.queue, Record(c, e.user, e.kind, e.total));
    if !e.kind.IsAsync() && Unrevived(t, es, c) {
      DeadUntilRevived(t, es, c);
      forall f | Enabled(Final(t, es), f) && Revives(Final(t, es), f, c)
        ensures Step(Final(t, es), f).0.sems[c] == 1
      {
        DeadStep(Final(t, es), f, c);
      }
    }
  }

  /** What an ill-timed reset, or an ill-timed release of the last slot followed by its acquire, leads to: the
      semaphore is available while a record of the channel is still linked. The next start of that slot relinks its
      own record, or lists the channel a second time if the record belongs to another user. */
  lemma RevivedTooEarly(s: State, n: nat, slot: Slot, t: State, again: Event)
    requires Inv(s, n) && slot in s.enabled && slot.0 in s.made && Listed(s, slot.0)
    requires !InUse(s.enabled - {slot}, slot.0)
    requires t in {ResetStep(s, slot).0, AcquireStep(ReleaseStep(s, slot), slot, true)}
    requires again.Start? && (again.chan, again.user) == slot && !(again.total == CONTINUOUS && again.kind.IsSync())
    ensures && Shape(t, n) && t.queue == s.queue && t.sems[slot.0] == 1 && Listed(t, slot.0) && !Safe(t)
            && Enabled(t, again)
            && var k, q := Position(s.queue, slot.0, slot.1), Step(t, again).0.queue;
               && (Relinks(t, again) <==> k < |s.queue|)
               && q == s.queue[..k] + [Record(slot.0, slot.1, again.kind, again.total)]
               && (k == |s.queue| ==> !OnePerChannel(q))
  {
    var c := slot.0;
    var i :| 0 <= i < |s.queue| && s.queue[i].chan == c;
    assert s.queue[i] in s.queue && slot == (c, slot.1);
    assert t.queue == s.queue && t.sems[c] == 1 && Listed(t, c) && slot in t.enabled && c in t.made;
    assert !ChannelSafe(t, c);
    RelinkEffect(t, again);
    var k, q := Position(s.queue, slot.0, slot.1), Step(t, again).0.queue;
    if k == |s.queue| {
      assert q[i].chan == c && q[|s.queue|].chan == c;
    }
  }
}
