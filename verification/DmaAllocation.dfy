/** Channel allocation in a DMA device, as values: which (channel, user) slot is held by which
    (hardware channel, peripheral) pair, and which channels have a semaphore. */
module DmaAllocation {
  import opened Common

  type Pair = (nat, nat)

  datatype Alloc = Alloc(owners: map<Slot, Pair>, sems: set<nat>)

  datatype Verdict = Granted(slot: Slot) | AlreadyOpen | MaxUserReached | MaxReached

  const EMPTY := Alloc(map[], {})

  /** First number from `i` below `n` that is not in `used`, or `n`. */
  function FirstFree(used: set<nat>, i: nat, n: nat): (k: nat)
    requires i <= n
    ensures i <= k <= n
    ensures k < n ==> k !in used
    ensures forall j | i <= j < k :: j in used
    decreases n - i
  {
    if i == n || i !in used then i else FirstFree(used, i + 1, n)
  }

  lemma FirstFreeIsUnique(used: set<nat>, k: nat, n: nat)
    requires k <= n && (forall j | 0 <= j < k :: j in used) && (k < n ==> k !in used)
    ensures FirstFree(used, 0, n) == k
  {
    var f := FirstFree(used, 0, n);
    assert f < n ==> f !in used;
  }

  ghost function Chans(owners: map<Slot, Pair>): set<nat> {
    set k | k in owners :: k.0
  }

  ghost function UsersAt(owners: map<Slot, Pair>, c: nat, m: nat): set<nat> {
    set u: nat | u < m && (c, u) in owners
  }

  /** Some slot of channel `c` is held for hardware channel `hw`. */
  ghost predicate Serves(owners: map<Slot, Pair>, c: nat, hw: nat) {
    exists k :: k in owners && k.0 == c && owners[k].0 == hw
  }

  /** Some slot is held for hardware channel `hw`. */
  ghost predicate Known(owners: map<Slot, Pair>, hw: nat) {
    exists k :: k in owners && owners[k].0 == hw
  }

  /** The lowest of `n` channels that serves hardware channel `hw`, or `n`. */
  ghost function ChanOf(owners: map<Slot, Pair>, n: nat, hw: nat): (c: nat)
    ensures c <= n
  {
    FirstFree(set c: nat | c < n && !Serves(owners, c, hw), 0, n)
  }

  /** Some slot of channel `c` is held for the pair. */
  ghost predicate HeldAt(owners: map<Slot, Pair>, c: nat, pair: Pair) {
    exists k :: k in owners && k.0 == c && owners[k] == pair
  }

  ghost predicate Held(owners: map<Slot, Pair>, pair: Pair) {
    exists k :: k in owners && owners[k] == pair
  }

  ghost predicate InRange(owners: map<Slot, Pair>, n: nat, m: nat) {
    forall k | k in owners :: k.0 < n && k.1 < m
  }

  /** The slots of a channel share one hardware id, and no two channels share one. */
  ghost predicate OneIdEach(owners: map<Slot, Pair>) {
    forall k, l | k in owners && l in owners :: k.0 == l.0 <==> owners[k].0 == owners[l].0
  }

  /** No (hardware channel, peripheral) pair is held twice. */
  ghost predicate NoPairTwice(owners: map<Slot, Pair>) {
    forall k, l | k in owners && l in owners && owners[k] == owners[l] :: k == l
  }

  /** A consistent table. */
  ghost predicate Ok(owners: map<Slot, Pair>, n: nat, m: nat) {
    InRange(owners, n, m) && OneIdEach(owners) && NoPairTwice(owners)
  }

  /** The slot an acquire for `hw` would take: the first free user slot of the channel that serves it, or slot 0 of the
      first channel without users. An index equal to its limit means that there is none. */
  ghost function SlotFor(owners: map<Slot, Pair>, n: nat, m: nat, hw: nat): Slot {
    var c := ChanOf(owners, n, hw);
    if Known(owners, hw) then (c, FirstFree(UsersAt(owners, c, m), 0, m)) else (FirstFree(Chans(owners), 0, n), 0)
  }

  /** The hardware id in a granted slot: `driverHw` once the driver was called, which it is not after a failed
      semaphore creation. */
  ghost function IdLeft(owners: map<Slot, Pair>, hw: nat, semOk: bool, driverHw: nat): nat {
    if Known(owners, hw) || semOk then driverHw else hw
  }

  /** Acquire on any table, consistent or not: the lowest channel serving the hardware id decides. */
  ghost function Acquire(a: Alloc, n: nat, m: nat, hw: nat, peri: nat, semOk: bool, driverHw: nat): (Alloc, Verdict) {
    var slot := SlotFor(a.owners, n, m, hw);
    if Known(a.owners, hw) && HeldAt(a.owners, slot.0, (hw, peri)) then (a, AlreadyOpen)
    else if Known(a.owners, hw) && slot.1 == m then (a, MaxUserReached)
    else if !Known(a.owners, hw) && slot.0 == n then (a, MaxReached)
    else
      (Alloc(a.owners[slot := (IdLeft(a.owners, hw, semOk, driverHw), peri)],
             if !Known(a.owners, hw) && semOk then a.sems + {slot.0} else a.sems),
       Granted(slot))
  }

  /** Release of a slot: the slot is free afterwards, held or not, and a channel without users loses its semaphore. */
  ghost function Release(a: Alloc, slot: Slot): Alloc {
    var owners := a.owners - {slot};
    Alloc(owners, if slot.0 in Chans(owners) then a.sems else a.sems - {slot.0})
  }

  lemma InChans(owners: map<Slot, Pair>, k: Slot)
    requires k in owners
    ensures k.0 in Chans(owners)
  {
  }

  lemma ChanOfIsFirst(owners: map<Slot, Pair>, n: nat, m: nat, hw: nat)
    requires InRange(owners, n, m)
    ensures var c := ChanOf(owners, n, hw);
            && (Known(owners, hw) <==> c < n)
            && (c < n ==> Serves(owners, c, hw))
            && (forall d: nat | d < c :: !Serves(owners, d, hw))
  {
    var others := set c: nat | c < n && !Serves(owners, c, hw);
    var c := ChanOf(owners, n, hw);
    forall d: nat | d < c ensures !Serves(owners, d, hw) {
      assert d in others;
    }
    if c < n {
      assert c !in others;
      var k :| k in owners && k.0 == c && owners[k].0 == hw;
    }
    assert forall k | k in owners && owners[k].0 == hw :: Serves(owners, k.0, hw);
  }

  /** The slot an acquire takes is free and in range: the first free one of the lowest channel of that hardware id if
      there is one, else the first of the lowest channel without users. */
  lemma SlotIsFresh(owners: map<Slot, Pair>, n: nat, m: nat, hw: nat)
    requires InRange(owners, n, m) && 0 < m
    ensures var slot := SlotFor(owners, n, m, hw);
            && slot.0 <= n && slot.1 <= m && slot !in owners
            && (if Known(owners, hw) then slot.0 < n && Serves(owners, slot.0, hw) && slot.0 in Chans(owners)
                else slot.1 == 0 && slot.0 !in Chans(owners))
            && (forall c: nat | c < slot.0 :: if Known(owners, hw) then !Serves(owners, c, hw) else c in Chans(owners))
            && (forall u: nat | u < slot.1 :: (slot.0, u) in owners)
  {
    var slot := SlotFor(owners, n, m, hw);
    ChanOfIsFirst(owners, n, m, hw);
    if Known(owners, hw) {
      var k :| k in owners && k.0 == slot.0 && owners[k].0 == hw;
      InChans(owners, k);
      assert slot in owners ==> slot.1 in UsersAt(owners, slot.0, m);
      forall u: nat | u < slot.1 ensures (slot.0, u) in owners {
        assert u in UsersAt(owners, slot.0, m);
      }
    } else {
      assert slot.0 in Chans(owners) ==> exists k :: k in owners && k.0 == slot.0;
      assert slot in owners ==> slot.0 in Chans(owners);
    }
  }

  /** On a consistent table the channel that decides is the only one serving the id, so the early exit loses nothing. */
  lemma OneChannelDecides(owners: map<Slot, Pair>, n: nat, m: nat, pair: Pair)
    requires Ok(owners, n, m)
    ensures Known(owners, pair.0) && HeldAt(owners, ChanOf(owners, n, pair.0), pair) <==> Held(owners, pair)
  {
    ChanOfIsFirst(owners, n, m, pair.0);
    if k :| k in owners && owners[k] == pair {
      assert Known(owners, pair.0);
      var c := ChanOf(owners, n, pair.0);
      var l :| l in owners && l.0 == c && owners[l].0 == pair.0;
      assert k.0 == l.0;
    }
  }

  /** What a new slot does to each part of consistency. */
  lemma AddSlot(owners: map<Slot, Pair>, slot: Slot, pair: Pair)
    requires slot !in owners
    ensures var after := owners[slot := pair];
            && (OneIdEach(after) <==>
                  OneIdEach(owners) && forall k | k in owners :: k.0 == slot.0 <==> owners[k].0 == pair.0)
            && (NoPairTwice(after) <==> NoPairTwice(owners) && !Held(owners, pair))
  {
    var after := owners[slot := pair];
    assert slot in after && after[slot] == pair;
    assert forall k | k in owners :: k in after && after[k] == owners[k] && k != slot;
    if OneIdEach(after) {
      forall k, l | k in owners && l in owners ensures k.0 == l.0 <==> owners[k].0 == owners[l].0 {
        assert after[k] == owners[k] && after[l] == owners[l];
      }
      forall k | k in owners ensures k.0 == slot.0 <==> owners[k].0 == pair.0 {
        assert after[k] == owners[k];
      }
    }
    if NoPairTwice(after) {
      forall k, l | k in owners && l in owners && owners[k] == owners[l] ensures k == l {
        assert after[k] == after[l];
      }
      assert forall k | k in owners :: after[k] != after[slot];
    }
  }

  lemma AddInRange(owners: map<Slot, Pair>, n: nat, m: nat, slot: Slot, pair: Pair)
    requires InRange(owners, n, m) && slot.0 < n && slot.1 < m
    ensures InRange(owners[slot := pair], n, m)
  {
  }

  /** A new user on a served channel. */
  lemma AddUser(owners: map<Slot, Pair>, n: nat, m: nat, slot: Slot, hw: nat, id: nat, peri: nat)
    requires Ok(owners, n, m) && slot !in owners && slot.0 < n && slot.1 < m
    requires Serves(owners, slot.0, hw) && !Held(owners, (hw, peri))
    ensures Ok(owners[slot := (id, peri)], n, m) <==> id == hw
  {
    AddSlot(owners, slot, (id, peri));
    AddInRange(owners, n, m, slot, (id, peri));
    var k :| k in owners && k.0 == slot.0 && owners[k].0 == hw;
    if id == hw {
      forall l | l in owners ensures l.0 == slot.0 <==> owners[l].0 == id {
        assert l.0 == k.0 <==> owners[l].0 == owners[k].0;
      }
    }
  }

  /** The first user of an unused channel. */
  lemma AddChannel(owners: map<Slot, Pair>, n: nat, m: nat, slot: Slot, id: nat, peri: nat)
    requires Ok(owners, n, m) && slot.0 < n && slot.1 < m && slot.0 !in Chans(owners)
    ensures Ok(owners[slot := (id, peri)], n, m) <==> !Known(owners, id)
  {
    forall k | k in owners ensures k.0 != slot.0 {
      InChans(owners, k);
    }
    AddSlot(owners, slot, (id, peri));
    AddInRange(owners, n, m, slot, (id, peri));
    if k :| k in owners && owners[k] == (id, peri) {
      assert Known(owners, id);
    }
    if k :| k in owners && owners[k].0 == id {
      assert k.0 != slot.0;
    }
  }

  /** The id left behind by a grant is the requested one, or is new on a fresh channel. */
  ghost predicate KeepsIds(owners: map<Slot, Pair>, hw: nat, id: nat) {
    id == hw || (!Known(owners, hw) && !Known(owners, id))
  }

  /** A grant keeps the table consistent exactly when the driver leaves the requested hardware id in the slot, or
      a fresh channel receives an id that no other channel carries. */
  lemma GrantKeepsOk(a: Alloc, n: nat, m: nat, hw: nat, peri: nat, semOk: bool, driverHw: nat)
    requires Ok(a.owners, n, m) && 0 < m
    requires Acquire(a, n, m, hw, peri, semOk, driverHw).1.Granted?
    ensures Ok(Acquire(a, n, m, hw, peri, semOk, driverHw).0.owners, n, m) <==>
            KeepsIds(a.owners, hw, IdLeft(a.owners, hw, semOk, driverHw))
  {
    SlotIsFresh(a.owners, n, m, hw);
    OneChannelDecides(a.owners, n, m, (hw, peri));
    var slot := SlotFor(a.owners, n, m, hw);
    if Known(a.owners, hw) {
      AddUser(a.owners, n, m, slot, hw, driverHw, peri);
    } else {
      AddChannel(a.owners, n, m, slot, IdLeft(a.owners, hw, semOk, driverHw), peri);
    }
  }

  /** An acquire changes nothing unless it is granted, and then only the slot it grants and the semaphore of a fresh
      channel; which of the four answers it gives depends on the table alone. */
  lemma AcquireIsExact(a: Alloc, n: nat, m: nat, hw: nat, peri: nat, semOk: bool, driverHw: nat)
    requires InRange(a.owners, n, m) && 0 < m
    ensures var (b, v) := Acquire(a, n, m, hw, peri, semOk, driverHw);
            && (!v.Granted? ==> b == a)
            && (v.Granted? ==>
                  && v.slot.0 < n && v.slot.1 < m && v.slot !in a.owners
                  && b.owners.Keys == a.owners.Keys + {v.slot}
                  && (forall k | k in a.owners :: b.owners[k] == a.owners[k])
                  && b.owners[v.slot] == (if v.slot.0 in Chans(a.owners) || semOk then driverHw else hw, peri)
                  && b.sems == (if v.slot.0 in Chans(a.owners) || !semOk then a.sems else a.sems + {v.slot.0}))
            && (v == AlreadyOpen <==> Known(a.owners, hw) && HeldAt(a.owners, ChanOf(a.owners, n, hw), (hw, peri)))
  {
    SlotIsFresh(a.owners, n, m, hw);
  }

  /** A release frees its slot and leaves every other one; the semaphore of its channel goes with the last user. */
  lemma ReleaseIsExact(a: Alloc, slot: Slot)
    ensures var b := Release(a, slot);
            && b.owners.Keys == a.owners.Keys - {slot} && (forall k | k in b.owners :: b.owners[k] == a.owners[k])
            && (forall c :: c in b.sems <==>
                  c in a.sems && (c != slot.0 || exists k :: k in a.owners && k != slot && k.0 == slot.0))
  {
    var owners := a.owners - {slot};
    if slot.0 in Chans(owners) {
      var k :| k in owners && k.0 == slot.0;
      assert k in a.owners && k != slot;
    }
    if k :| k in a.owners && k != slot && k.0 == slot.0 {
      InChans(owners, k);
    }
  }

  /** Releasing any slot, held or idle, keeps the table consistent. */
  lemma ReleaseKeepsOk(a: Alloc, n: nat, m: nat, slot: Slot)
    requires Ok(a.owners, n, m)
    ensures Ok(Release(a, slot).owners, n, m)
  {
    var after := a.owners - {slot};
    assert forall k | k in after :: k in a.owners && after[k] == a.owners[k];
  }

  lemma AcquireInRange(a: Alloc, n: nat, m: nat, hw: nat, peri: nat, semOk: bool, driverHw: nat)
    requires InRange(a.owners, n, m) && 0 < m
    ensures InRange(Acquire(a, n, m, hw, peri, semOk, driverHw).0.owners, n, m)
  {
    var (b, v) := Acquire(a, n, m, hw, peri, semOk, driverHw);
    SlotIsFresh(a.owners, n, m, hw);
    if v.Granted? {
      AddInRange(a.owners, n, m, v.slot, b.owners[v.slot]);
    }
  }

  // ----- the simple view: the relation between hardware channels and the peripherals they serve -----

  ghost function Simple(owners: map<Slot, Pair>): set<Pair> {
    set k | k in owners :: owners[k]
  }

  /** The peripherals a hardware channel serves. */
  ghost function PeriphsOf(t: set<Pair>, hw: nat): set<nat> {
    set p | p in t && p.0 == hw :: p.1
  }

  /** The hardware channels that serve some peripheral. */
  ghost function Ids(t: set<Pair>): set<nat> {
    set p | p in t :: p.0
  }

  datatype Answer = Yes | PairTaken | ChannelFull | DeviceFull

  /** The verdict on the simple view: by membership and cardinality alone. */
  ghost function SimpleVerdict(t: set<Pair>, n: nat, m: nat, hw: nat, peri: nat): Answer {
    if (hw, peri) in t then PairTaken
    else if hw in Ids(t) then if |PeriphsOf(t, hw)| == m then ChannelFull else Yes
    else if |Ids(t)| == n then DeviceFull else Yes
  }

  lemma {:induction false} ImageSize<A, B>(s: set<A>, f: map<A, B>, t: set<B>)
    requires s <= f.Keys && (forall x, y | x in s && y in s && f[x] == f[y] :: x == y)
    requires t == set x | x in s :: f[x]
    ensures |t| == |s|
  {
    if s == {} {
      assert t == {};
    } else {
      var x :| x in s;
      ImageSize(s - {x}, f, t - {f[x]});
    }
  }

  lemma {:induction false} FullRange(s: set<nat>, n: nat)
    requires forall i | i in s :: i < n
    ensures |s| <= n
    ensures |s| == n <==> FirstFree(s, 0, n) == n
  {
    if n > 0 {
      var t := s - {n - 1};
      FullRange(t, n - 1);
      var k := FirstFree(s, 0, n);
      if k == n {
        assert n - 1 in s;
        assert FirstFree(t, 0, n - 1) == n - 1;
      } else if n - 1 in s {
        assert FirstFree(t, 0, n - 1) < n - 1;
      }
    } else {
      assert s == {};
    }
  }

  /** Users of a channel and peripherals of its hardware id are equally many. */
  lemma UsersArePeriphs(owners: map<Slot, Pair>, n: nat, m: nat, c: nat, hw: nat)
    requires Ok(owners, n, m) && Serves(owners, c, hw)
    ensures |UsersAt(owners, c, m)| == |PeriphsOf(Simple(owners), hw)|
  {
    var s := UsersAt(owners, c, m);
    var t := PeriphsOf(Simple(owners), hw);
    var f := map u | u in s :: owners[(c, u)].1;
    forall p | p in t ensures exists u :: u in s && f[u] == p {
      var k :| k in owners && owners[k] == (hw, p);
      assert k == (c, k.1) && k.1 in s;
    }
    forall u | u in s ensures f[u] in t {
      assert owners[(c, u)] in Simple(owners);
    }
    ImageSize(s, f, t);
  }

  /** The hardware id of a channel in use. */
  ghost function IdOf(owners: map<Slot, Pair>, c: nat): nat
    requires c in Chans(owners)
  {
    var k :| k in owners && k.0 == c;
    owners[k].0
  }

  lemma IdOfSlot(owners: map<Slot, Pair>, k: Slot)
    requires OneIdEach(owners) && k in owners
    ensures k.0 in Chans(owners) && IdOf(owners, k.0) == owners[k].0
  {
    InChans(owners, k);
    var l :| l in owners && l.0 == k.0 && IdOf(owners, k.0) == owners[l].0;
  }

  lemma IdsAreImage(owners: map<Slot, Pair>, hw: nat)
    requires OneIdEach(owners)
    ensures hw in Ids(Simple(owners)) <==> exists c :: c in Chans(owners) && IdOf(owners, c) == hw
  {
    if hw in Ids(Simple(owners)) {
      var k :| k in owners && owners[k].0 == hw;
      IdOfSlot(owners, k);
    }
    if c :| c in Chans(owners) && IdOf(owners, c) == hw {
      var k :| k in owners && k.0 == c;
      IdOfSlot(owners, k);
      assert owners[k] in Simple(owners);
    }
  }

  lemma IdsDiffer(owners: map<Slot, Pair>, c: nat, d: nat)
    requires OneIdEach(owners) && c in Chans(owners) && d in Chans(owners) && IdOf(owners, c) == IdOf(owners, d)
    ensures c == d
  {
    var k :| k in owners && k.0 == c;
    var l :| l in owners && l.0 == d;
    IdOfSlot(owners, k);
    IdOfSlot(owners, l);
  }

  /** Channels in use and hardware ids in use are equally many. */
  lemma ChannelsAreIds(owners: map<Slot, Pair>)
    requires OneIdEach(owners)
    ensures |Chans(owners)| == |Ids(Simple(owners))|
  {
    var f := map c | c in Chans(owners) :: IdOf(owners, c);
    var t := Ids(Simple(owners));
    forall hw ensures hw in t <==> exists c :: c in Chans(owners) && f[c] == hw {
      IdsAreImage(owners, hw);
    }
    forall c, d | c in Chans(owners) && d in Chans(owners) && f[c] == f[d] ensures c == d {
      IdsDiffer(owners, c, d);
    }
    ImageSize(Chans(owners), f, t);
  }

  ghost function AnswerOf(v: Verdict): Answer {
    match v
    case Granted(_) => Yes
    case AlreadyOpen => PairTaken
    case MaxUserReached => ChannelFull
    case MaxReached => DeviceFull
  }

  lemma KnownIsId(owners: map<Slot, Pair>, hw: nat)
    ensures Known(owners, hw) <==> hw in Ids(Simple(owners))
  {
    if k :| k in owners && owners[k].0 == hw {
      assert owners[k] in Simple(owners);
    }
  }

  /** The allocator refines the simple view: the slot scan answers exactly as membership and cardinality do, and a
      grant adds exactly the pair with the id left in the slot. */
  lemma AcquireRefinesSimple(a: Alloc, n: nat, m: nat, hw: nat, peri: nat, semOk: bool, driverHw: nat)
    requires Ok(a.owners, n, m) && 0 < m
    ensures var (b, v) := Acquire(a, n, m, hw, peri, semOk, driverHw);
            var t := Simple(a.owners);
            && AnswerOf(v) == SimpleVerdict(t, n, m, hw, peri)
            && Simple(b.owners) == if v.Granted? then t + {(IdLeft(a.owners, hw, semOk, driverHw), peri)} else t
  {
    var slot := SlotFor(a.owners, n, m, hw);
    SlotIsFresh(a.owners, n, m, hw);
    OneChannelDecides(a.owners, n, m, (hw, peri));
    KnownIsId(a.owners, hw);
    assert Held(a.owners, (hw, peri)) <==> (hw, peri) in Simple(a.owners);
    if Known(a.owners, hw) {
      UsersArePeriphs(a.owners, n, m, slot.0, hw);
      FullRange(UsersAt(a.owners, slot.0, m), m);
    } else {
      ChannelsAreIds(a.owners);
      FullRange(Chans(a.owners), n);
    }
    GrantedView(a.owners, slot, (IdLeft(a.owners, hw, semOk, driverHw), peri));
  }

  lemma GrantedView(owners: map<Slot, Pair>, slot: Slot, pair: Pair)
    requires slot !in owners
    ensures Simple(owners[slot := pair]) == Simple(owners) + {pair}
  {
    var after := owners[slot := pair];
    assert after[slot] == pair;
    assert forall k | k in owners :: k in after && after[k] == owners[k];
  }

  /** Releasing a held slot removes exactly its pair from the simple view; releasing an idle slot changes nothing. */
  lemma ReleaseRefinesSimple(a: Alloc, n: nat, m: nat, slot: Slot)
    requires Ok(a.owners, n, m)
    ensures slot !in a.owners ==> Release(a, slot).owners == a.owners
    ensures slot in a.owners ==> Simple(Release(a, slot).owners) == Simple(a.owners) - {a.owners[slot]}
  {
    if slot in a.owners {
      RemovedView(a.owners, slot);
    }
  }

  lemma RemovedView(owners: map<Slot, Pair>, slot: Slot)
    requires NoPairTwice(owners) && slot in owners
    ensures Simple(owners - {slot}) == Simple(owners) - {owners[slot]}
  {
    var after := owners - {slot};
    forall k | k in after ensures owners[k] == after[k] != owners[slot] {
      assert k in owners && k != slot;
    }
    forall p | p in Simple(owners) && p != owners[slot] ensures p in Simple(after) {
      var k :| k in owners && owners[k] == p;
      assert k in after && after[k] == p;
    }
  }

  // ----- runs -----

  datatype Op = AcquireOp(hw: nat, peri: nat, semOk: bool, driverHw: nat) | ReleaseOp(slot: Slot)

  ghost function Apply(a: Alloc, n: nat, m: nat, op: Op): Alloc {
    match op
    case AcquireOp(hw, peri, semOk, driverHw) => Acquire(a, n, m, hw, peri, semOk, driverHw).0
    case ReleaseOp(slot) => Release(a, slot)
  }

  ghost function Run(a: Alloc, n: nat, m: nat, ops: seq<Op>): Alloc
    decreases ops
  {
    if ops == [] then a else Run(Apply(a, n, m, ops[0]), n, m, ops[1..])
  }

  /** The guard of an operation: a grant leaves an id that the table can take. */
  ghost predicate Guard(a: Alloc, n: nat, m: nat, op: Op) {
    op.AcquireOp? && Acquire(a, n, m, op.hw, op.peri, op.semOk, op.driverHw).1.Granted? ==>
      KeepsIds(a.owners, op.hw, IdLeft(a.owners, op.hw, op.semOk, op.driverHw))
  }

  ghost predicate Guarded(a: Alloc, n: nat, m: nat, ops: seq<Op>)
    decreases ops
  {
    ops == [] || (Guard(a, n, m, ops[0]) && Guarded(Apply(a, n, m, ops[0]), n, m, ops[1..]))
  }

  /** The table is consistent before, between and after the operations. */
  ghost predicate AlwaysOk(a: Alloc, n: nat, m: nat, ops: seq<Op>)
    decreases ops
  {
    Ok(a.owners, n, m) && (ops == [] || AlwaysOk(Apply(a, n, m, ops[0]), n, m, ops[1..]))
  }

  /** One operation keeps the table consistent exactly when it meets its guard. */
  lemma StepKeepsOk(a: Alloc, n: nat, m: nat, op: Op)
    requires Ok(a.owners, n, m) && 0 < m
    ensures Ok(Apply(a, n, m, op).owners, n, m) <==> Guard(a, n, m, op)
  {
    match op
    case AcquireOp(hw, peri, semOk, driverHw) =>
      if Acquire(a, n, m, hw, peri, semOk, driverHw).1.Granted? {
        GrantKeepsOk(a, n, m, hw, peri, semOk, driverHw);
      }
    case ReleaseOp(slot) => ReleaseKeepsOk(a, n, m, slot);
  }

  /** Every run of acquires and releases, with failed OS and driver calls, repeated releases and drivers that rewrite
      ids: the table is consistent throughout if and only if every grant meets its guard. */
  lemma {:induction false} EveryRunIsConsistent(a: Alloc, n: nat, m: nat, ops: seq<Op>)
    requires Ok(a.owners, n, m) && 0 < m
    ensures AlwaysOk(a, n, m, ops) <==> Guarded(a, n, m, ops)
    ensures Guarded(a, n, m, ops) ==> Ok(Run(a, n, m, ops).owners, n, m)
    decreases ops
  {
    if ops != [] {
      StepKeepsOk(a, n, m, ops[0]);
      var b := Apply(a, n, m, ops[0]);
      if Ok(b.owners, n, m) {
        EveryRunIsConsistent(b, n, m, ops[1..]);
      }
    }
  }

  // ----- semaphores -----

  /** The channels with a semaphore are among the channels in use in every run, and are exactly those while semaphore
      creation succeeds. */
  lemma {:induction false} SemaphoresFollowChannels(a: Alloc, n: nat, m: nat, ops: seq<Op>)
    requires InRange(a.owners, n, m) && 0 < m && a.sems <= Chans(a.owners)
    ensures Run(a, n, m, ops).sems <= Chans(Run(a, n, m, ops).owners)
    ensures a.sems == Chans(a.owners) && (forall op | op in ops && op.AcquireOp? :: op.semOk) ==>
              Run(a, n, m, ops).sems == Chans(Run(a, n, m, ops).owners)
    decreases ops
  {
    if ops != [] {
      match ops[0] {
        case AcquireOp(hw, peri, semOk, driverHw) =>
          AcquireSemaphores(a, n, m, hw, peri, semOk, driverHw);
          AcquireInRange(a, n, m, hw, peri, semOk, driverHw);
        case ReleaseOp(slot) =>
          ReleaseSemaphores(a, slot);
      }
      SemaphoresFollowChannels(Apply(a, n, m, ops[0]), n, m, ops[1..]);
    }
  }

  lemma ChansOfGrant(owners: map<Slot, Pair>, slot: Slot, pair: Pair)
    ensures Chans(owners[slot := pair]) == Chans(owners) + {slot.0}
  {
    var after := owners[slot := pair];
    InChans(after, slot);
    forall k | k in owners ensures k.0 in Chans(after) {
      InChans(after, k);
    }
  }

  lemma ChansOfRelease(owners: map<Slot, Pair>, slot: Slot)
    ensures Chans(owners - {slot}) <= Chans(owners)
    ensures Chans(owners) - {slot.0} == Chans(owners - {slot}) - {slot.0}
  {
    var after := owners - {slot};
    forall k | k in owners && k.0 != slot.0 ensures k.0 in Chans(after) {
      InChans(after, k);
    }
    forall k | k in after ensures k.0 in Chans(owners) {
      InChans(owners, k);
    }
  }

  lemma AcquireSemaphores(a: Alloc, n: nat, m: nat, hw: nat, peri: nat, semOk: bool, driverHw: nat)
    requires InRange(a.owners, n, m) && 0 < m && a.sems <= Chans(a.owners)
    ensures var b := Acquire(a, n, m, hw, peri, semOk, driverHw).0;
            b.sems <= Chans(b.owners) && (semOk && a.sems == Chans(a.owners) ==> b.sems == Chans(b.owners))
  {
    var (b, v) := Acquire(a, n, m, hw, peri, semOk, driverHw);
    if v.Granted? {
      SlotIsFresh(a.owners, n, m, hw);
      ChansOfGrant(a.owners, v.slot, b.owners[v.slot]);
    }
  }

  lemma ReleaseSemaphores(a: Alloc, slot: Slot)
    requires a.sems <= Chans(a.owners)
    ensures var b := Release(a, slot);
            b.sems <= Chans(b.owners) && (a.sems == Chans(a.owners) ==> b.sems == Chans(b.owners))
  {
    ChansOfRelease(a.owners, slot);
  }

  /** A grant followed by the release of the granted slot restores owners and semaphores, whatever the driver did. */
  lemma AcquireThenRelease(a: Alloc, n: nat, m: nat, hw: nat, peri: nat, semOk: bool, driverHw: nat)
    requires InRange(a.owners, n, m) && 0 < m && a.sems <= Chans(a.owners)
    ensures var (b, v) := Acquire(a, n, m, hw, peri, semOk, driverHw);
            v.Granted? ==> Release(b, v.slot) == a
  {
    var (b, v) := Acquire(a, n, m, hw, peri, semOk, driverHw);
    if v.Granted? {
      SlotIsFresh(a.owners, n, m, hw);
      assert b.owners - {v.slot} == a.owners;
    }
  }

  // ----- failed acquires and the driver that rewrites ids -----

  lemma KnownAfter(owners: map<Slot, Pair>, slot: Slot, pair: Pair, hw: nat)
    requires slot !in owners
    ensures Known(owners[slot := pair], hw) <==> Known(owners, hw) || pair.0 == hw
  {
    var after := owners[slot := pair];
    assert after[slot] == pair;
    if k :| k in owners && owners[k].0 == hw {
      assert k in after && after[k] == owners[k];
    }
    if k :| k in after && after[k].0 == hw && k != slot {
      assert k in owners && after[k] == owners[k];
    }
  }

  lemma ServesAfter(owners: map<Slot, Pair>, slot: Slot, pair: Pair, c: nat, hw: nat)
    requires slot !in owners
    ensures Serves(owners[slot := pair], c, hw) <==> Serves(owners, c, hw) || (c == slot.0 && pair.0 == hw)
  {
    var after := owners[slot := pair];
    assert after[slot] == pair;
    if k :| k in owners && k.0 == c && owners[k].0 == hw {
      assert k in after && after[k] == owners[k];
    }
    if k :| k in after && k.0 == c && after[k].0 == hw && k != slot {
      assert k in owners && after[k] == owners[k];
    }
  }

  lemma HeldAfter(owners: map<Slot, Pair>, slot: Slot, pair: Pair, c: nat, p: Pair)
    requires slot !in owners
    ensures HeldAt(owners[slot := pair], c, p) <==> HeldAt(owners, c, p) || (c == slot.0 && p == pair)
  {
    var after := owners[slot := pair];
    assert after[slot] == pair;
    if k :| k in owners && k.0 == c && owners[k] == p {
      assert k in after && after[k] == owners[k];
    }
    if k :| k in after && k.0 == c && after[k] == p && k != slot {
      assert k in owners && after[k] == owners[k];
    }
  }

  /** A caller that repeats an acquire, after a success or a failure of the OS or driver call, is refused as already
      open if and only if the requested id was left in the slot: a failed acquire keeps its slot either way. */
  lemma FailedAcquireKeepsSlot(a: Alloc, n: nat, m: nat, hw: nat, peri: nat, semOk: bool, driverHw: nat, op: Op)
    requires InRange(a.owners, n, m) && 0 < m && op.AcquireOp? && op.hw == hw && op.peri == peri
    ensures var (b, v) := Acquire(a, n, m, hw, peri, semOk, driverHw);
            v.Granted? ==>
              && v.slot in b.owners
              && (Acquire(b, n, m, hw, peri, op.semOk, op.driverHw).1 == AlreadyOpen <==>
                    IdLeft(a.owners, hw, semOk, driverHw) == hw)
  {
    var (b, v) := Acquire(a, n, m, hw, peri, semOk, driverHw);
    if v.Granted? {
      SlotIsFresh(a.owners, n, m, hw);
      AcquireInRange(a, n, m, hw, peri, semOk, driverHw);
      KnownAfter(a.owners, v.slot, b.owners[v.slot], hw);
      HeldAfter(a.owners, v.slot, b.owners[v.slot], v.slot.0, (hw, peri));
      if Known(b.owners, hw) {
        ChannelAfter(a.owners, n, m, v.slot, b.owners[v.slot], hw);
        NotHeldBefore(a, n, m, hw, peri, semOk, driverHw);
      }
    }
  }

  lemma NotHeldBefore(a: Alloc, n: nat, m: nat, hw: nat, peri: nat, semOk: bool, driverHw: nat)
    requires InRange(a.owners, n, m) && 0 < m
    ensures var v := Acquire(a, n, m, hw, peri, semOk, driverHw).1;
            v.Granted? ==> !HeldAt(a.owners, v.slot.0, (hw, peri))
  {
    SlotIsFresh(a.owners, n, m, hw);
    if !Known(a.owners, hw) {
      assert forall k | k in a.owners :: a.owners[k].0 != hw;
    }
  }

  /** The channel that serves an id does not change when the slot chosen for it is filled. */
  lemma ChannelAfter(owners: map<Slot, Pair>, n: nat, m: nat, slot: Slot, pair: Pair, hw: nat)
    requires InRange(owners, n, m) && slot !in owners && slot.0 < n && slot.1 < m
    requires if Known(owners, hw) then slot.0 == ChanOf(owners, n, hw) else pair.0 == hw
    ensures ChanOf(owners[slot := pair], n, hw) == slot.0
  {
    var after := owners[slot := pair];
    var c := ChanOf(after, n, hw);
    ChanOfIsFirst(owners, n, m, hw);
    AddInRange(owners, n, m, slot, pair);
    ChanOfIsFirst(after, n, m, hw);
    KnownAfter(owners, slot, pair, hw);
    ServesAfter(owners, slot, pair, slot.0, hw);
    ServesAfter(owners, slot, pair, c, hw);
    assert Serves(after, slot.0, hw);
    assert Serves(owners, c, hw) ==> Known(owners, hw);
  }

  /** Every slot carries the id `dev`. */
  ghost predicate AllAre(owners: map<Slot, Pair>, dev: nat) {
    forall k | k in owners :: owners[k].0 == dev
  }

  /** A table with one id only is consistent if and only if all its slots are on one channel and no peripheral occurs
      twice. */
  lemma OneIdTable(owners: map<Slot, Pair>, n: nat, m: nat, dev: nat)
    requires InRange(owners, n, m) && AllAre(owners, dev)
    ensures Ok(owners, n, m) <==> (forall k, l | k in owners && l in owners :: k.0 == l.0) && NoPairTwice(owners)
  {
  }

  /** An acquire of an id other than `dev` through a driver that stores `dev`, on any table that such a driver left:
      it takes an unused channel if there is one, whether the same acquire was made before or not. */
  lemma LeakStep(a: Alloc, n: nat, m: nat, hw: nat, peri: nat, dev: nat, semOk: bool)
    requires InRange(a.owners, n, m) && 0 < m && AllAre(a.owners, dev) && hw != dev
    ensures var f := FirstFree(Chans(a.owners), 0, n);
            var (b, v) := Acquire(a, n, m, hw, peri, semOk, dev);
            if f == n then b == a && v == MaxReached
            else
              && v == Granted((f, 0)) && f !in Chans(a.owners) && Chans(b.owners) == Chans(a.owners) + {f}
              && InRange(b.owners, n, m) && (semOk ==> AllAre(b.owners, dev))
  {
    var f := FirstFree(Chans(a.owners), 0, n);
    assert !Known(a.owners, hw);
    AcquireInRange(a, n, m, hw, peri, semOk, dev);
    if f < n {
      ChansOfGrant(a.owners, (f, 0), (IdLeft(a.owners, hw, semOk, dev), peri));
    }
  }

  lemma ChannelCount(owners: map<Slot, Pair>, n: nat, m: nat)
    requires InRange(owners, n, m)
    ensures |Chans(owners)| <= n && (|Chans(owners)| == n <==> FirstFree(Chans(owners), 0, n) == n)
  {
    FullRange(Chans(owners), n);
  }

  function Repeat<T>(x: T, k: nat): seq<T> {
    if k == 0 then [] else [x] + Repeat(x, k - 1)
  }

  lemma RunCons(a: Alloc, n: nat, m: nat, op: Op, k: nat)
    ensures Run(a, n, m, Repeat(op, k + 1)) == Run(Apply(a, n, m, op), n, m, Repeat(op, k))
  {
    assert Repeat(op, k + 1)[1..] == Repeat(op, k);
  }

  /** Such an acquire, repeated, takes one channel more each time until the device is full; with two channels taken the
      table is inconsistent. */
  lemma {:induction false} RetriesLeakChannels(a: Alloc, n: nat, m: nat, hw: nat, peri: nat, dev: nat, k: nat)
    requires InRange(a.owners, n, m) && 0 < m && AllAre(a.owners, dev) && hw != dev
    ensures var b := Run(a, n, m, Repeat(AcquireOp(hw, peri, true, dev), k));
            && InRange(b.owners, n, m) && AllAre(b.owners, dev)
            && |Chans(b.owners)| == (if |Chans(a.owners)| + k < n then |Chans(a.owners)| + k else n)
            && (|Chans(b.owners)| >= 2 ==> !Ok(b.owners, n, m))
    decreases k
  {
    ChannelCount(a.owners, n, m);
    if |Chans(a.owners)| >= 2 {
      TwoChannels(a.owners, n, m, dev);
    }
    if k > 0 {
      LeakStep(a, n, m, hw, peri, dev, true);
      RunCons(a, n, m, AcquireOp(hw, peri, true, dev), k - 1);
      RetriesLeakChannels(Acquire(a, n, m, hw, peri, true, dev).0, n, m, hw, peri, dev, k - 1);
    }
  }

  lemma TwoChannels(owners: map<Slot, Pair>, n: nat, m: nat, dev: nat)
    requires AllAre(owners, dev) && |Chans(owners)| >= 2
    ensures !Ok(owners, n, m)
  {
    var c :| c in Chans(owners);
    assert |Chans(owners) - {c}| >= 1;
    var d :| d in Chans(owners) - {c};
    var k :| k in owners && k.0 == c;
    var l :| l in owners && l.0 == d;
  }

  /** A slot that carries another id than `dev` is on a channel whose semaphore could not be created. */
  ghost predicate Tagged(a: Alloc, dev: nat) {
    forall k | k in a.owners :: a.owners[k].0 == dev || k.0 !in a.sems
  }

  lemma AcquireTagged(a: Alloc, n: nat, m: nat, hw: nat, peri: nat, semOk: bool, dev: nat)
    requires InRange(a.owners, n, m) && 0 < m && a.sems <= Chans(a.owners) && Tagged(a, dev)
    ensures Tagged(Acquire(a, n, m, hw, peri, semOk, dev).0, dev)
  {
    var (b, v) := Acquire(a, n, m, hw, peri, semOk, dev);
    if v.Granted? {
      SlotIsFresh(a.owners, n, m, hw);
      forall k | k in b.owners ensures b.owners[k].0 == dev || k.0 !in b.sems {
        if k != v.slot {
          assert b.owners[k] == a.owners[k];
          InChans(a.owners, k);
        }
      }
    }
  }

  lemma AcquireAllAre(a: Alloc, n: nat, m: nat, hw: nat, peri: nat, semOk: bool, dev: nat)
    requires AllAre(a.owners, dev) && (semOk || hw == dev)
    ensures AllAre(Acquire(a, n, m, hw, peri, semOk, dev).0.owners, dev)
  {
  }

  lemma ReleaseTagged(a: Alloc, slot: Slot, dev: nat)
    ensures Tagged(a, dev) ==> Tagged(Release(a, slot), dev)
    ensures AllAre(a.owners, dev) ==> AllAre(Release(a, slot).owners, dev)
  {
    assert forall k | k in a.owners - {slot} :: k in a.owners;
  }

  lemma StepInRange(a: Alloc, n: nat, m: nat, op: Op)
    requires InRange(a.owners, n, m) && 0 < m && a.sems <= Chans(a.owners)
    ensures var b := Apply(a, n, m, op); InRange(b.owners, n, m) && b.sems <= Chans(b.owners)
  {
    match op
    case AcquireOp(hw, peri, semOk, driverHw) =>
      AcquireInRange(a, n, m, hw, peri, semOk, driverHw);
      AcquireSemaphores(a, n, m, hw, peri, semOk, driverHw);
    case ReleaseOp(slot) => ReleaseSemaphores(a, slot);
  }

  lemma RewritingDriverStep(a: Alloc, n: nat, m: nat, dev: nat, op: Op)
    requires InRange(a.owners, n, m) && 0 < m && a.sems <= Chans(a.owners)
    requires op.AcquireOp? ==> op.driverHw == dev
    ensures Tagged(a, dev) ==> Tagged(Apply(a, n, m, op), dev)
    ensures AllAre(a.owners, dev) && (op.AcquireOp? ==> op.semOk || op.hw == dev) ==>
              AllAre(Apply(a, n, m, op).owners, dev)
    ensures Ok(a.owners, n, m) && (op.AcquireOp? ==> op.hw == dev) ==> Ok(Apply(a, n, m, op).owners, n, m)
  {
    match op
    case AcquireOp(hw, peri, semOk, driverHw) =>
      if Tagged(a, dev) {
        AcquireTagged(a, n, m, hw, peri, semOk, dev);
      }
      if AllAre(a.owners, dev) && (semOk || hw == dev) {
        AcquireAllAre(a, n, m, hw, peri, semOk, dev);
      }
      if Ok(a.owners, n, m) {
        StepKeepsOk(a, n, m, op);
      }
    case ReleaseOp(slot) =>
      ReleaseTagged(a, slot, dev);
      if Ok(a.owners, n, m) {
        ReleaseKeepsOk(a, n, m, slot);
      }
  }

  /** Every run through a driver that stores `dev`, with failures anywhere: only channels without a semaphore carry
      another id; none does while creation succeeds or callers ask for `dev`; and the table stays consistent while
      callers ask for `dev`. */
  lemma {:induction false} RewritingDriverRuns(a: Alloc, n: nat, m: nat, dev: nat, ops: seq<Op>)
    requires InRange(a.owners, n, m) && 0 < m && a.sems <= Chans(a.owners)
    requires forall op | op in ops && op.AcquireOp? :: op.driverHw == dev
    ensures Tagged(a, dev) ==> Tagged(Run(a, n, m, ops), dev)
    ensures AllAre(a.owners, dev) && (forall op | op in ops && op.AcquireOp? :: op.semOk || op.hw == dev) ==>
              AllAre(Run(a, n, m, ops).owners, dev)
    ensures Ok(a.owners, n, m) && (forall op | op in ops && op.AcquireOp? :: op.hw == dev) ==>
              Ok(Run(a, n, m, ops).owners, n, m)
    decreases ops
  {
    if ops != [] {
      RewritingDriverStep(a, n, m, dev, ops[0]);
      StepInRange(a, n, m, ops[0]);
      RewritingDriverRuns(Apply(a, n, m, ops[0]), n, m, dev, ops[1..]);
    }
  }
}
