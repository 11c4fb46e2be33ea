/** The table of open DMA devices, as values: reference counts over every run of opens and closes. */
module DmaDeviceTable {
  import opened Common

  /** `user_count` is a `UINT16`. */
  const COUNT: nat := 0x1_0000

  /** An open device: its control block (a fresh number for every allocation), its device id and its user count. */
  datatype Entry = Entry(block: nat, devId: nat, count: nat)

  type Table = seq<Option<Entry>>

  datatype Status = Success | InvalidPointer | InvalidHandle | DeviceNotFree | OsError

  /** Outcome of the OS calls that open a new device. */
  datatype Outcome = AllOk | DevOpenFails | AllocFails | EventsFail | CallbackFails

  predicate HasDev(e: Option<Entry>, devId: nat) { e.Some? && e.value.devId == devId }
  predicate HasBlock(e: Option<Entry>, block: nat) { e.Some? && e.value.block == block }

  function FindDev(t: Table, devId: nat): (k: nat)
    ensures k <= |t| && (k < |t| ==> HasDev(t[k], devId)) && forall j | 0 <= j < k :: !HasDev(t[j], devId)
  {
    if t == [] || HasDev(t[0], devId) then 0 else 1 + FindDev(t[1..], devId)
  }

  function FindBlock(t: Table, block: nat): (k: nat)
    ensures k <= |t| && (k < |t| ==> HasBlock(t[k], block)) && forall j | 0 <= j < k :: !HasBlock(t[j], block)
  {
    if t == [] || HasBlock(t[0], block) then 0 else 1 + FindBlock(t[1..], block)
  }

  function FindFree(t: Table): (k: nat)
    ensures k <= |t| && (k < |t| ==> t[k].None?) && forall j | 0 <= j < k :: t[j].Some?
  {
    if t == [] || t[0].None? then 0 else 1 + FindFree(t[1..])
  }

  /** The table, the next fresh block number, for every block its balance of successful opens minus successful closes,
      and the blocks whose first open failed after the allocation. */
  datatype State = State(table: Table, nextBlock: nat, balance: map<nat, int>, halfMade: set<nat>)

  /** Users of a block: its balance, and the failed open that made it. */
  function Users(s: State, block: nat): int {
    (if block in s.balance then s.balance[block] else 0) + (if block in s.halfMade then 1 else 0)
  }

  function Credit(balance: map<nat, int>, block: nat, n: int): map<nat, int> {
    balance[block := (if block in balance then balance[block] else 0) + n]
  }

  function Open(s: State, devId: nat, outcome: Outcome): (State, Status) {
    var k := FindDev(s.table, devId);
    if k < |s.table| then
      var e := s.table[k].value;
      (s.(table := s.table[k := Some(e.(count := (e.count + 1) % COUNT))],
          balance := Credit(s.balance, e.block, 1)), Success)
    else
      var f := FindFree(s.table);
      if f == |s.table| then (s, DeviceNotFree)
      else if outcome == DevOpenFails || outcome == AllocFails then (s, OsError)
      else
        var ok := outcome == AllOk;
        (State(s.table[f := Some(Entry(s.nextBlock, devId, 1))], s.nextBlock + 1,
               Credit(s.balance, s.nextBlock, if ok then 1 else 0),
               if ok then s.halfMade else s.halfMade + {s.nextBlock}),
         if ok then Success else OsError)
  }

  function Close(s: State, block: nat, closeOk: bool): (State, Status) {
    var k := FindBlock(s.table, block);
    if k == |s.table| then (s, InvalidHandle)
    else
      var e := s.table[k].value;
      if e.count != 1 then
        (s.(table := s.table[k := Some(e.(count := (e.count + COUNT - 1) % COUNT))],
            balance := Credit(s.balance, block, -1)), Success)
      else if closeOk then (s.(table := s.table[k := None], balance := Credit(s.balance, block, -1)), Success)
      else (s, OsError)
  }

  /** What an open returns and what it changes: one entry, the one of the device or the first free one, and nothing
      unless the device is open or a control block was allocated. */
  lemma OpenOutcome(s: State, devId: nat, outcome: Outcome)
    ensures var (t, status) := Open(s, devId, outcome);
            var isOpen := exists i :: 0 <= i < |s.table| && HasDev(s.table[i], devId);
            var room := exists i :: 0 <= i < |s.table| && s.table[i].None?;
            && (status == Success <==> isOpen || (room && outcome == AllOk))
            && (status == DeviceNotFree <==> !isOpen && !room)
            && (status == OsError <==> !isOpen && room && outcome != AllOk)
            && |t.table| == |s.table|
            && (forall i | 0 <= i < |s.table| && t.table[i] != s.table[i] ::
                  && HasDev(t.table[i], devId)
                  && (if isOpen then HasDev(s.table[i], devId) && t.table[i].value.block == s.table[i].value.block
                      else s.table[i].None? && (forall j | 0 <= j < i :: s.table[j].Some?) &&
                           t.table[i].value == Entry(s.nextBlock, devId, 1)))
  {
    var k, f := FindDev(s.table, devId), FindFree(s.table);
    assert k < |s.table| ==> HasDev(s.table[k], devId);
    assert f < |s.table| ==> s.table[f].None?;
  }

  /** What a close returns and what it changes: the entry of its block, which goes exactly with the last count. */
  lemma CloseOutcome(s: State, block: nat, closeOk: bool)
    ensures var (t, status) := Close(s, block, closeOk);
            var k := FindBlock(s.table, block);
            var isOpen := exists i :: 0 <= i < |s.table| && HasBlock(s.table[i], block);
            && (status == InvalidHandle <==> !isOpen) && (!isOpen ==> t == s)
            && (isOpen <==> k < |s.table|)
            && (isOpen ==>
                  && (status == OsError <==> s.table[k].value.count == 1 && !closeOk)
                  && (status == Success <==> s.table[k].value.count != 1 || closeOk)
                  && (t.table[k].None? <==> s.table[k].value.count == 1 && closeOk))
            && |t.table| == |s.table| && (forall i | 0 <= i < |s.table| && i != k :: t.table[i] == s.table[i])
  {
    var k := FindBlock(s.table, block);
    assert k < |s.table| ==> HasBlock(s.table[k], block);
  }

  datatype Op = OpenOp(devId: nat, outcome: Outcome) | CloseOp(block: nat, closeOk: bool)

  function Apply(s: State, op: Op): (State, Status) {
    match op
    case OpenOp(devId, outcome) => Open(s, devId, outcome)
    case CloseOp(block, closeOk) => Close(s, block, closeOk)
  }

  function Run(s: State, ops: seq<Op>): State
    decreases ops
  {
    if ops == [] then s else Run(Apply(s, ops[0]).0, ops[1..])
  }

  function Empty(n: nat): State {
    State(seq(n, i => None), 0, map[], {})
  }

  ghost predicate Live(s: State, block: nat) {
    exists k :: 0 <= k < |s.table| && HasBlock(s.table[k], block)
  }

  /** One entry a device id, one a block, and every count is the number of users of its block modulo 2^16. */
  ghost predicate Inv(s: State) {
    && (forall i, j | 0 <= i < j < |s.table| && s.table[i].Some? && s.table[j].Some? ::
          s.table[i].value.devId != s.table[j].value.devId && s.table[i].value.block != s.table[j].value.block)
    && (forall i | 0 <= i < |s.table| && s.table[i].Some? ::
          var e := s.table[i].value;
          e.block < s.nextBlock && e.block in s.balance && e.count == Users(s, e.block) % COUNT)
    && (forall b | b in s.balance || b in s.halfMade :: b < s.nextBlock)
  }

  /** A block is live exactly while it has users, and has no wrapped or negative number of them. */
  ghost predicate Exact(s: State) {
    forall b | b in s.balance :: 0 <= Users(s, b) < COUNT && (Live(s, b) <==> Users(s, b) > 0)
  }

  lemma CreditMod(n: int)
    ensures (n % COUNT + 1) % COUNT == (n + 1) % COUNT
    ensures (n % COUNT + COUNT - 1) % COUNT == (n - 1) % COUNT
  {
  }

  /** A user joins (`n == 1`) or leaves (`n == -1`) the device at position `k`. */
  lemma CountInv(s: State, k: nat, n: int, count: nat)
    requires Inv(s) && k < |s.table| && s.table[k].Some?
    requires var b := s.table[k].value.block; b in s.balance && count == (Users(s, b) + n) % COUNT
    ensures var e := s.table[k].value;
            Inv(s.(table := s.table[k := Some(e.(count := count))], balance := Credit(s.balance, e.block, n)))
  {
  }

  lemma OpenInv(s: State, devId: nat, outcome: Outcome)
    requires Inv(s)
    ensures Inv(Open(s, devId, outcome).0)
  {
    var k := FindDev(s.table, devId);
    if k < |s.table| {
      var e := s.table[k].value;
      CreditMod(Users(s, e.block));
      CountInv(s, k, 1, (e.count + 1) % COUNT);
    } else if FindFree(s.table) < |s.table| {
      NewInv(s, FindFree(s.table), devId, outcome == AllOk);
    }
  }

  lemma NewInv(s: State, f: nat, devId: nat, ok: bool)
    requires Inv(s) && f < |s.table| && forall i | 0 <= i < |s.table| :: !HasDev(s.table[i], devId)
    ensures Inv(State(s.table[f := Some(Entry(s.nextBlock, devId, 1))], s.nextBlock + 1,
                      Credit(s.balance, s.nextBlock, if ok then 1 else 0),
                      if ok then s.halfMade else s.halfMade + {s.nextBlock}))
  {
  }

  lemma CloseInv(s: State, block: nat, closeOk: bool)
    requires Inv(s)
    ensures Inv(Close(s, block, closeOk).0)
  {
    var k := FindBlock(s.table, block);
    if k < |s.table| {
      var e := s.table[k].value;
      CreditMod(Users(s, block));
      if e.count != 1 {
        CountInv(s, k, -1, (e.count + COUNT - 1) % COUNT);
      }
    }
  }

  lemma StepInv(s: State, op: Op)
    requires Inv(s)
    ensures Inv(Apply(s, op).0)
  {
    match op
    case OpenOp(devId, outcome) => OpenInv(s, devId, outcome);
    case CloseOp(block, closeOk) => CloseInv(s, block, closeOk);
  }

  /** Over every run of opens and closes, with OS calls failing anywhere: at most one entry a device id, and every user
      count is opens minus closes of its block, plus one if its first open failed half-way, modulo 2^16. */
  lemma {:induction false} EveryRunCounts(s: State, ops: seq<Op>)
    requires Inv(s)
    ensures Inv(Run(s, ops))
    decreases ops
  {
    if ops != [] {
      StepInv(s, ops[0]);
      EveryRunCounts(Apply(s, ops[0]).0, ops[1..]);
    }
  }

  /** No block ever has 2^16 users along the run. */
  ghost predicate NoWrap(s: State, ops: seq<Op>)
    decreases ops
  {
    && (forall b | b in s.balance :: Users(s, b) < COUNT)
    && (ops == [] || NoWrap(Apply(s, ops[0]).0, ops[1..]))
  }

  lemma LiveAfter(s: State, s': State, k: nat, b: nat)
    requires k < |s.table| == |s'.table| && (forall i | 0 <= i < |s.table| && i != k :: s'.table[i] == s.table[i])
    requires !HasBlock(s.table[k], b) && !HasBlock(s'.table[k], b)
    ensures Live(s', b) <==> Live(s, b)
  {
    if i :| 0 <= i < |s.table| && HasBlock(s.table[i], b) { assert HasBlock(s'.table[i], b); }
    if i :| 0 <= i < |s.table| && HasBlock(s'.table[i], b) { assert HasBlock(s.table[i], b); }
  }

  /** A step that touches only the entry at position `k`, of block `block`, and only that block's balance. */
  lemma EntryExact(s: State, s': State, k: nat, block: nat)
    requires Exact(s) && k < |s.table| == |s'.table|
    requires forall i | 0 <= i < |s.table| && i != k :: s'.table[i] == s.table[i]
    requires s.table[k].None? || HasBlock(s.table[k], block)
    requires s'.table[k].None? || HasBlock(s'.table[k], block)
    requires forall b | b in s'.balance && b != block :: b in s.balance && Users(s', b) == Users(s, b)
    requires block in s'.balance && 0 <= Users(s', block) < COUNT && (Live(s', block) <==> Users(s', block) > 0)
    ensures Exact(s')
  {
    forall b | b in s'.balance && b != block
      ensures Live(s', b) <==> Live(s, b)
    {
      LiveAfter(s, s', k, b);
    }
  }

  lemma OpenExact(s: State, devId: nat, outcome: Outcome)
    requires Inv(s) && Exact(s) && NoWrap(Open(s, devId, outcome).0, [])
    ensures Exact(Open(s, devId, outcome).0)
  {
    var s' := Open(s, devId, outcome).0;
    var k, f := FindDev(s.table, devId), FindFree(s.table);
    if k < |s.table| {
      var block := s.table[k].value.block;
      assert HasBlock(s.table[k], block) && Live(s, block) && HasBlock(s'.table[k], block);
      EntryExact(s, s', k, block);
    } else if f < |s.table| && s' != s {
      assert HasBlock(s'.table[f], s.nextBlock);
      EntryExact(s, s', f, s.nextBlock);
    }
  }

  /** A close that leaves other users. */
  lemma LeaveExact(s: State, block: nat, closeOk: bool)
    requires Inv(s) && Exact(s)
    requires var k := FindBlock(s.table, block); k < |s.table| && s.table[k].value.count != 1
    ensures Exact(Close(s, block, closeOk).0)
  {
    var s' := Close(s, block, closeOk).0;
    var k := FindBlock(s.table, block);
    assert HasBlock(s.table[k], block) && HasBlock(s'.table[k], block);
    assert Live(s, block) && Live(s', block) && block in s.balance;
    assert Users(s', block) == Users(s, block) - 1;
    EntryExact(s, s', k, block);
  }

  /** The close of the last user. */
  lemma FreeExact(s: State, block: nat)
    requires Inv(s) && Exact(s)
    requires var k := FindBlock(s.table, block); k < |s.table| && s.table[k].value.count == 1
    ensures Exact(Close(s, block, true).0)
  {
    var s' := Close(s, block, true).0;
    var k := FindBlock(s.table, block);
    assert HasBlock(s.table[k], block);
    assert Live(s, block) && block in s.balance;
    assert forall i | 0 <= i < |s'.table| :: !HasBlock(s'.table[i], block);
    assert Users(s', block) == Users(s, block) - 1;
    EntryExact(s, s', k, block);
  }

  lemma CloseExact(s: State, block: nat, closeOk: bool)
    requires Inv(s) && Exact(s)
    ensures Exact(Close(s, block, closeOk).0)
  {
    var k := FindBlock(s.table, block);
    if k < |s.table| && s.table[k].value.count != 1 {
      LeaveExact(s, block, closeOk);
    } else if k < |s.table| && closeOk {
      FreeExact(s, block);
    }
  }

  lemma StepExact(s: State, op: Op)
    requires Inv(s) && Exact(s) && NoWrap(Apply(s, op).0, [])
    ensures Exact(Apply(s, op).0)
  {
    match op
    case OpenOp(devId, outcome) => OpenExact(s, devId, outcome);
    case CloseOp(block, closeOk) => CloseExact(s, block, closeOk);
  }

  /** While no device gathers 2^16 users, a device is live exactly as long as some user has it open. */
  lemma {:induction false} LiveWhileUsed(s: State, ops: seq<Op>)
    requires Inv(s) && Exact(s) && NoWrap(s, ops)
    ensures Exact(Run(s, ops))
    decreases ops
  {
    if ops != [] {
      StepInv(s, ops[0]);
      StepExact(s, ops[0]);
      LiveWhileUsed(Apply(s, ops[0]).0, ops[1..]);
    }
  }

  /** A close frees the device exactly when it has 1 user modulo 2^16: with 2^16 + 1 users, the first of them to
      close takes the device away from all others. */
  lemma CloseFreesAtOne(s: State, block: nat)
    requires Inv(s) && Live(s, block) && block in s.balance
    ensures Live(Close(s, block, true).0, block) <==> Users(s, block) % COUNT != 1
  {
    var k := FindBlock(s.table, block);
    var s' := Close(s, block, true).0;
    if s.table[k].value.count == 1 {
      assert forall i | 0 <= i < |s'.table| :: !HasBlock(s'.table[i], block);
    } else {
      assert HasBlock(s'.table[k], block);
    }
  }

  function Opens(devId: nat, n: nat): seq<Op> {
    if n == 0 then [] else [OpenOp(devId, AllOk)] + Opens(devId, n - 1)
  }

  /** The device `devId` is open in block `block`. */
  predicate OpenAs(s: State, devId: nat, block: nat) {
    var k := FindDev(s.table, devId);
    k < |s.table| && s.table[k].value.block == block && block in s.balance
  }

  lemma FindAfter(t: Table, k: nat, devId: nat, e: Entry)
    requires k < |t| && FindDev(t, devId) in {k, |t|} && e.devId == devId
    ensures FindDev(t[k := Some(e)], devId) == k
  {
    var t' := t[k := Some(e)];
    var j := FindDev(t', devId);
    assert HasDev(t'[k], devId) && forall i | 0 <= i < k :: t'[i] == t[i];
  }

  lemma OneMoreOpen(s: State, devId: nat, block: nat)
    requires Inv(s) && OpenAs(s, devId, block)
    ensures var t := Open(s, devId, AllOk).0; OpenAs(t, devId, block) && Users(t, block) == Users(s, block) + 1
  {
    var k := FindDev(s.table, devId);
    var e := s.table[k].value;
    FindAfter(s.table, k, devId, e.(count := (e.count + 1) % COUNT));
  }

  /** Each further open of a device is one user more. */
  lemma {:induction false} OpensAddUsers(s: State, devId: nat, block: nat, n: nat)
    requires Inv(s) && OpenAs(s, devId, block)
    ensures var t := Run(s, Opens(devId, n));
            Inv(t) && OpenAs(t, devId, block) && Users(t, block) == Users(s, block) + n
    decreases n
  {
    if n > 0 {
      assert Opens(devId, n)[1..] == Opens(devId, n - 1);
      OpenInv(s, devId, AllOk);
      OneMoreOpen(s, devId, block);
      OpensAddUsers(Open(s, devId, AllOk).0, devId, block, n - 1);
    }
  }

  /** On any table with a free place, a device that is opened 2^16 + 1 times and closed once is gone, although 2^16 of
      its users have not closed it. */
  lemma WrapLosesDevice(s: State, devId: nat)
    requires Inv(s) && FindDev(s.table, devId) == |s.table| && FindFree(s.table) < |s.table|
    ensures var t := Run(Open(s, devId, AllOk).0, Opens(devId, COUNT));
            var u := Close(t, s.nextBlock, true).0;
            && Users(t, s.nextBlock) == COUNT + 1 && Live(t, s.nextBlock)
            && Users(u, s.nextBlock) == COUNT && !Live(u, s.nextBlock)
  {
    var block, f := s.nextBlock, FindFree(s.table);
    var s1 := Open(s, devId, AllOk).0;
    OpenInv(s, devId, AllOk);
    FindAfter(s.table, f, devId, Entry(block, devId, 1));
    OpensAddUsers(s1, devId, block, COUNT);
    var t := Run(s1, Opens(devId, COUNT));
    assert HasBlock(t.table[FindDev(t.table, devId)], block);
    CloseFreesAtOne(t, block);
    CloseCounts(t, block);
  }

  lemma CloseCounts(s: State, block: nat)
    requires Live(s, block) && block in s.balance
    ensures Users(Close(s, block, true).0, block) == Users(s, block) - 1
  {
  }

  lemma {:induction false} RunGrows(s: State, ops: seq<Op>)
    ensures s.halfMade <= Run(s, ops).halfMade && s.balance.Keys <= Run(s, ops).balance.Keys
    decreases ops
  {
    if ops != [] {
      RunGrows(Apply(s, ops[0]).0, ops[1..]);
    }
  }

  /** An open that fails changes the table if and only if it fails after the allocation. */
  lemma FailedOpenLeavesEntry(s: State, devId: nat, outcome: Outcome)
    requires Open(s, devId, outcome).1 != Success
    ensures Open(s, devId, outcome).0.table != s.table <==>
            && FindDev(s.table, devId) == |s.table| && FindFree(s.table) < |s.table|
            && outcome in {EventsFail, CallbackFails}
  {
  }

  /** The entry it leaves behind keeps the device id taken although nobody has the device open, and in every later run
      in which closes do not outnumber opens it is never freed. */
  lemma LeftEntryStays(s: State, devId: nat, outcome: Outcome, ops: seq<Op>)
    requires Inv(s) && Exact(s) && outcome in {EventsFail, CallbackFails}
    requires FindDev(s.table, devId) == |s.table| && FindFree(s.table) < |s.table|
    requires NoWrap(Open(s, devId, outcome).0, ops)
    ensures var t := Run(Open(s, devId, outcome).0, ops);
            && Open(s, devId, outcome).1 == OsError
            && s.nextBlock in t.balance && (t.balance[s.nextBlock] >= 0 ==> Live(t, s.nextBlock))
  {
    RunGrows(Open(s, devId, outcome).0, ops);
    OpenInv(s, devId, outcome);
    OpenExact(s, devId, outcome);
    LiveWhileUsed(Open(s, devId, outcome).0, ops);
  }
}
