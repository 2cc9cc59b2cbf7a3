/** The operations of the StateDB facade. Each returns the new state; every
    reversible change appends its journal entry. */
module Engine {
  import opened Common
  import opened State
  import opened Journal

  // ---------------------------------------------------------------------------
  // State objects

  /** `getStateObject`: resolves the object and caches a loaded one in the live set. */
  function GetStateObject(s: StateDB, addr: Address): (r: (Option<StateObject>, StateDB))
    ensures r.0 == Lookup(s, addr)
    ensures r.0.Some? ==> addr in r.1.stateObjects
    ensures forall a :: Lookup(r.1, a) == Lookup(s, a)
    ensures r.1 == s.(stateObjects := r.1.stateObjects)
  {
    var o := Lookup(s, addr);
    if o.Some? then (o, PutObject(s, addr, o.value)) else (o, s)
  }

  /** `createObject`: installs a fresh object marked `created`, journaling
      `CreateObjectChange` when nothing existed and `ResetObjectChange` with the
      previous object otherwise. */
  function CreateObject(s: StateDB, addr: Address): (r: (StateObject, StateDB))
    ensures r.0.created && !r.0.selfDestructed && r.0.account == EMPTY_ACCOUNT && r.0.address == addr
    ensures Lookup(r.1, addr) == Some(r.0)
    ensures forall a :: a != addr ==> Lookup(r.1, a) == Lookup(s, a)
    ensures Lookup(s, addr).None? ==> r.1.journal == s.journal + [CreateObjectChange(addr)]
    ensures Lookup(s, addr).Some? ==> r.1.journal == s.journal + [ResetObjectChange(addr, Lookup(s, addr).value)]
    ensures r.1 == s.(stateObjects := r.1.stateObjects, journal := r.1.journal)
  {
    var (prev, s1) := GetStateObject(s, addr);
    var newobj := NewObject(s.backing, addr, None).(created := true);
    var entry := if prev.None? then CreateObjectChange(addr) else ResetObjectChange(addr, prev.value);
    (newobj, PutObject(s1.(journal := s1.journal + [entry]), addr, newobj))
  }

  /** `getOrNewStateObject`. */
  function GetOrNewStateObject(s: StateDB, addr: Address): (r: (StateObject, StateDB))
    ensures Lookup(r.1, addr) == Some(r.0)
    ensures Lookup(s, addr).Some? ==> r.0 == Lookup(s, addr).value && r.1.journal == s.journal
    ensures Lookup(s, addr).None? ==> r.1.journal == s.journal + [CreateObjectChange(addr)] && r.0.created
    ensures forall a :: a != addr ==> Lookup(r.1, a) == Lookup(s, a)
    ensures r.1 == s.(stateObjects := r.1.stateObjects, journal := r.1.journal)
  {
    var (o, s1) := GetStateObject(s, addr);
    if o.Some? then (o.value, s1) else CreateObject(s1, addr)
  }

  /** `Exist`: an object resolves, self-destructed ones included. */
  function Exist(s: StateDB, addr: Address): (r: bool)
    ensures r <==> addr in s.stateObjects || addr in s.backing.accounts
    ensures Lookup(s, addr).Some? && Lookup(s, addr).value.selfDestructed ==> r
  {
    GetStateObject(s, addr).0.Some?
  }

  /** `GetBalance`: the balance lives in the native store's bank record, not
      in the state object; an address the bank does not hold has zero. */
  function GetBalance(s: StateDB, addr: Address): (r: nat)
    ensures addr in s.native.balances ==> r == s.native.balances[addr]
    ensures addr !in s.native.balances ==> r == 0
  {
    BalanceOf(s.native, addr)
  }

  /** `Empty`: no object, or zero nonce, no code and zero balance (EIP-161). */
  function Empty(s: StateDB, addr: Address): (r: bool)
    ensures !Exist(s, addr) ==> r
    ensures Exist(s, addr) ==>
      (r <==> Lookup(s, addr).value.account == EMPTY_ACCOUNT && GetBalance(s, addr) == 0)
  {
    match GetStateObject(s, addr).0
    case None => true
    case Some(o) => o.account.nonce == 0 && o.account.codeHash == EMPTY_CODE_HASH && GetBalance(s, addr) == 0
  }

  /** `SetNonce`, journaling the previous nonce. */
  function SetNonce(s: StateDB, addr: Address, nonce: uint64): (r: StateDB)
    ensures Lookup(r, addr).Some? && Lookup(r, addr).value.account.nonce == nonce
    ensures forall a :: a != addr ==> Lookup(r, a) == Lookup(s, a)
    ensures Lookup(s, addr).Some? ==>
      r.journal == s.journal + [NonceChange(addr, Lookup(s, addr).value.account.nonce)]
    ensures Lookup(s, addr).None? ==> r.journal == s.journal + [CreateObjectChange(addr), NonceChange(addr, 0)]
    ensures r == s.(stateObjects := r.stateObjects, journal := r.journal)
  {
    var (o, s1) := GetOrNewStateObject(s, addr);
    var s2 := s1.(journal := s1.journal + [NonceChange(addr, o.account.nonce)]);
    PutObject(s2, addr, o.(account := o.account.(nonce := nonce)))
  }

  /** `SetCode`, journaling the previous code; `hash` is the Keccak-256 of `code`. */
  function SetCode(s: StateDB, addr: Address, code: seq<uint8>, hash: Hash): (r: StateDB)
    ensures Lookup(r, addr).Some?
    ensures CodeOf(r.backing, Lookup(r, addr).value) == code
    ensures Lookup(r, addr).value.account.codeHash == hash && Lookup(r, addr).value.dirtyCode
    ensures Lookup(s, addr).Some? ==>
      r.journal == s.journal + [CodeChange(addr, FetchCode(s.backing, Lookup(s, addr).value), Lookup(s, addr).value.account.codeHash)]
    ensures forall a :: a != addr ==> Lookup(r, a) == Lookup(s, a)
    ensures r == s.(stateObjects := r.stateObjects, journal := r.journal)
  {
    var (o, s1) := GetOrNewStateObject(s, addr);
    var s2 := s1.(journal := s1.journal + [CodeChange(addr, FetchCode(s.backing, o), o.account.codeHash)]);
    PutObject(s2, addr, o.(code := Some(code), account := o.account.(codeHash := hash), dirtyCode := true))
  }

  /** `SetState`: a write of the current value changes and journals nothing
      beyond resolving the object. */
  function SetState(s: StateDB, addr: Address, key: Hash, value: Hash): (r: StateDB)
    ensures Lookup(r, addr).Some? && GetStateOf(Lookup(r, addr).value, key) == value
    ensures forall k :: k != key ==> GetStateOf(Lookup(r, addr).value, k) == GetStateOf(GetOrNewStateObject(s, addr).0, k)
    ensures forall a :: a != addr ==> Lookup(r, a) == Lookup(s, a)
    ensures GetStateOf(GetOrNewStateObject(s, addr).0, key) == value ==> r.journal == GetOrNewStateObject(s, addr).1.journal
    ensures r == s.(stateObjects := r.stateObjects, journal := r.journal)
  {
    var (o, s1) := GetOrNewStateObject(s, addr);
    var prev := GetStateOf(o, key);
    if prev == value then s1
    else
      var s2 := s1.(journal := s1.journal + [StorageChange(addr, key, prev)]);
      PutObject(s2, addr, o.(dirtyStorage := o.dirtyStorage[key := value]))
  }

  // ---------------------------------------------------------------------------
  // Refund counter and logs

  /** `AddRefund`: the counter is a `uint64` and wraps around. */
  function AddRefund(s: StateDB, gas: uint64): (r: StateDB)
    ensures s.refund + gas < UINT64_MODULUS ==> r.refund == s.refund + gas
    ensures s.refund + gas >= UINT64_MODULUS ==> r.refund == s.refund + gas - UINT64_MODULUS
    ensures r.refund == (s.refund + gas) % UINT64_MODULUS
    ensures r.journal == s.journal + [RefundChange(s.refund)]
    ensures r == s.(refund := r.refund, journal := r.journal)
  {
    s.(journal := s.journal + [RefundChange(s.refund)], refund := AddUint64(s.refund, gas))
  }

  /** `SubRefund`: going below zero is a panic in Go's `SubRefund`. */
  function SubRefund(s: StateDB, gas: uint64): (r: StateDB)
    requires gas <= s.refund
    ensures r.refund + gas == s.refund
    ensures r.journal == s.journal + [RefundChange(s.refund)]
    ensures r == s.(refund := r.refund, journal := r.journal)
  {
    s.(journal := s.journal + [RefundChange(s.refund)], refund := s.refund - gas)
  }

  /** Log `i` carries index `logIndex + i` and the transaction's index. */
  ghost predicate ConsecutiveLogs(s: StateDB)
  {
    forall i :: 0 <= i < |s.logs| ==>
      s.logs[i].index == s.txConfig.logIndex + i && s.logs[i].txIndex == s.txConfig.txIndex
  }

  /** `AddLog`: stamps the transaction index and the next log index, and appends. */
  function AddLog(s: StateDB, log: Log): (r: StateDB)
    ensures |r.logs| == |s.logs| + 1 && r.logs[..|s.logs|] == s.logs
    ensures r.logs[|s.logs|].index == s.txConfig.logIndex + |s.logs|
    ensures r.logs[|s.logs|].address == log.address && r.logs[|s.logs|].data == log.data
    ensures ConsecutiveLogs(s) ==> ConsecutiveLogs(r)
    ensures r.journal == s.journal + [AddLogChange]
    ensures r == s.(logs := r.logs, journal := r.journal)
  {
    var stamped := log.(txIndex := s.txConfig.txIndex, index := s.txConfig.logIndex + |s.logs|);
    s.(journal := s.journal + [AddLogChange], logs := s.logs + [stamped])
  }

  // ---------------------------------------------------------------------------
  // Native actions

  /** What a native action did to its branch of the native store. */
  datatype ActionOutcome = ActionFailed(err: Error) | ActionDone(store: NativeStore, events: seq<Event>)

  /** `emitNativeEvents`: converts each event and adds the resulting logs under
      `contract`'s address; an event the converter rejects or maps to nothing is
      skipped, and a missing converter emits nothing. */
  function EmitNativeEvents(s: StateDB, contract: Address, converter: Option<Event -> Option<Log>>, events: seq<Event>): (r: StateDB)
    ensures converter.None? ==> r == s
    ensures |s.logs| <= |r.logs| <= |s.logs| + |events| && r.logs[..|s.logs|] == s.logs
    ensures forall i :: |s.logs| <= i < |r.logs| ==> r.logs[i].address == contract
    ensures r.journal == s.journal + seq(|r.logs| - |s.logs|, _ => AddLogChange)
    ensures ConsecutiveLogs(s) ==> ConsecutiveLogs(r)
    ensures r == s.(logs := r.logs, journal := r.journal)
    decreases |events|
  {
    if converter.None? || events == [] then s
    else
      var s1 := match converter.value(events[0])
        case None => s
        case Some(log) => AddLog(s, log.(address := contract));
      EmitNativeEvents(s1, contract, converter, events[1..])
  }

  /** `ExecuteNativeAction`: runs `action` on the current native store. On
      failure the pre-action store stays in place, nothing is journaled and the
      error is returned. On success the action's logs are emitted, its events
      recorded, and exactly one `NativeChange` entry holding the pre-action store
      and the event count closes the journal. */
  function ExecuteNativeAction(s: StateDB, contract: Address, converter: Option<Event -> Option<Log>>,
                               action: NativeStore -> ActionOutcome): (r: (StateDB, Option<Error>))
    ensures action(s.native).ActionFailed? ==> r.0 == s && r.1 == Some(action(s.native).err)
    ensures action(s.native).ActionDone? ==>
      && r.1 == None
      && r.0.native == action(s.native).store
      && r.0.nativeEvents == s.nativeEvents + action(s.native).events
      && |r.0.journal| > |s.journal|
      && r.0.journal[|r.0.journal| - 1] == NativeChange(s.native, |action(s.native).events|)
      && (forall i :: |s.journal| <= i < |r.0.journal| - 1 ==> r.0.journal[i] == AddLogChange)
      && r.0.journal[..|s.journal|] == s.journal
      && r.0 == s.(logs := r.0.logs, journal := r.0.journal, native := r.0.native, nativeEvents := r.0.nativeEvents)
  {
    match action(s.native)
    case ActionFailed(e) => (s, Some(e))
    case ActionDone(store, events) =>
      var s1 := EmitNativeEvents(s, contract, converter, events);
      var s2 := s1.(nativeEvents := s1.nativeEvents + events, native := store,
                    journal := s1.journal + [NativeChange(s.native, |events|)]);
      (s2, None)
  }

  /** The bank keeper's credit. `refusal` is the keeper's own verdict on this
      call (a blocked address, a send-disabled denomination, ...), none when
      its checks pass; a refused credit changes nothing. */
  function BankCredit(n: NativeStore, addr: Address, amount: nat, refusal: Option<Error>): (r: ActionOutcome)
    ensures refusal.Some? <==> r.ActionFailed?
    ensures r.ActionFailed? ==> r.err == refusal.value
    ensures r.ActionDone? ==> BalanceOf(r.store, addr) == BalanceOf(n, addr) + amount
  {
    if refusal.Some? then ActionFailed(refusal.value)
    else ActionDone(n.(balances := n.balances[addr := BalanceOf(n, addr) + amount]),
                    [Event("coin_received", addr, amount)])
  }

  /** Why the bank keeper refuses a debit: its own verdict first, then a
      balance that cannot cover the amount. */
  function DebitFailure(n: NativeStore, addr: Address, amount: nat, refusal: Option<Error>): (r: Option<Error>)
    ensures r.None? <==> refusal.None? && amount <= BalanceOf(n, addr)
    ensures refusal.Some? ==> r == refusal
  {
    if refusal.Some? then refusal
    else if BalanceOf(n, addr) < amount then Some(Error("insufficient funds"))
    else None
  }

  /** The bank keeper's debit: fails with `DebitFailure` when there is one. */
  function BankDebit(n: NativeStore, addr: Address, amount: nat, refusal: Option<Error>): (r: ActionOutcome)
    ensures r.ActionFailed? <==> DebitFailure(n, addr, amount, refusal).Some?
    ensures r.ActionFailed? ==> r.err == DebitFailure(n, addr, amount, refusal).value
    ensures r.ActionDone? ==> BalanceOf(r.store, addr) + amount == BalanceOf(n, addr)
  {
    var failure := DebitFailure(n, addr, amount, refusal);
    if failure.Some? then ActionFailed(failure.value)
    else ActionDone(n.(balances := n.balances[addr := BalanceOf(n, addr) - amount]),
                    [Event("coin_spent", addr, amount)])
  }

  /** Records a failed native action's error over any earlier one; success
      leaves the recorded error alone. */
  function RecordErr(s: StateDB, err: Option<Error>): (r: StateDB)
    ensures r.err == (if err.Some? then err else s.err)
    ensures r == s.(err := r.err)
  {
    if err.Some? then s.(err := err) else s
  }

  /** `AddBalance`: a non-positive amount is ignored; otherwise a native credit,
      whose refusal is recorded in `err` with no journal entry. */
  function AddBalance(s: StateDB, addr: Address, amount: int, refusal: Option<Error>): (r: StateDB)
    ensures amount <= 0 ==> r == s
    ensures amount > 0 && refusal.None? ==>
      GetBalance(r, addr) == GetBalance(s, addr) + amount && r.err == s.err
      && r.journal == s.journal + [NativeChange(s.native, 1)]
    ensures amount > 0 && refusal.Some? ==> r == s.(err := refusal)
    ensures forall a :: a != addr ==> GetBalance(r, a) == GetBalance(s, a)
    ensures r == s.(native := r.native, nativeEvents := r.nativeEvents, journal := r.journal, err := r.err)
    ensures forall a :: Lookup(r, a) == Lookup(s, a)
  {
    if amount <= 0 then s
    else
      var (s1, err) := ExecuteNativeAction(s, 0, None, (n: NativeStore) => BankCredit(n, addr, amount, refusal));
      RecordErr(s1, err)
  }

  /** `SubBalance`: a non-positive amount is ignored; otherwise a native debit,
      whose failure is recorded in `err` with no journal entry. */
  function SubBalance(s: StateDB, addr: Address, amount: int, refusal: Option<Error>): (r: StateDB)
    ensures amount <= 0 ==> r == s
    ensures amount > 0 && refusal.None? && amount <= GetBalance(s, addr) ==>
      GetBalance(r, addr) + amount == GetBalance(s, addr) && r.err == s.err
      && r.journal == s.journal + [NativeChange(s.native, 1)]
    ensures amount > 0 && refusal.Some? ==> r == s.(err := refusal)
    ensures amount > GetBalance(s, addr) && refusal.None? ==> r == s.(err := Some(Error("insufficient funds")))
    ensures forall a :: a != addr ==> GetBalance(r, a) == GetBalance(s, a)
    ensures r == s.(native := r.native, nativeEvents := r.nativeEvents, journal := r.journal, err := r.err)
    ensures forall a :: Lookup(r, a) == Lookup(s, a)
  {
    if amount <= 0 then s
    else
      var (s1, err) := ExecuteNativeAction(s, 0, None, (n: NativeStore) => BankDebit(n, addr, amount, refusal));
      RecordErr(s1, err)
  }

  // ---------------------------------------------------------------------------
  // Self-destruct

  /** `SelfDestruct`: marks an existing object and clears its balance through
      `SubBalance` (`refusal` is the bank keeper's verdict on that debit); a
      missing object is left alone. */
  function SelfDestruct(s: StateDB, addr: Address, refusal: Option<Error>): (r: StateDB)
    ensures Lookup(s, addr).None? ==> r == s
    ensures Lookup(s, addr).Some? ==>
      && Lookup(r, addr) == Some(Lookup(s, addr).value.(selfDestructed := true))
      && (refusal.None? || GetBalance(s, addr) == 0 ==> GetBalance(r, addr) == 0 && r.err == s.err)
      && (refusal.Some? && GetBalance(s, addr) > 0 ==> GetBalance(r, addr) == GetBalance(s, addr) && r.err == refusal)
      && r.journal == s.journal + [SelfDestructChange(addr, Lookup(s, addr).value.selfDestructed)]
                     + (if GetBalance(s, addr) > 0 && refusal.None? then [NativeChange(s.native, 1)] else [])
      && r == s.(stateObjects := r.stateObjects, native := r.native, nativeEvents := r.nativeEvents,
                 journal := r.journal, err := r.err)
    ensures forall a :: a != addr ==> Lookup(r, a) == Lookup(s, a)
    ensures forall a :: a != addr ==> GetBalance(r, a) == GetBalance(s, a)
  {
    var (o, s1) := GetStateObject(s, addr);
    if o.None? then s1
    else
      var s2 := PutObject(s1.(journal := s1.journal + [SelfDestructChange(addr, o.value.selfDestructed)]),
                          addr, o.value.(selfDestructed := true));
      var balance := GetBalance(s2, addr);
      if balance > 0 then SubBalance(s2, addr, balance, refusal) else s2
  }

  /** `Selfdestruct6780` (EIP-6780): self-destructs only an object created in
      this transaction. */
  function Selfdestruct6780(s: StateDB, addr: Address, refusal: Option<Error>): (r: StateDB)
    ensures Lookup(s, addr).Some? && Lookup(s, addr).value.created ==> r == SelfDestruct(s, addr, refusal)
    ensures !(Lookup(s, addr).Some? && Lookup(s, addr).value.created) ==>
      r.journal == s.journal && forall a :: Lookup(r, a) == Lookup(s, a)
  {
    var (o, s1) := GetStateObject(s, addr);
    if o.None? then s1
    else if o.value.created then SelfDestruct(s1, addr, refusal)
    else s1
  }

  // ---------------------------------------------------------------------------
  // Transient storage and access list

  /** `SetTransientState`: writing the current value journals nothing. */
  function SetTransientState(s: StateDB, addr: Address, key: Hash, value: Hash): (r: StateDB)
    ensures GetTransient(r, addr, key) == value
    ensures forall a: Address, k: Hash :: (a, k) != (addr, key) ==> GetTransient(r, a, k) == GetTransient(s, a, k)
    ensures GetTransient(s, addr, key) == value ==> r == s
    ensures GetTransient(s, addr, key) != value ==>
      r.journal == s.journal + [TransientStorageChange(addr, key, GetTransient(s, addr, key))]
    ensures r == s.(transientStorage := r.transientStorage, journal := r.journal)
  {
    var prev := GetTransient(s, addr, key);
    if prev == value then s
    else SetTransient(s.(journal := s.journal + [TransientStorageChange(addr, key, prev)]), addr, key, value)
  }

  /** `AddAddressToAccessList`: journals only when the address is new. */
  function AddAddressToAccessList(s: StateDB, addr: Address): (r: StateDB)
    ensures r.accessList.addresses == s.accessList.addresses + {addr}
    ensures r.accessList.slots == s.accessList.slots
    ensures addr in s.accessList.addresses ==> r == s
    ensures addr !in s.accessList.addresses ==> r.journal == s.journal + [AccessListAddAccountChange(addr)]
    ensures r == s.(accessList := r.accessList, journal := r.journal)
  {
    if addr in s.accessList.addresses then s
    else s.(accessList := s.accessList.(addresses := s.accessList.addresses + {addr}),
            journal := s.journal + [AccessListAddAccountChange(addr)])
  }

  /** `AddSlotToAccessList`: journals the address and the slot, each only when new. */
  function AddSlotToAccessList(s: StateDB, addr: Address, slot: Hash): (r: StateDB)
    ensures r.accessList.addresses == s.accessList.addresses + {addr}
    ensures r.accessList.slots == s.accessList.slots + {(addr, slot)}
    ensures r.journal ==
      s.journal
      + (if addr in s.accessList.addresses then [] else [AccessListAddAccountChange(addr)])
      + (if (addr, slot) in s.accessList.slots then [] else [AccessListAddSlotChange(addr, slot)])
    ensures r == s.(accessList := r.accessList, journal := r.journal)
  {
    var addrMod := addr !in s.accessList.addresses;
    var slotMod := (addr, slot) !in s.accessList.slots;
    var j1 := if addrMod then s.journal + [AccessListAddAccountChange(addr)] else s.journal;
    var j2 := if slotMod then j1 + [AccessListAddSlotChange(addr, slot)] else j1;
    s.(accessList := AccessList(s.accessList.addresses + {addr}, s.accessList.slots + {(addr, slot)}),
       journal := j2)
  }

  /** Fork switches consulted by `Prepare`. */
  datatype Rules = Rules(isBerlin: bool, isShanghai: bool)

  /** One element of a transaction's access list. */
  datatype AccessTuple = AccessTuple(address: Address, storageKeys: seq<Hash>)

  /** Adds addresses one by one. */
  function AddAddresses(al: AccessList, addrs: seq<Address>): (r: AccessList)
    ensures r.addresses == al.addresses + set a | a in addrs
    ensures r.slots == al.slots
    decreases |addrs|
  {
    if addrs == [] then al
    else AddAddresses(al.(addresses := al.addresses + {addrs[0]}), addrs[1..])
  }

  /** Adds each tuple's address and each of its slots. */
  function AddTuples(al: AccessList, list: seq<AccessTuple>): (r: AccessList)
    ensures forall a :: a in r.addresses <==> a in al.addresses || exists i :: 0 <= i < |list| && list[i].address == a
    ensures forall a, k :: (a, k) in r.slots <==>
      (a, k) in al.slots || exists i :: 0 <= i < |list| && list[i].address == a && k in list[i].storageKeys
    decreases |list|
  {
    if list == [] then al
    else
      var el := list[0];
      var al1 := AccessList(al.addresses + {el.address}, al.slots + set k | k in el.storageKeys :: (el.address, k));
      var r := AddTuples(al1, list[1..]);
      assert forall i :: 1 <= i < |list| ==> list[i] == list[1..][i - 1];
      r
  }

  /** `Prepare`: under Berlin the access list becomes exactly sender, destination,
      precompiles, the transaction's list and (under Shanghai) the coinbase;
      transient storage is always cleared. Nothing is journaled. */
  function Prepare(s: StateDB, rules: Rules, sender: Address, coinbase: Address, dst: Option<Address>,
                   precompiles: seq<Address>, list: seq<AccessTuple>): (r: StateDB)
    ensures r.transientStorage == map[]
    ensures !rules.isBerlin ==> r.accessList == s.accessList
    ensures rules.isBerlin ==> forall a :: a in r.accessList.addresses <==>
      || a == sender
      || dst == Some(a)
      || a in precompiles
      || (exists i :: 0 <= i < |list| && list[i].address == a)
      || (rules.isShanghai && a == coinbase)
    ensures rules.isBerlin ==> forall a, k :: (a, k) in r.accessList.slots <==>
      exists i :: 0 <= i < |list| && list[i].address == a && k in list[i].storageKeys
    ensures r == s.(accessList := r.accessList, transientStorage := r.transientStorage)
  {
    var s1 := s.(transientStorage := map[]);
    if !rules.isBerlin then s1
    else
      var al0 := AddAddresses(EMPTY_ACCESS_LIST, [sender]);
      var al1 := if dst.Some? then AddAddresses(al0, [dst.value]) else al0;
      var al2 := AddAddresses(al1, precompiles);
      var al3 := AddTuples(al2, list);
      var al4 := if rules.isShanghai then AddAddresses(al3, [coinbase]) else al3;
      s1.(accessList := al4)
  }
}
