/** The data model of the transactional state engine: accounts, state objects,
    journal entries, revisions and the StateDB record itself. */
module State {
  import opened Common

  /** The account record kept by the keeper (the balance lives in the native bank store). */
  datatype Account = Account(nonce: uint64, codeHash: Hash)

  const EMPTY_ACCOUNT: Account := Account(0, EMPTY_CODE_HASH)

  /** The committed state read through the keeper with the transaction's own
      context. Nothing writes to it before Commit, so within one StateDB it is
      a constant. */
  datatype Backing = Backing(
    accounts: map<Address, Account>,
    codes: map<Hash, seq<uint8>>,
    storage: map<Address, map<Hash, Hash>>)

  /** A live account: the keeper's record plus pending code and storage changes. */
  datatype StateObject = StateObject(
    address: Address,
    account: Account,
    originNonce: uint64,              // nonce when the object was loaded, for nonceDirty
    code: Option<seq<uint8>>,         // nil until fetched or set
    dirtyCode: bool,
    originStorage: map<Hash, Hash>,   // committed slot values of the account
    dirtyStorage: map<Hash, Hash>,    // pending slot writes
    selfDestructed: bool,
    created: bool)                    // created within the current transaction

  /** A log emitted during the transaction. */
  datatype Log = Log(address: Address, topics: seq<Hash>, data: seq<uint8>, txIndex: nat, index: nat)

  /** An event recorded by a native action's event manager. */
  datatype Event = Event(kind: string, account: Address, amount: nat)

  /** The native (bank) store as an immutable value: branching it is copying it. */
  datatype NativeStore = NativeStore(balances: map<Address, nat>)

  /** Positional metadata of the transaction, used to stamp logs. */
  datatype TxConfig = TxConfig(txHash: Hash, blockHash: Hash, txIndex: nat, logIndex: nat)

  datatype AccessList = AccessList(addresses: set<Address>, slots: set<(Address, Hash)>)

  const EMPTY_ACCESS_LIST: AccessList := AccessList({}, {})

  datatype Error = Error(message: string)

  /** One reversible change, carrying exactly what is needed to undo it. */
  datatype JournalEntry =
    | CreateObjectChange(account: Address)
    | ResetObjectChange(account: Address, prev: StateObject)
    | SelfDestructChange(account: Address, prevFlag: bool)
    | NonceChange(account: Address, prevNonce: uint64)
    | CodeChange(account: Address, prevCode: Option<seq<uint8>>, prevHash: Hash)
    | StorageChange(account: Address, key: Hash, prevalue: Hash)
    | RefundChange(prevRefund: uint64)
    | AddLogChange
    | TransientStorageChange(account: Address, key: Hash, prevalue: Hash)
    | AccessListAddAccountChange(address: Address)
    | AccessListAddSlotChange(address: Address, slot: Hash)
    | NativeChange(snapshot: NativeStore, events: nat)

  /** A version of the state: an auto-increment id and the journal length at that moment. */
  datatype Revision = Revision(id: int, journalIndex: nat)

  datatype StateDB = StateDB(
    backing: Backing,
    journal: seq<JournalEntry>,
    validRevisions: seq<Revision>,
    nextRevisionId: int,
    stateObjects: map<Address, StateObject>,
    txConfig: TxConfig,
    refund: uint64,
    logs: seq<Log>,
    accessList: AccessList,
    transientStorage: map<(Address, Hash), Hash>,
    nativeEvents: seq<Event>,
    native: NativeStore,
    err: Option<Error>)

  /** A fresh StateDB over a committed state. */
  function NewStateDB(backing: Backing, native: NativeStore, txConfig: TxConfig): (s: StateDB)
    ensures s.journal == [] && s.validRevisions == [] && s.err == None
    ensures s.stateObjects == map[] && s.logs == [] && s.refund == 0
  {
    StateDB(backing, [], [], 0, map[], txConfig, 0, [], EMPTY_ACCESS_LIST, map[], [], native, None)
  }

  /** A state object as `newObject` builds it; a missing record yields an empty account. */
  function NewObject(b: Backing, addr: Address, acct: Option<Account>): (o: StateObject)
    ensures o.address == addr && !o.selfDestructed && !o.created && !o.dirtyCode
    ensures o.dirtyStorage == map[] && o.originNonce == o.account.nonce
    ensures acct.None? ==> o.account == EMPTY_ACCOUNT
  {
    var account := if acct.Some? then acct.value else EMPTY_ACCOUNT;
    StateObject(addr, account, account.nonce, None, false,
                if addr in b.storage then b.storage[addr] else map[], map[], false, false)
  }

  /** The object `getStateObject` resolves for `addr`: the live one, else the
      keeper's record, else none. */
  function Lookup(s: StateDB, addr: Address): (r: Option<StateObject>)
    ensures addr in s.stateObjects ==> r == Some(s.stateObjects[addr])
    ensures r.None? <==> addr !in s.stateObjects && addr !in s.backing.accounts
    ensures addr !in s.stateObjects && r.Some? ==>
      && r.value.account == s.backing.accounts[addr] && r.value.address == addr
      && !r.value.created && !r.value.selfDestructed && !r.value.dirtyCode && r.value.code.None?
      && r.value.dirtyStorage == map[]
  {
    if addr in s.stateObjects then Some(s.stateObjects[addr])
    else if addr in s.backing.accounts then Some(NewObject(s.backing, addr, Some(s.backing.accounts[addr])))
    else None
  }

  /** Current value of a slot: the pending write, else the committed value, else zero. */
  function GetStateOf(o: StateObject, key: Hash): Hash
  {
    if key in o.dirtyStorage then o.dirtyStorage[key]
    else if key in o.originStorage then o.originStorage[key]
    else 0
  }

  /** Committed value of a slot (zero when the keeper has none). */
  function CommittedStateOf(o: StateObject, key: Hash): Hash
  {
    if key in o.originStorage then o.originStorage[key] else 0
  }

  /** The code of an object, fetched by hash when not yet loaded. */
  function CodeOf(b: Backing, o: StateObject): seq<uint8>
  {
    if o.code.Some? then o.code.value
    else if o.account.codeHash == EMPTY_CODE_HASH then []
    else if o.account.codeHash in b.codes then b.codes[o.account.codeHash]
    else []
  }

  /** The object's `Code()` accessor: the loaded code, else none (Go's nil)
      for the empty code hash, else the keeper's code for the hash, none when
      the keeper has no such code. */
  function FetchCode(b: Backing, o: StateObject): (r: Option<seq<uint8>>)
    ensures CodeOf(b, o) == (if r.Some? then r.value else [])
    ensures o.code.None? && o.account.codeHash == EMPTY_CODE_HASH ==> r.None?
    ensures o.code.Some? ==> r == o.code
  {
    if o.code.Some? then o.code
    else if o.account.codeHash == EMPTY_CODE_HASH then None
    else if o.account.codeHash in b.codes then Some(b.codes[o.account.codeHash])
    else None
  }

  function GetTransient(s: StateDB, addr: Address, key: Hash): Hash
  {
    if (addr, key) in s.transientStorage then s.transientStorage[(addr, key)] else 0
  }

  /** Transient-storage write: a zero value removes the slot, so the map holds
      only non-zero values. */
  function SetTransient(s: StateDB, addr: Address, key: Hash, value: Hash): (r: StateDB)
    ensures GetTransient(r, addr, key) == value
    ensures forall a: Address, k: Hash :: (a, k) != (addr, key) ==> GetTransient(r, a, k) == GetTransient(s, a, k)
    ensures r == s.(transientStorage := r.transientStorage)
  {
    if value == 0 then s.(transientStorage := s.transientStorage - {(addr, key)})
    else s.(transientStorage := s.transientStorage[(addr, key) := value])
  }

  /** Installs `o` as the live object of `addr`. */
  function PutObject(s: StateDB, addr: Address, o: StateObject): (r: StateDB)
    ensures Lookup(r, addr) == Some(o)
    ensures forall a :: a != addr ==> Lookup(r, a) == Lookup(s, a)
  {
    s.(stateObjects := s.stateObjects[addr := o])
  }

  function BalanceOf(n: NativeStore, addr: Address): nat
  {
    if addr in n.balances then n.balances[addr] else 0
  }

  /** Two objects are indistinguishable to the VM and to Commit's no-op filter:
      same record, code, flags and slot values. The caches (`code` before it
      is fetched, `dirtyCode`, how a slot value is split between the origin
      and dirty maps) are not part of the view. */
  ghost predicate SameObject(b: Backing, o1: StateObject, o2: StateObject)
  {
    && o1.address == o2.address
    && o1.account == o2.account
    && o1.originNonce == o2.originNonce
    && CodeOf(b, o1) == CodeOf(b, o2)
    && o1.originStorage == o2.originStorage
    && o1.selfDestructed == o2.selfDestructed
    && o1.created == o2.created
    && forall k :: GetStateOf(o1, k) == GetStateOf(o2, k)
  }

  ghost predicate SameOptObject(b: Backing, x: Option<StateObject>, y: Option<StateObject>)
  {
    x.Some? == y.Some? && (x.Some? ==> SameObject(b, x.value, y.value))
  }

  /** The observable state: what the VM can read (objects, refund, logs, access
      list, transient slots, balances, native events). */
  ghost predicate SameView(s: StateDB, t: StateDB)
  {
    && s.backing == t.backing
    && s.txConfig == t.txConfig
    && s.refund == t.refund
    && s.logs == t.logs
    && s.accessList == t.accessList
    && (forall a: Address, k: Hash :: GetTransient(s, a, k) == GetTransient(t, a, k))
    && s.native == t.native
    && s.nativeEvents == t.nativeEvents
    && forall a :: SameOptObject(s.backing, Lookup(s, a), Lookup(t, a))
  }

  lemma SameViewRefl(s: StateDB)
    ensures SameView(s, s)
  {
  }

  lemma SameViewTrans(s: StateDB, t: StateDB, u: StateDB)
    requires SameView(s, t) && SameView(t, u)
    ensures SameView(s, u)
  {
    forall a: Address, k: Hash ensures GetTransient(s, a, k) == GetTransient(u, a, k) {
      assert GetTransient(s, a, k) == GetTransient(t, a, k);
    }
    forall a
      ensures SameOptObject(s.backing, Lookup(s, a), Lookup(u, a))
    {
      assert SameOptObject(s.backing, Lookup(s, a), Lookup(t, a));
      assert SameOptObject(s.backing, Lookup(t, a), Lookup(u, a));
    }
  }

  /** Fields that keep their transient storage keep agreeing on it. */
  lemma SameTransientCarried(s: StateDB, t: StateDB, s': StateDB, t': StateDB)
    requires SameView(s, t)
    requires s'.transientStorage == s.transientStorage && t'.transientStorage == t.transientStorage
    ensures forall a: Address, k: Hash :: GetTransient(s', a, k) == GetTransient(t', a, k)
  {
    forall a: Address, k: Hash ensures GetTransient(s', a, k) == GetTransient(t', a, k) {
      assert GetTransient(s, a, k) == GetTransient(t, a, k);
    }
  }

  /** Number of `AddLogChange` entries of a journal. */
  function LogEntries(j: seq<JournalEntry>): nat
  {
    if j == [] then 0
    else LogEntries(j[..|j| - 1]) + (if j[|j| - 1].AddLogChange? then 1 else 0)
  }

  /** Total event count recorded by the `NativeChange` entries of a journal. */
  function NativeEntryEvents(j: seq<JournalEntry>): nat
  {
    if j == [] then 0
    else NativeEntryEvents(j[..|j| - 1]) + (if j[|j| - 1].NativeChange? then j[|j| - 1].events else 0)
  }

  /** Every journaled log and native event is still present, so undoing the
      journal never truncates below zero. */
  ghost predicate WellFormed(s: StateDB)
  {
    && LogEntries(s.journal) <= |s.logs|
    && NativeEntryEvents(s.journal) <= |s.nativeEvents|
  }

  lemma {:induction false} CountsAppend(j: seq<JournalEntry>, k: seq<JournalEntry>)
    ensures LogEntries(j + k) == LogEntries(j) + LogEntries(k)
    ensures NativeEntryEvents(j + k) == NativeEntryEvents(j) + NativeEntryEvents(k)
    decreases |k|
  {
    if k == [] {
      assert j + k == j;
    } else {
      var k' := k[..|k| - 1];
      assert (j + k)[..|j + k| - 1] == j + k';
      CountsAppend(j, k');
    }
  }
}
