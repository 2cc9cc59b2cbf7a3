/** `Commit`: flushes the native store, emits the recorded native events and
    writes every dirty account to the keeper, in ascending address order. */
module Committing {
  import opened Common
  import opened State
  import opened Journal
  import opened Engine

  /** One keeper write issued by Commit. */
  datatype Write =
    | DeleteAccount(addr: Address)
    | StoreCode(hash: Hash, code: seq<uint8>)
    | StoreAccount(addr: Address, account: Account)
    | StoreState(addr: Address, key: Hash, value: Hash)

  /** Only account deletion and account writes can fail at the keeper. */
  predicate Fallible(w: Write)
  {
    w.DeleteAccount? || w.StoreAccount?
  }

  /** The keeper's error wrapped with the operation that failed. */
  function WrapError(w: Write, e: Error): Error
  {
    if w.DeleteAccount? then Error("failed to delete account: " + e.message)
    else Error("failed to set account: " + e.message)
  }

  /** Every live object sits under its own address. */
  ghost predicate Keyed(s: StateDB)
  {
    forall a :: a in s.stateObjects ==> s.stateObjects[a].address == a
  }

  /** Every address the journal dirties has a live object (Commit reads it
      from the live set without a nil check). */
  ghost predicate Live(s: StateDB)
  {
    forall a :: a in Dirties(s.journal) ==> a in s.stateObjects
  }

  /** The storage writes of one object, over its dirty keys in the given
      order; a slot whose pending value equals the committed one is skipped. */
  function StorageWrites(o: StateObject, keys: seq<Hash>): (r: seq<Write>)
    requires forall i :: 0 <= i < |keys| ==> keys[i] in o.dirtyStorage
    ensures forall w :: w in r ==>
      && w.StoreState? && w.addr == o.address && w.key in keys
      && w.value == o.dirtyStorage[w.key] && w.value != CommittedStateOf(o, w.key)
    ensures forall k :: k in keys && o.dirtyStorage[k] != CommittedStateOf(o, k) ==>
      StoreState(o.address, k, o.dirtyStorage[k]) in r
    ensures StrictlyIncreasing(keys) ==>
      forall i, j :: 0 <= i < j < |r| ==> r[i].key < r[j].key
    decreases |keys|
  {
    if keys == [] then []
    else
      var k := keys[0];
      var v := o.dirtyStorage[k];
      var rest := StorageWrites(o, keys[1..]);
      assert forall w :: w in rest ==> w.key in keys[1..];
      if v == CommittedStateOf(o, k) then rest else [StoreState(o.address, k, v)] + rest
  }

  /** Which writes belong to one dirty object: a deletion when it
      self-destructed; otherwise its code when the code is dirty and loaded,
      its account record when the code or the nonce changed, and each changed
      slot with its pending value. */
  predicate ObjectWrite(o: StateObject, w: Write)
  {
    if o.selfDestructed then w == DeleteAccount(o.address)
    else match w
      case DeleteAccount(_) => false
      case StoreCode(h, c) => o.dirtyCode && o.code == Some(c) && h == o.account.codeHash
      case StoreAccount(a, acct) =>
        a == o.address && acct == o.account && (o.dirtyCode || o.account.nonce != o.originNonce)
      case StoreState(a, k, v) =>
        a == o.address && k in o.dirtyStorage && v == o.dirtyStorage[k] && v != CommittedStateOf(o, k)
  }

  /** The dirty keys of an object by ascending value (Go's `SortedKeys`). */
  function SortedKeys(o: StateObject): (r: seq<Hash>)
    ensures StrictlyIncreasing(r)
    ensures forall i :: 0 <= i < |r| ==> r[i] in o.dirtyStorage
    ensures forall k :: k in o.dirtyStorage ==> k in r
  {
    var r := SortedElements(o.dirtyStorage.Keys);
    assert forall i :: 0 <= i < |r| ==> r[i] in o.dirtyStorage.Keys;
    r
  }

  /** The code and account writes of a surviving object. */
  function RecordWrites(o: StateObject): (r: seq<Write>)
    ensures forall w :: w in r ==> w.StoreCode? || w == StoreAccount(o.address, o.account)
  {
    (if o.dirtyCode && o.code.Some? then [StoreCode(o.account.codeHash, o.code.value)] else [])
    + (if o.dirtyCode || o.account.nonce != o.originNonce then [StoreAccount(o.address, o.account)] else [])
  }

  /** The writes for one dirty object, in the order Commit issues them: code,
      account record, then slots by ascending key. */
  function ObjectWrites(o: StateObject): (r: seq<Write>)
    ensures forall w :: w in r && Addressed(w) ==> w.addr == o.address
  {
    if o.selfDestructed then [DeleteAccount(o.address)]
    else
      var head := RecordWrites(o);
      var storage := StorageWrites(o, SortedKeys(o));
      head + storage
  }

  /** An object's slots are written by ascending key. */
  lemma ObjectWritesKeysAscending(o: StateObject)
    ensures var r := ObjectWrites(o);
      forall i, j :: 0 <= i < j < |r| && r[i].StoreState? && r[j].StoreState? ==> r[i].key < r[j].key
  {
    if !o.selfDestructed {
      var head := RecordWrites(o);
      var storage := StorageWrites(o, SortedKeys(o));
      assert ObjectWrites(o) == head + storage;
      StorageKeysAscending(o);
      RecordWritesNoSlots(o);
      ConcatKeysAscending(head, storage);
    }
  }

  lemma StorageKeysAscending(o: StateObject)
    ensures var st := StorageWrites(o, SortedKeys(o));
      && (forall i :: 0 <= i < |st| ==> st[i].StoreState?)
      && (forall i, j :: 0 <= i < j < |st| ==> st[i].key < st[j].key)
  {
    var keys := SortedKeys(o);
    var st := StorageWrites(o, keys);
    assert StrictlyIncreasing(keys);
    forall i | 0 <= i < |st| ensures st[i].StoreState? {
      assert st[i] in st;
    }
  }

  lemma RecordWritesNoSlots(o: StateObject)
    ensures var head := RecordWrites(o); forall i :: 0 <= i < |head| ==> !head[i].StoreState?
  {
  }

  lemma ConcatKeysAscending(head: seq<Write>, storage: seq<Write>)
    requires forall i :: 0 <= i < |head| ==> !head[i].StoreState?
    requires forall i :: 0 <= i < |storage| ==> storage[i].StoreState?
    requires forall i, j :: 0 <= i < j < |storage| ==> storage[i].key < storage[j].key
    ensures var r := head + storage;
      forall i, j :: 0 <= i < j < |r| && r[i].StoreState? && r[j].StoreState? ==> r[i].key < r[j].key
  {
    var r := head + storage;
    forall i, j | 0 <= i < j < |r| && r[i].StoreState? && r[j].StoreState?
      ensures r[i].key < r[j].key
    {
      assert r[i] == storage[i - |head|] && r[j] == storage[j - |head|];
    }
  }

  /** The writes issued for an object are exactly the ones that belong to it. */
  lemma ObjectWritesMembers(o: StateObject, w: Write)
    ensures w in ObjectWrites(o) <==> ObjectWrite(o, w)
  {
    if !o.selfDestructed {
      var keys := SortedKeys(o);
      var storage := StorageWrites(o, keys);
      assert ObjectWrites(o) == RecordWrites(o) + storage;
      if w.StoreState? {
        StoredSlotMember(o, keys, w);
      } else {
        assert w !in storage;
      }
    }
  }

  lemma StoredSlotMember(o: StateObject, keys: seq<Hash>, w: Write)
    requires w.StoreState? && keys == SortedKeys(o)
    ensures w in StorageWrites(o, keys) <==>
      w.addr == o.address && w.key in o.dirtyStorage && w.value == o.dirtyStorage[w.key]
      && w.value != CommittedStateOf(o, w.key)
  {
    if w.addr == o.address && w.key in o.dirtyStorage && w.value == o.dirtyStorage[w.key]
      && w.value != CommittedStateOf(o, w.key) {
      assert w.key in keys;
      assert w == StoreState(o.address, w.key, o.dirtyStorage[w.key]);
    }
  }

  /** The writes for a list of dirty addresses, one object after the other. */
  function DirtyWrites(s: StateDB, addrs: seq<Address>): (r: seq<Write>)
    requires forall i :: 0 <= i < |addrs| ==> addrs[i] in s.stateObjects
    decreases |addrs|
  {
    if addrs == [] then []
    else ObjectWrites(s.stateObjects[addrs[0]]) + DirtyWrites(s, addrs[1..])
  }

  /** The keeper runs the writes in order and stops at the first failure; the
      failing write is not counted as done. */
  function Issue(ws: seq<Write>, fails: Write -> Option<Error>): (r: (seq<Write>, Option<Error>))
    ensures |r.0| <= |ws| && r.0 == ws[..|r.0|]
    ensures forall i :: 0 <= i < |r.0| ==> !(Fallible(ws[i]) && fails(ws[i]).Some?)
    ensures r.1.None? <==> r.0 == ws
    ensures r.1.Some? ==>
      && |r.0| < |ws| && Fallible(ws[|r.0|]) && fails(ws[|r.0|]).Some?
      && r.1 == Some(WrapError(ws[|r.0|], fails(ws[|r.0|]).value))
    decreases |ws|
  {
    if ws == [] then ([], None)
    else if Fallible(ws[0]) && fails(ws[0]).Some? then ([], Some(WrapError(ws[0], fails(ws[0]).value)))
    else
      var (done, err) := Issue(ws[1..], fails);
      assert ws == [ws[0]] + ws[1..];
      ([ws[0]] + done, err)
  }

  /** What Commit did: the native store written back (if it got that far), the
      events emitted, the keeper writes that went through, and the error. */
  datatype CommitOutcome = CommitOutcome(
    flushed: Option<NativeStore>,
    events: seq<Event>,
    writes: seq<Write>,
    err: Option<Error>)

  /** The dirty addresses in ascending order. */
  function SortedDirties(s: StateDB): (r: seq<Address>)
    ensures StrictlyIncreasing(r)
    ensures forall a :: a in r <==> a in Dirties(s.journal)
  {
    SortedElements(Dirties(s.journal))
  }

  /** All writes Commit would issue without keeper failures. */
  function PlannedWrites(s: StateDB): seq<Write>
    requires Live(s)
  {
    DirtyWrites(s, SortedDirties(s))
  }

  /** `Commit`. A recorded error aborts before anything is written. Otherwise the
      native store is flushed and the native events emitted first, then the
      keeper writes run until one fails. */
  function Commit(s: StateDB, fails: Write -> Option<Error>): (r: CommitOutcome)
    requires Live(s)
    ensures s.err.Some? ==> r.err == s.err && r.writes == [] && r.flushed.None? && r.events == []
    ensures s.err.None? ==> r.flushed == Some(s.native) && r.events == s.nativeEvents
    ensures s.err.None? ==> |r.writes| <= |PlannedWrites(s)| && r.writes == PlannedWrites(s)[..|r.writes|]
    ensures s.err.None? && r.err.None? ==> r.writes == PlannedWrites(s)
    ensures s.err.None? && r.err.Some? ==>
      (|r.writes| < |PlannedWrites(s)| &&
       var w := PlannedWrites(s)[|r.writes|];
       Fallible(w) && fails(w).Some? && r.err == Some(WrapError(w, fails(w).value)))
  {
    if s.err.Some? then CommitOutcome(None, [], [], s.err)
    else
      var (done, err) := Issue(PlannedWrites(s), fails);
      CommitOutcome(Some(s.native), s.nativeEvents, done, err)
  }

  // ---------------------------------------------------------------------------
  // What the writes are

  /** The address a write is about; code is stored by hash and has none. */
  predicate Addressed(w: Write)
  {
    !w.StoreCode?
  }

  /** Writes go by ascending address, and an address's slots by ascending key. */
  predicate Ascending(ws: seq<Write>)
  {
    forall i, j :: 0 <= i < j < |ws| && Addressed(ws[i]) && Addressed(ws[j]) ==>
      ws[i].addr <= ws[j].addr
      && (ws[i].addr == ws[j].addr && ws[i].StoreState? && ws[j].StoreState? ==> ws[i].key < ws[j].key)
  }

  lemma {:induction false} DirtyWritesAddresses(s: StateDB, addrs: seq<Address>)
    requires Keyed(s) && forall i :: 0 <= i < |addrs| ==> addrs[i] in s.stateObjects
    ensures forall w :: w in DirtyWrites(s, addrs) && Addressed(w) ==> w.addr in addrs
    decreases |addrs|
  {
    if addrs != [] {
      DirtyWritesAddresses(s, addrs[1..]);
    }
  }

  /** Writes of one address followed by ascending writes of higher addresses stay ascending. */
  lemma AscendingConcat(head: seq<Write>, tail: seq<Write>, a: Address)
    requires Ascending(head) && Ascending(tail)
    requires forall w :: w in head && Addressed(w) ==> w.addr == a
    requires forall w :: w in tail && Addressed(w) ==> w.addr > a
    ensures Ascending(head + tail)
  {
    var ws := head + tail;
    forall i, j | 0 <= i < j < |ws| && Addressed(ws[i]) && Addressed(ws[j])
      ensures ws[i].addr <= ws[j].addr
      ensures ws[i].addr == ws[j].addr && ws[i].StoreState? && ws[j].StoreState? ==> ws[i].key < ws[j].key
    {
      if j < |head| {
        assert ws[i] == head[i] && ws[j] == head[j];
      } else if i < |head| {
        assert ws[i] in head && ws[j] in tail;
      } else {
        assert ws[i] == tail[i - |head|] && ws[j] == tail[j - |head|];
      }
    }
  }

  lemma {:induction false} DirtyWritesAscending(s: StateDB, addrs: seq<Address>)
    requires Keyed(s) && forall i :: 0 <= i < |addrs| ==> addrs[i] in s.stateObjects
    requires StrictlyIncreasing(addrs)
    ensures Ascending(DirtyWrites(s, addrs))
    decreases |addrs|
  {
    if addrs != [] {
      var a := addrs[0];
      var head := ObjectWrites(s.stateObjects[a]);
      var tail := DirtyWrites(s, addrs[1..]);
      DirtyWritesAscending(s, addrs[1..]);
      DirtyWritesAddresses(s, addrs[1..]);
      ObjectWritesKeysAscending(s.stateObjects[a]);
      assert Ascending(head) by {
        forall i, j | 0 <= i < j < |head| && Addressed(head[i]) && Addressed(head[j])
          ensures head[i].addr == head[j].addr
        {
          assert head[i] in head && head[j] in head;
        }
      }
      forall w | w in tail && Addressed(w) ensures w.addr > a {
        var n :| 0 <= n < |addrs[1..]| && addrs[1..][n] == w.addr;
        assert addrs[0] < addrs[n + 1];
      }
      AscendingConcat(head, tail, a);
    }
  }

  lemma {:induction false} DirtyWritesMembers(s: StateDB, addrs: seq<Address>, w: Write)
    requires Keyed(s) && forall i :: 0 <= i < |addrs| ==> addrs[i] in s.stateObjects
    ensures w in DirtyWrites(s, addrs) <==>
      exists i :: 0 <= i < |addrs| && w in ObjectWrites(s.stateObjects[addrs[i]])
    decreases |addrs|
  {
    if addrs != [] {
      var head := ObjectWrites(s.stateObjects[addrs[0]]);
      var rest := addrs[1..];
      DirtyWritesMembers(s, rest, w);
      assert DirtyWrites(s, addrs) == head + DirtyWrites(s, rest);
      if exists i :: 0 <= i < |addrs| && w in ObjectWrites(s.stateObjects[addrs[i]]) {
        var i :| 0 <= i < |addrs| && w in ObjectWrites(s.stateObjects[addrs[i]]);
        if i > 0 {
          assert addrs[i] == rest[i - 1];
        }
      }
      if w in DirtyWrites(s, rest) {
        var j :| 0 <= j < |rest| && w in ObjectWrites(s.stateObjects[rest[j]]);
        assert addrs[j + 1] == rest[j];
      }
      if w in head {
        assert w in ObjectWrites(s.stateObjects[addrs[0]]);
      }
    }
  }

  /** A successful commit writes by ascending address, and each address's
      slots by ascending key. */
  lemma CommitAscending(s: StateDB, fails: Write -> Option<Error>)
    requires Live(s) && Keyed(s)
    ensures Ascending(Commit(s, fails).writes)
  {
    if s.err.None? {
      DirtyWritesAscending(s, SortedDirties(s));
      AscendingPrefix(PlannedWrites(s), |Commit(s, fails).writes|);
    }
  }

  lemma AscendingPrefix(ws: seq<Write>, n: nat)
    requires Ascending(ws) && n <= |ws|
    ensures Ascending(ws[..n])
  {
    forall i, j | 0 <= i < j < n ensures ws[..n][i] == ws[i] && ws[..n][j] == ws[j] {
    }
  }

  /** A successful commit issues an addressed write exactly when the address
      is dirty and the write belongs to its object. */
  lemma CommitWritesMembers(s: StateDB, fails: Write -> Option<Error>, w: Write)
    requires Live(s) && Keyed(s) && s.err.None? && Commit(s, fails).err.None?
    requires Addressed(w)
    ensures w in Commit(s, fails).writes <==>
      w.addr in Dirties(s.journal) && ObjectWrite(s.stateObjects[w.addr], w)
  {
    var dirty := SortedDirties(s);
    assert Commit(s, fails).writes == DirtyWrites(s, dirty);
    DirtyWritesMembers(s, dirty, w);
    if w in DirtyWrites(s, dirty) {
      var i :| 0 <= i < |dirty| && w in ObjectWrites(s.stateObjects[dirty[i]]);
      ObjectWritesMembers(s.stateObjects[dirty[i]], w);
    }
    if w.addr in Dirties(s.journal) && ObjectWrite(s.stateObjects[w.addr], w) {
      var i :| 0 <= i < |dirty| && dirty[i] == w.addr;
      ObjectWritesMembers(s.stateObjects[w.addr], w);
    }
  }

  /** A successful commit stores exactly the changed slots of the dirty,
      not self-destructed accounts, with their pending values. */
  lemma CommitStorageExact(s: StateDB, fails: Write -> Option<Error>, a: Address, k: Hash, v: Hash)
    requires Live(s) && Keyed(s) && s.err.None? && Commit(s, fails).err.None?
    ensures StoreState(a, k, v) in Commit(s, fails).writes <==>
      && a in Dirties(s.journal)
      && var o := s.stateObjects[a];
      && !o.selfDestructed
      && GetStateOf(o, k) == v
      && v != CommittedStateOf(o, k)
      && k in o.dirtyStorage
  {
    CommitWritesMembers(s, fails, StoreState(a, k, v));
    if a in Dirties(s.journal) {
      assert s.stateObjects[a].address == a;
    }
  }

  /** A successful commit deletes exactly the dirty accounts that self-destructed. */
  lemma CommitDeletesExact(s: StateDB, fails: Write -> Option<Error>, a: Address)
    requires Live(s) && Keyed(s) && s.err.None? && Commit(s, fails).err.None?
    ensures DeleteAccount(a) in Commit(s, fails).writes <==>
      a in Dirties(s.journal) && s.stateObjects[a].selfDestructed
  {
    CommitWritesMembers(s, fails, DeleteAccount(a));
  }

  /** A successful commit writes the account record of exactly the dirty,
      surviving accounts whose code is dirty or whose nonce moved. */
  lemma CommitAccountsExact(s: StateDB, fails: Write -> Option<Error>, a: Address, acct: Account)
    requires Live(s) && Keyed(s) && s.err.None? && Commit(s, fails).err.None?
    ensures StoreAccount(a, acct) in Commit(s, fails).writes <==>
      && a in Dirties(s.journal)
      && var o := s.stateObjects[a];
      && !o.selfDestructed && acct == o.account
      && (o.dirtyCode || o.account.nonce != o.originNonce)
  {
    CommitWritesMembers(s, fails, StoreAccount(a, acct));
  }

  /** `dirtyCode` is a flag every code write sets, the undo of one included:
      after setting and then reverting the code of a loaded account without
      code, Commit writes no code but still rewrites the (unchanged) account
      record. */
  lemma CodeUndoRewritesAccount(s: StateDB, addr: Address, code: seq<uint8>, hash: Hash)
    requires addr !in s.stateObjects && addr in s.backing.accounts
    requires s.backing.accounts[addr].codeHash == EMPTY_CODE_HASH
    ensures var t := SetCode(s, addr, code, hash);
      && |t.journal| > 0
      && var u := RevertEntry(Pop(t), t.journal[|t.journal| - 1]);
      && addr in u.stateObjects
      && u.stateObjects[addr].account == s.backing.accounts[addr]
      && RecordWrites(u.stateObjects[addr]) == [StoreAccount(addr, s.backing.accounts[addr])]
  {
    var t := SetCode(s, addr, code, hash);
    var o := Lookup(s, addr).value;
    assert FetchCode(s.backing, o) == None;
    var u := RevertEntry(Pop(t), t.journal[|t.journal| - 1]);
    assert u.stateObjects[addr] == o.(dirtyCode := true);
  }
}
