/** Snapshot/revert round trip: every journaled operation is undone by
    replaying the journal back to the mark taken before it, and so is any
    sequence of them, nested snapshots and reverts included. */
module RoundTrip {
  import opened Common
  import opened State
  import opened Journal
  import opened Engine
  import opened Revisions

  /** `t` extends `s`'s journal, leaves the revision stack alone, and undoing
      the added entries gives back a state indistinguishable from `s`. */
  ghost predicate Undoes(s: StateDB, t: StateDB)
  {
    && WellFormed(s) && WellFormed(t)
    && |s.journal| <= |t.journal|
    && t.journal[..|s.journal|] == s.journal
    && t.validRevisions == s.validRevisions
    && t.nextRevisionId == s.nextRevisionId
    && SameView(RevertJournal(t, |s.journal|), s)
  }

  lemma UndoesRefl(s: StateDB)
    requires WellFormed(s)
    ensures Undoes(s, s)
  {
    assert s.journal[..|s.journal|] == s.journal;
    SameViewRefl(s);
  }

  /** A change outside the journal that the view cannot see is undone by nothing. */
  lemma UndoesInvisible(s: StateDB, t: StateDB)
    requires WellFormed(s) && SameView(t, s) && t.journal == s.journal
    requires t.validRevisions == s.validRevisions && t.nextRevisionId == s.nextRevisionId
    ensures Undoes(s, t)
  {
    assert s.journal[..|s.journal|] == s.journal;
  }

  lemma {:induction false} UndoesCompose(s: StateDB, u: StateDB, t: StateDB)
    requires Undoes(s, u) && Undoes(u, t)
    ensures Undoes(s, t)
  {
    var m, k := |s.journal|, |u.journal|;
    RevertJournalSplit(t, m, k);
    var x := RevertJournal(t, k);
    assert x.journal == u.journal;
    RevertJournalRespectsView(x, u, m);
    SameViewTrans(RevertJournal(x, m), RevertJournal(u, m), s);
    assert t.journal[..m] == t.journal[..k][..m];
  }

  /** One appended entry whose undo restores the view. */
  lemma {:induction false} UndoesOne(s: StateDB, t: StateDB)
    requires WellFormed(s) && WellFormed(t)
    requires |t.journal| == |s.journal| + 1 && t.journal[..|s.journal|] == s.journal
    requires t.validRevisions == s.validRevisions && t.nextRevisionId == s.nextRevisionId
    requires Revertible(Pop(t), t.journal[|s.journal|])
    requires SameView(RevertEntry(Pop(t), t.journal[|s.journal|]), s)
    ensures Undoes(s, t)
  {
    var x := RevertEntry(Pop(t), t.journal[|s.journal|]);
    assert RevertJournal(t, |s.journal|) == RevertJournal(x, |s.journal|);
    assert RevertJournal(x, |s.journal|) == x;
  }

  /** Appending entries that are neither logs nor native changes, with logs and
      native events untouched, keeps the state well-formed. */
  lemma WellFormedAppend(s: StateDB, t: StateDB, k: seq<JournalEntry>)
    requires WellFormed(s) && t.journal == s.journal + k
    requires LogEntries(k) == 0 && NativeEntryEvents(k) == 0
    requires t.logs == s.logs && t.nativeEvents == s.nativeEvents
    ensures WellFormed(t)
  {
    CountsAppend(s.journal, k);
  }

  lemma OneEntryCounts(e: JournalEntry)
    ensures LogEntries([e]) == (if e.AddLogChange? then 1 else 0)
    ensures NativeEntryEvents([e]) == (if e.NativeChange? then e.events else 0)
  {
    assert [e][..0] == [];
  }

  /** Equal lookups and equal non-object fields make indistinguishable states. */
  lemma SameViewByLookup(s: StateDB, t: StateDB)
    requires s.backing == t.backing && s.txConfig == t.txConfig && s.refund == t.refund
    requires s.logs == t.logs && s.accessList == t.accessList && s.transientStorage == t.transientStorage
    requires s.native == t.native && s.nativeEvents == t.nativeEvents
    requires forall a :: Lookup(s, a) == Lookup(t, a)
    ensures SameView(s, t)
  {
    forall a ensures SameOptObject(s.backing, Lookup(s, a), Lookup(t, a)) {
      assert Lookup(s, a) == Lookup(t, a);
    }
  }

  // ---------------------------------------------------------------------------
  // State objects

  lemma UndoGetStateObject(s: StateDB, addr: Address)
    requires WellFormed(s)
    ensures Undoes(s, GetStateObject(s, addr).1)
  {
    var t := GetStateObject(s, addr).1;
    SameViewByLookup(t, s);
    UndoesInvisible(s, t);
  }

  lemma UndoCreateObject(s: StateDB, addr: Address)
    requires WellFormed(s)
    ensures Undoes(s, CreateObject(s, addr).1)
  {
    var t := CreateObject(s, addr).1;
    var e := t.journal[|s.journal|];
    OneEntryCounts(e);
    WellFormedAppend(s, t, [e]);
    assert t.journal[..|s.journal|] == s.journal;
    var x := RevertEntry(Pop(t), e);
    assert Pop(t).journal == s.journal;
    forall a ensures Lookup(x, a) == Lookup(s, a) {
      if a != addr {
        assert Lookup(x, a) == Lookup(t, a);
      }
    }
    SameViewByLookup(x, s);
    UndoesOne(s, t);
  }

  lemma UndoGetOrNew(s: StateDB, addr: Address)
    requires WellFormed(s)
    ensures Undoes(s, GetOrNewStateObject(s, addr).1)
  {
    var s1 := GetStateObject(s, addr).1;
    UndoGetStateObject(s, addr);
    if GetStateObject(s, addr).0.None? {
      UndoCreateObject(s1, addr);
      UndoesCompose(s, s1, CreateObject(s1, addr).1);
    }
  }

  /** One more entry that rewrites a field of a resolved object and whose undo
      restores the field. */
  lemma {:induction false} UndoFieldWrite(s: StateDB, addr: Address, o: StateObject, e: JournalEntry, t: StateDB)
    requires WellFormed(s) && Lookup(s, addr) == Some(o)
    requires !e.AddLogChange? && !e.NativeChange? && !e.TransientStorageChange?
    requires t.journal == s.journal + [e]
    requires t == s.(stateObjects := t.stateObjects, journal := t.journal)
    requires Revertible(Pop(t), e)
    requires RevertEntry(Pop(t), e) == Pop(t).(stateObjects := RevertEntry(Pop(t), e).stateObjects)
    requires SameOptObject(s.backing, Lookup(RevertEntry(Pop(t), e), addr), Some(o))
    requires forall a :: a != addr ==> Lookup(RevertEntry(Pop(t), e), a) == Lookup(s, a)
    ensures Undoes(s, t)
  {
    OneEntryCounts(e);
    WellFormedAppend(s, t, [e]);
    assert t.journal[..|s.journal|] == s.journal;
    var x := RevertEntry(Pop(t), e);
    forall a ensures SameOptObject(s.backing, Lookup(x, a), Lookup(s, a)) {
      if a != addr {
        SameObjectRefl(s.backing, Lookup(s, a));
      }
    }
    UndoesOne(s, t);
  }

  lemma SameObjectRefl(b: Backing, o: Option<StateObject>)
    ensures SameOptObject(b, o, o)
  {
  }

  lemma UndoSetNonce(s: StateDB, addr: Address, nonce: uint64)
    requires WellFormed(s)
    ensures Undoes(s, SetNonce(s, addr, nonce))
  {
    var (o, s1) := GetOrNewStateObject(s, addr);
    var e := NonceChange(addr, o.account.nonce);
    var t := SetNonce(s, addr, nonce);
    assert t == PutObject(s1.(journal := s1.journal + [e]), addr, o.(account := o.account.(nonce := nonce)));
    assert RevertEntry(Pop(t), e).stateObjects[addr] == o;
    UndoGetOrNew(s, addr);
    UndoFieldWrite(s1, addr, o, e, t);
    UndoesCompose(s, s1, t);
  }

  lemma UndoSetCode(s: StateDB, addr: Address, code: seq<uint8>, hash: Hash)
    requires WellFormed(s)
    ensures Undoes(s, SetCode(s, addr, code, hash))
  {
    var (o, s1) := GetOrNewStateObject(s, addr);
    var e := CodeChange(addr, FetchCode(s.backing, o), o.account.codeHash);
    var t := SetCode(s, addr, code, hash);
    assert t == PutObject(s1.(journal := s1.journal + [e]), addr,
                          o.(code := Some(code), account := o.account.(codeHash := hash), dirtyCode := true));
    var o' := RevertEntry(Pop(t), e).stateObjects[addr];
    assert o' == o.(code := FetchCode(s.backing, o), dirtyCode := true);
    forall k ensures GetStateOf(o', k) == GetStateOf(o, k) {}
    UndoGetOrNew(s, addr);
    UndoFieldWrite(s1, addr, o, e, t);
    UndoesCompose(s, s1, t);
  }

  lemma UndoSetState(s: StateDB, addr: Address, key: Hash, value: Hash)
    requires WellFormed(s)
    ensures Undoes(s, SetState(s, addr, key, value))
  {
    var (o, s1) := GetOrNewStateObject(s, addr);
    var t := SetState(s, addr, key, value);
    if GetStateOf(o, key) == value {
      UndoGetOrNew(s, addr);
    } else {
      var e := StorageChange(addr, key, GetStateOf(o, key));
      assert t == PutObject(s1.(journal := s1.journal + [e]), addr, o.(dirtyStorage := o.dirtyStorage[key := value]));
      var o' := RevertEntry(Pop(t), e).stateObjects[addr];
      assert o' == o.(dirtyStorage := o.dirtyStorage[key := value][key := GetStateOf(o, key)]);
      forall k ensures GetStateOf(o', k) == GetStateOf(o, k) {}
      UndoGetOrNew(s, addr);
      UndoFieldWrite(s1, addr, o, e, t);
      UndoesCompose(s, s1, t);
    }
  }

  // ---------------------------------------------------------------------------
  // Refund, logs, transient storage, access list

  /** A single appended entry outside the object map. */
  lemma UndoPlain(s: StateDB, t: StateDB, e: JournalEntry)
    requires WellFormed(s) && WellFormed(t)
    requires t.journal == s.journal + [e]
    requires t.validRevisions == s.validRevisions && t.nextRevisionId == s.nextRevisionId
    requires t.stateObjects == s.stateObjects && t.backing == s.backing
    requires Revertible(Pop(t), e)
    requires var x := RevertEntry(Pop(t), e);
      x.refund == s.refund && x.logs == s.logs && x.accessList == s.accessList
      && x.transientStorage == s.transientStorage && x.native == s.native && x.nativeEvents == s.nativeEvents
      && x.stateObjects == s.stateObjects && x.txConfig == s.txConfig
    ensures Undoes(s, t)
  {
    assert t.journal[..|s.journal|] == s.journal;
    var x := RevertEntry(Pop(t), e);
    SameViewByLookup(x, s);
    UndoesOne(s, t);
  }

  lemma UndoAddRefund(s: StateDB, gas: uint64)
    requires WellFormed(s)
    ensures Undoes(s, AddRefund(s, gas))
  {
    var e := RefundChange(s.refund);
    OneEntryCounts(e);
    WellFormedAppend(s, AddRefund(s, gas), [e]);
    UndoPlain(s, AddRefund(s, gas), e);
  }

  lemma UndoSubRefund(s: StateDB, gas: uint64)
    requires WellFormed(s) && gas <= s.refund
    ensures Undoes(s, SubRefund(s, gas))
  {
    var e := RefundChange(s.refund);
    OneEntryCounts(e);
    WellFormedAppend(s, SubRefund(s, gas), [e]);
    UndoPlain(s, SubRefund(s, gas), e);
  }

  lemma UndoAddLog(s: StateDB, log: Log)
    requires WellFormed(s)
    ensures Undoes(s, AddLog(s, log))
  {
    var t := AddLog(s, log);
    OneEntryCounts(AddLogChange);
    CountsAppend(s.journal, [AddLogChange]);
    UndoPlain(s, t, AddLogChange);
  }

  lemma UndoSetTransientState(s: StateDB, addr: Address, key: Hash, value: Hash)
    requires WellFormed(s)
    ensures Undoes(s, SetTransientState(s, addr, key, value))
  {
    var t := SetTransientState(s, addr, key, value);
    if GetTransient(s, addr, key) == value {
      UndoesRefl(s);
    } else {
      var e := TransientStorageChange(addr, key, GetTransient(s, addr, key));
      OneEntryCounts(e);
      WellFormedAppend(s, t, [e]);
      assert t.journal[..|s.journal|] == s.journal;
      var x := RevertEntry(Pop(t), e);
      forall a, k ensures GetTransient(x, a, k) == GetTransient(s, a, k) {}
      assert SameView(x, s) by {
        forall a ensures SameOptObject(s.backing, Lookup(x, a), Lookup(s, a)) {
          assert Lookup(x, a) == Lookup(s, a);
        }
      }
      UndoesOne(s, t);
    }
  }

  lemma UndoAddAddress(s: StateDB, addr: Address)
    requires WellFormed(s)
    ensures Undoes(s, AddAddressToAccessList(s, addr))
  {
    var t := AddAddressToAccessList(s, addr);
    if addr in s.accessList.addresses {
      UndoesRefl(s);
    } else {
      var e := AccessListAddAccountChange(addr);
      OneEntryCounts(e);
      WellFormedAppend(s, t, [e]);
      UndoPlain(s, t, e);
    }
  }

  lemma UndoAddSlot(s: StateDB, addr: Address, slot: Hash)
    requires WellFormed(s)
    ensures Undoes(s, AddSlotToAccessList(s, addr, slot))
  {
    var t := AddSlotToAccessList(s, addr, slot);
    var s1 := if addr in s.accessList.addresses then s else AddAddressToAccessList(s, addr);
    UndoAddAddress(s, addr);
    if addr !in s.accessList.addresses {
      assert s1.journal == s.journal + [AccessListAddAccountChange(addr)];
    }
    if (addr, slot) in s.accessList.slots {
      assert t == s1.(accessList := t.accessList);
      assert t.accessList.slots == s1.accessList.slots;
      assert t == s1;
      UndoesCompose(s, s1, s1);
    } else {
      var e := AccessListAddSlotChange(addr, slot);
      assert t.journal == s1.journal + [e];
      OneEntryCounts(e);
      WellFormedAppend(s1, t, [e]);
      UndoPlain(s1, t, e);
      UndoesCompose(s, s1, t);
    }
  }

  // ---------------------------------------------------------------------------
  // Native actions

  /** Undoing a suffix of `AddLogChange` entries drops exactly that many logs. */
  lemma {:induction false} DropLogs(t: StateDB, m: nat)
    requires WellFormed(t) && m <= |t.journal|
    requires forall i :: m <= i < |t.journal| ==> t.journal[i] == AddLogChange
    ensures |t.journal| - m <= |t.logs|
    ensures RevertJournal(t, m) == t.(journal := t.journal[..m], logs := t.logs[..|t.logs| - (|t.journal| - m)])
    decreases |t.journal|
  {
    if |t.journal| == m {
      assert t.logs[..|t.logs|] == t.logs;
      assert t.journal[..m] == t.journal;
    } else {
      PopWellFormed(t);
      var x := RevertEntry(Pop(t), AddLogChange);
      DropLogs(x, m);
      assert t.journal[..|t.journal| - 1][..m] == t.journal[..m];
    }
  }

  lemma {:induction false} EmitCounts(s: StateDB, contract: Address, converter: Option<Event -> Option<Log>>, events: seq<Event>)
    ensures var t := EmitNativeEvents(s, contract, converter, events);
      LogEntries(t.journal) == LogEntries(s.journal) + (|t.logs| - |s.logs|)
      && NativeEntryEvents(t.journal) == NativeEntryEvents(s.journal)
    decreases |events|
  {
    if converter.Some? && events != [] {
      var s1 := match converter.value(events[0])
        case None => s
        case Some(log) => AddLog(s, log.(address := contract));
      if converter.value(events[0]).Some? {
        OneEntryCounts(AddLogChange);
        CountsAppend(s.journal, [AddLogChange]);
      }
      EmitCounts(s1, contract, converter, events[1..]);
    }
  }

  /** A successful native action is undone exactly; a failed one changed nothing. */
  lemma UndoNativeAction(s: StateDB, contract: Address, converter: Option<Event -> Option<Log>>,
                         action: NativeStore -> ActionOutcome)
    requires WellFormed(s)
    ensures Undoes(s, ExecuteNativeAction(s, contract, converter, action).0)
    ensures RevertJournal(ExecuteNativeAction(s, contract, converter, action).0, |s.journal|) == s
  {
    var t := ExecuteNativeAction(s, contract, converter, action).0;
    if action(s.native).ActionFailed? {
      UndoesRefl(s);
    } else {
      var events := action(s.native).events;
      var s1 := EmitNativeEvents(s, contract, converter, events);
      EmitCounts(s, contract, converter, events);
      var e := NativeChange(s.native, |events|);
      assert t.journal == s1.journal + [e];
      OneEntryCounts(e);
      CountsAppend(s1.journal, [e]);
      assert WellFormed(t);
      PopWellFormed(t);
      var x := RevertEntry(Pop(t), e);
      assert x.nativeEvents == s.nativeEvents;
      assert x == s1;
      assert RevertJournal(t, |s1.journal|) == x;
      RevertJournalSplit(t, |s.journal|, |s1.journal|);
      assert WellFormed(s1);
      DropLogs(s1, |s.journal|);
      assert s1.journal[..|s.journal|] == s.journal;
      assert s1.logs[..|s.logs|] == s.logs;
      assert t.journal[..|s.journal|] == s.journal;
      SameViewRefl(s);
    }
  }

  lemma UndoRecordErr(s: StateDB, t: StateDB, err: Option<Error>)
    requires Undoes(s, t)
    ensures Undoes(s, RecordErr(t, err))
  {
    var t' := RecordErr(t, err);
    SameViewByLookup(t', t);
    UndoesInvisible(t, t');
    UndoesCompose(s, t, t');
  }

  lemma UndoAddBalance(s: StateDB, addr: Address, amount: int, refusal: Option<Error>)
    requires WellFormed(s)
    ensures Undoes(s, AddBalance(s, addr, amount, refusal))
  {
    if amount <= 0 {
      UndoesRefl(s);
    } else {
      var action := (n: NativeStore) => BankCredit(n, addr, amount, refusal);
      var (s1, err) := ExecuteNativeAction(s, 0, None, action);
      UndoNativeAction(s, 0, None, action);
      UndoRecordErr(s, s1, err);
    }
  }

  lemma UndoSubBalance(s: StateDB, addr: Address, amount: int, refusal: Option<Error>)
    requires WellFormed(s)
    ensures Undoes(s, SubBalance(s, addr, amount, refusal))
  {
    if amount <= 0 {
      UndoesRefl(s);
    } else {
      var action := (n: NativeStore) => BankDebit(n, addr, amount, refusal);
      var (s1, err) := ExecuteNativeAction(s, 0, None, action);
      UndoNativeAction(s, 0, None, action);
      UndoRecordErr(s, s1, err);
    }
  }

  lemma UndoSelfDestruct(s: StateDB, addr: Address, refusal: Option<Error>)
    requires WellFormed(s)
    ensures Undoes(s, SelfDestruct(s, addr, refusal))
  {
    var (o, s1) := GetStateObject(s, addr);
    UndoGetStateObject(s, addr);
    if o.Some? {
      var e := SelfDestructChange(addr, o.value.selfDestructed);
      var s2 := PutObject(s1.(journal := s1.journal + [e]), addr, o.value.(selfDestructed := true));
      OneEntryCounts(e);
      WellFormedAppend(s1, s2, [e]);
      assert s2.journal[..|s1.journal|] == s1.journal;
      var x := RevertEntry(Pop(s2), e);
      forall a ensures Lookup(x, a) == Lookup(s1, a) {
        if a != addr {
          assert Lookup(x, a) == Lookup(s2, a);
        }
      }
      SameViewByLookup(x, s1);
      UndoesOne(s1, s2);
      UndoesCompose(s, s1, s2);
      UndoSubBalance(s2, addr, GetBalance(s2, addr), refusal);
      UndoesCompose(s, s2, SubBalance(s2, addr, GetBalance(s2, addr), refusal));
    }
  }

  lemma UndoSelfdestruct6780(s: StateDB, addr: Address, refusal: Option<Error>)
    requires WellFormed(s)
    ensures Undoes(s, Selfdestruct6780(s, addr, refusal))
  {
    var (o, s1) := GetStateObject(s, addr);
    UndoGetStateObject(s, addr);
    if o.Some? && o.value.created {
      UndoSelfDestruct(s1, addr, refusal);
      UndoesCompose(s, s1, SelfDestruct(s1, addr, refusal));
    }
  }

  /** `Prepare` writes nothing to the journal, so no revert undoes it: a
      transient slot it clears stays cleared. */
  lemma PrepareNotUndone(s: StateDB, rules: Rules, sender: Address, coinbase: Address, dst: Option<Address>,
                         precompiles: seq<Address>, list: seq<AccessTuple>, a: Address, k: Hash)
    requires WellFormed(s) && GetTransient(s, a, k) != 0
    ensures var r := Prepare(s, rules, sender, coinbase, dst, precompiles, list);
      r.journal == s.journal && !Undoes(s, r)
  {
    var r := Prepare(s, rules, sender, coinbase, dst, precompiles, list);
    assert GetTransient(r, a, k) == 0;
    if WellFormed(r) {
      assert RevertJournal(r, |s.journal|) == r;
    }
  }
}
