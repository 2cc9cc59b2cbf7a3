/** What every reachable StateDB satisfies: live objects sit under their own
    address, every dirty address has a live object (so Commit can read it),
    and the journal only records creations of addresses nothing touched
    before. Also: a recorded error survives every later operation and revert. */
module Invariants {
  import opened Common
  import opened State
  import opened Journal
  import opened Engine
  import opened Revisions
  import opened Replay
  import opened Committing

  /** An entry is consistent with the journal before it: a creation is of an
      address no earlier entry dirtied (the object did not exist), and a reset
      restores an object of the same address. */
  ghost predicate EntryOk(prefix: seq<JournalEntry>, e: JournalEntry)
  {
    match e
    case CreateObjectChange(a) => a !in Dirties(prefix)
    case ResetObjectChange(a, prev) => prev.address == a
    case _ => true
  }

  ghost predicate JournalSound(j: seq<JournalEntry>)
  {
    forall i :: 0 <= i < |j| ==> EntryOk(j[..i], j[i])
  }

  ghost predicate Sound(s: StateDB)
  {
    Keyed(s) && Live(s) && JournalSound(s.journal)
  }

  /** An entry that neither creates, resets nor dirties an object. */
  predicate Plain(e: JournalEntry)
  {
    !e.CreateObjectChange? && !e.ResetObjectChange? && Dirtied(e).None?
  }

  // ---------------------------------------------------------------------------
  // Journal helpers

  lemma JournalSoundPrefix(j: seq<JournalEntry>, m: nat)
    requires JournalSound(j) && m <= |j|
    ensures JournalSound(j[..m])
  {
    forall i | 0 <= i < m ensures EntryOk(j[..m][..i], j[..m][i]) {
      assert j[..m][..i] == j[..i];
    }
  }

  lemma JournalSoundAppend(j: seq<JournalEntry>, e: JournalEntry)
    requires JournalSound(j) && EntryOk(j, e)
    ensures JournalSound(j + [e])
  {
    forall i | 0 <= i < |j| + 1 ensures EntryOk((j + [e])[..i], (j + [e])[i]) {
      if i < |j| {
        assert (j + [e])[..i] == j[..i];
      } else {
        assert (j + [e])[..i] == j;
      }
    }
  }

  /** Appending plain entries keeps the journal sound and the dirty set. */
  lemma PlainAppend(j: seq<JournalEntry>, k: seq<JournalEntry>)
    requires JournalSound(j)
    requires forall i :: 0 <= i < |k| ==> Plain(k[i])
    ensures JournalSound(j + k)
    ensures Dirties(j + k) == Dirties(j)
  {
    forall i | 0 <= i < |j + k| ensures EntryOk((j + k)[..i], (j + k)[i]) {
      if i < |j| {
        assert (j + k)[..i] == j[..i];
      } else {
        assert Plain(k[i - |j|]);
      }
    }
    DirtiesAppend(j, k);
    assert Dirties(k) == {};
  }

  /** A keyed state resolves every address to an object of that address. */
  lemma LookupKeyed(s: StateDB, a: Address)
    requires Keyed(s)
    ensures Lookup(s, a).Some? ==> Lookup(s, a).value.address == a
  {
  }

  /** A change that only appends plain entries and keeps the live objects keeps soundness. */
  lemma PlainStep(s: StateDB, r: StateDB)
    requires Sound(s)
    requires r.stateObjects == s.stateObjects
    requires |s.journal| <= |r.journal| && r.journal[..|s.journal|] == s.journal
    requires forall i :: |s.journal| <= i < |r.journal| ==> Plain(r.journal[i])
    ensures Sound(r)
  {
    var k := r.journal[|s.journal|..];
    assert r.journal == s.journal + k;
    PlainAppend(s.journal, k);
  }

  // ---------------------------------------------------------------------------
  // Object operations

  lemma GetStateObjectSound(s: StateDB, a: Address)
    requires Sound(s)
    ensures var r := GetStateObject(s, a);
      Sound(r.1) && s.stateObjects.Keys <= r.1.stateObjects.Keys
      && (r.0.Some? ==> r.0.value.address == a)
  {
    LookupKeyed(s, a);
  }

  lemma CreateObjectSound(s: StateDB, a: Address)
    requires Sound(s)
    ensures var r := CreateObject(s, a);
      Sound(r.1) && s.stateObjects.Keys <= r.1.stateObjects.Keys && a in r.1.stateObjects
  {
    GetStateObjectSound(s, a);
    var s1 := GetStateObject(s, a).1;
    var prev := GetStateObject(s, a).0;
    var entry := if prev.None? then CreateObjectChange(a) else ResetObjectChange(a, prev.value);
    assert prev.None? ==> a !in s1.stateObjects;
    JournalSoundAppend(s1.journal, entry);
    DirtiesAppend(s1.journal, [entry]);
  }

  lemma GetOrNewSound(s: StateDB, a: Address)
    requires Sound(s)
    ensures var r := GetOrNewStateObject(s, a);
      Sound(r.1) && s.stateObjects.Keys <= r.1.stateObjects.Keys && a in r.1.stateObjects
      && r.0.address == a
  {
    GetStateObjectSound(s, a);
    var (o, s1) := GetStateObject(s, a);
    if o.None? {
      CreateObjectSound(s1, a);
    }
  }

  /** Recording one entry about an object that is live and stays live. */
  lemma ObjectStep(s: StateDB, a: Address, e: JournalEntry, o: StateObject)
    requires Sound(s) && a in s.stateObjects && o.address == a
    requires Dirtied(e) == Some(a) && !e.CreateObjectChange? && !e.ResetObjectChange?
    ensures var r := PutObject(s.(journal := s.journal + [e]), a, o);
      Sound(r) && s.stateObjects.Keys <= r.stateObjects.Keys
  {
    JournalSoundAppend(s.journal, e);
    DirtiesAppend(s.journal, [e]);
  }

  lemma SetNonceSound(s: StateDB, a: Address, n: uint64)
    requires Sound(s)
    ensures Sound(SetNonce(s, a, n)) && s.stateObjects.Keys <= SetNonce(s, a, n).stateObjects.Keys
  {
    GetOrNewSound(s, a);
    var (o, s1) := GetOrNewStateObject(s, a);
    ObjectStep(s1, a, NonceChange(a, o.account.nonce), o.(account := o.account.(nonce := n)));
  }

  lemma SetCodeSound(s: StateDB, a: Address, code: seq<uint8>, hash: Hash)
    requires Sound(s)
    ensures Sound(SetCode(s, a, code, hash)) && s.stateObjects.Keys <= SetCode(s, a, code, hash).stateObjects.Keys
  {
    GetOrNewSound(s, a);
    var (o, s1) := GetOrNewStateObject(s, a);
    ObjectStep(s1, a, CodeChange(a, FetchCode(s.backing, o), o.account.codeHash),
               o.(code := Some(code), account := o.account.(codeHash := hash), dirtyCode := true));
  }

  lemma SetStateSound(s: StateDB, a: Address, k: Hash, v: Hash)
    requires Sound(s)
    ensures Sound(SetState(s, a, k, v)) && s.stateObjects.Keys <= SetState(s, a, k, v).stateObjects.Keys
  {
    GetOrNewSound(s, a);
    var (o, s1) := GetOrNewStateObject(s, a);
    var prev := GetStateOf(o, k);
    if prev != v {
      ObjectStep(s1, a, StorageChange(a, k, prev), o.(dirtyStorage := o.dirtyStorage[k := v]));
    }
  }

  // ---------------------------------------------------------------------------
  // Native actions and balances

  lemma NativeActionSound(s: StateDB, c: Address, conv: Option<Event -> Option<Log>>, act: NativeStore -> ActionOutcome)
    requires Sound(s)
    ensures Sound(ExecuteNativeAction(s, c, conv, act).0)
  {
    var r := ExecuteNativeAction(s, c, conv, act).0;
    if act(s.native).ActionDone? {
      PlainStep(s, r);
    }
  }

  lemma AddBalanceSound(s: StateDB, a: Address, x: int, e: Option<Error>)
    requires Sound(s)
    ensures Sound(AddBalance(s, a, x, e)) && AddBalance(s, a, x, e).stateObjects == s.stateObjects
  {
    if x > 0 {
      NativeActionSound(s, 0, None, (n: NativeStore) => BankCredit(n, a, x, e));
    }
  }

  lemma SubBalanceSound(s: StateDB, a: Address, x: int, e: Option<Error>)
    requires Sound(s)
    ensures Sound(SubBalance(s, a, x, e)) && SubBalance(s, a, x, e).stateObjects == s.stateObjects
  {
    if x > 0 {
      NativeActionSound(s, 0, None, (n: NativeStore) => BankDebit(n, a, x, e));
    }
  }

  lemma SelfDestructSound(s: StateDB, a: Address, e: Option<Error>)
    requires Sound(s)
    ensures Sound(SelfDestruct(s, a, e))
  {
    GetStateObjectSound(s, a);
    var (o, s1) := GetStateObject(s, a);
    if o.Some? {
      ObjectStep(s1, a, SelfDestructChange(a, o.value.selfDestructed), o.value.(selfDestructed := true));
      var s2 := PutObject(s1.(journal := s1.journal + [SelfDestructChange(a, o.value.selfDestructed)]),
                          a, o.value.(selfDestructed := true));
      SubBalanceSound(s2, a, GetBalance(s2, a), e);
    }
  }

  lemma Selfdestruct6780Sound(s: StateDB, a: Address, e: Option<Error>)
    requires Sound(s)
    ensures Sound(Selfdestruct6780(s, a, e))
  {
    GetStateObjectSound(s, a);
    var (o, s1) := GetStateObject(s, a);
    if o.Some? && o.value.created {
      SelfDestructSound(s1, a, e);
    }
  }

  // ---------------------------------------------------------------------------
  // Revert

  /** Undoing the newest entry keeps soundness: a creation's undo removes an
      object no remaining entry dirties, every other undo keeps or restores
      objects of the right address. */
  lemma PopSound(s: StateDB)
    requires WellFormed(s) && Sound(s) && |s.journal| > 0
    ensures Sound(RevertEntry(Pop(s), s.journal[|s.journal| - 1]))
  {
    var n := |s.journal| - 1;
    var e := s.journal[n];
    var p := Pop(s);
    PopWellFormed(s);
    var r := RevertEntry(p, e);
    JournalSoundPrefix(s.journal, n);
    assert EntryOk(s.journal[..n], e);
    assert s.journal == p.journal + [e];
    DirtiesAppend(p.journal, [e]);
    if Dirtied(e).Some? {
      LookupKeyed(p, Dirtied(e).value);
    }
  }

  /** Undoing the journal down to any mark keeps soundness. */
  lemma {:induction false} RevertJournalSound(s: StateDB, mark: nat)
    requires WellFormed(s) && Sound(s) && mark <= |s.journal|
    ensures Sound(RevertJournal(s, mark))
    decreases |s.journal|
  {
    if |s.journal| != mark {
      PopSound(s);
      PopWellFormed(s);
      RevertJournalSound(RevertEntry(Pop(s), s.journal[|s.journal| - 1]), mark);
    }
  }

  // ---------------------------------------------------------------------------
  // Whole runs

  /** Every operation, Snapshot and RevertToSnapshot included, keeps soundness. */
  lemma ApplySound(s: StateDB, op: Op)
    requires WellFormed(s) && RevisionsOk(s) && Allowed(s, op) && Sound(s)
    ensures Sound(Apply(s, op))
  {
    if op.RevertOp? {
      RevertJournalSound(s, RevisionMark(s, op.revid));
    } else if op.SnapshotOp? {
    } else if IsObjectOp(op) {
      ObjectOpSound(s, op);
    } else {
      OtherOpSound(s, op);
    }
  }

  lemma ObjectOpSound(s: StateDB, op: Op)
    requires WellFormed(s) && IsObjectOp(op) && Sound(s)
    ensures Sound(ApplyObjectOp(s, op))
  {
    match op
    case LoadOp(a) => GetStateObjectSound(s, a);
    case CreateAccountOp(a) => CreateObjectSound(s, a);
    case SetNonceOp(a, n) => SetNonceSound(s, a, n);
    case SetCodeOp(a, c, h) => SetCodeSound(s, a, c, h);
    case SetStateOp(a, k, v) => SetStateSound(s, a, k, v);
    case SelfDestructOp(a, e) => SelfDestructSound(s, a, e);
    case Selfdestruct6780Op(a, e) => Selfdestruct6780Sound(s, a, e);
  }

  lemma OtherOpSound(s: StateDB, op: Op)
    requires WellFormed(s) && Allowed(s, op) && !IsObjectOp(op) && !op.SnapshotOp? && !op.RevertOp? && Sound(s)
    ensures Sound(ApplyOtherOp(s, op))
  {
    match op
    case AddRefundOp(g) => PlainStep(s, AddRefund(s, g));
    case SubRefundOp(g) => PlainStep(s, SubRefund(s, g));
    case AddLogOp(l) => PlainStep(s, AddLog(s, l));
    case NativeActionOp(c, conv, act) => NativeActionSound(s, c, conv, act);
    case AddBalanceOp(a, x, e) => AddBalanceSound(s, a, x, e);
    case SubBalanceOp(a, x, e) => SubBalanceSound(s, a, x, e);
    case SetTransientStateOp(a, k, v) => PlainStep(s, SetTransientState(s, a, k, v));
    case AddAddressOp(a) => PlainStep(s, AddAddressToAccessList(s, a));
    case AddSlotOp(a, k) => PlainStep(s, AddSlotToAccessList(s, a, k));
  }

  lemma {:induction false} ApplyAllSound(s: StateDB, ops: seq<Op>)
    requires WellFormed(s) && RevisionsOk(s) && ValidRun(s, ops) && Sound(s)
    ensures Sound(ApplyAll(s, ops))
    decreases |ops|
  {
    if ops != [] {
      ApplySound(s, ops[0]);
      ApplyAllSound(Apply(s, ops[0]), ops[1..]);
    }
  }

  /** Commit's precondition holds after any run from a fresh StateDB: every
      dirty address has a live object, keyed by its own address. */
  lemma CommitReady(backing: Backing, native: NativeStore, txConfig: TxConfig, ops: seq<Op>)
    requires ValidRun(NewStateDB(backing, native, txConfig), ops)
    ensures var r := ApplyAll(NewStateDB(backing, native, txConfig), ops);
      Live(r) && Keyed(r)
  {
    ApplyAllSound(NewStateDB(backing, native, txConfig), ops);
  }

  // ---------------------------------------------------------------------------
  // The recorded error

  /** The error a call hands back from the bank keeper, none when it has none:
      a credit or debit of a positive amount that the keeper refuses, or the
      balance-clearing debit of a self-destruct. */
  function CallError(s: StateDB, op: Op): Option<Error>
  {
    match op
    case AddBalanceOp(_, x, e) => if x > 0 then e else None
    case SubBalanceOp(a, x, e) => if x > 0 then DebitFailure(s.native, a, x, e) else None
    case SelfDestructOp(a, e) => if Lookup(s, a).Some? && GetBalance(s, a) > 0 then e else None
    case Selfdestruct6780Op(a, e) =>
      if Lookup(s, a).Some? && Lookup(s, a).value.created && GetBalance(s, a) > 0 then e else None
    case _ => None
  }

  /** `s.err = err`: the recorded error changes only under a balance credit,
      debit or self-destruct whose bank call fails, and then to that call's
      error, over any earlier one; every other operation, reverts included,
      leaves it alone. */
  lemma ApplyErr(s: StateDB, op: Op)
    requires WellFormed(s) && RevisionsOk(s) && Allowed(s, op)
    ensures Apply(s, op).err == (if CallError(s, op).Some? then CallError(s, op) else s.err)
    ensures s.err.Some? ==> Apply(s, op).err.Some?
  {
    if IsObjectOp(op) && !op.SnapshotOp? && !op.RevertOp? {
      ObjectOpErr(s, op);
    }
  }

  lemma ObjectOpErr(s: StateDB, op: Op)
    requires WellFormed(s) && IsObjectOp(op)
    ensures ApplyObjectOp(s, op).err == (if CallError(s, op).Some? then CallError(s, op) else s.err)
  {
    match op
    case SelfDestructOp(a, e) =>
    case Selfdestruct6780Op(a, e) =>
    case _ =>
  }

  /** The last failure wins: when the second of two calls fails, its error is
      the one recorded, whatever the first recorded. */
  lemma LastErrorKept(s: StateDB, first: Op, second: Op)
    requires WellFormed(s) && RevisionsOk(s) && Allowed(s, first) && Allowed(Apply(s, first), second)
    requires CallError(Apply(s, first), second).Some?
    ensures Apply(Apply(s, first), second).err == CallError(Apply(s, first), second)
  {
    ApplyErr(Apply(s, first), second);
  }

  /** A concrete instance: a credit the keeper refuses with `refused`, then a
      debit beyond the balance; the overdraft's error replaces the refusal. */
  lemma OverdraftReplacesRefusal(s: StateDB, a: Address, x: int, refused: Error)
    requires WellFormed(s) && RevisionsOk(s) && x > 0 && refused != Error("insufficient funds")
    ensures var t := Apply(s, AddBalanceOp(a, x, Some(refused)));
      && t.err == Some(refused)
      && Apply(t, SubBalanceOp(a, GetBalance(t, a) + 1, None)).err == Some(Error("insufficient funds"))
  {
    ApplyErr(s, AddBalanceOp(a, x, Some(refused)));
    var t := Apply(s, AddBalanceOp(a, x, Some(refused)));
    ApplyErr(t, SubBalanceOp(a, GetBalance(t, a) + 1, None));
  }

  /** Once recorded, an error outlives every later operation and revert, so
      Commit at the end of the run fails without writing anything. */
  lemma {:induction false} ErrorSticks(s: StateDB, ops: seq<Op>)
    requires WellFormed(s) && RevisionsOk(s) && ValidRun(s, ops) && s.err.Some?
    ensures ApplyAll(s, ops).err.Some?
    decreases |ops|
  {
    if ops != [] {
      ApplyErr(s, ops[0]);
      ErrorSticks(Apply(s, ops[0]), ops[1..]);
    }
  }

  lemma CommitAfterError(s: StateDB, ops: seq<Op>, fails: Write -> Option<Error>)
    requires WellFormed(s) && RevisionsOk(s) && ValidRun(s, ops) && Sound(s) && s.err.Some?
    ensures var r := ApplyAll(s, ops);
      Live(r) && Commit(r, fails).err == r.err && Commit(r, fails).err.Some? && Commit(r, fails).writes == []
  {
    ErrorSticks(s, ops);
    ApplyAllSound(s, ops);
  }
}
