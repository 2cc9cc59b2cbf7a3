/** The journal: the undo of each entry, the set of dirtied addresses, and the
    last-in-first-out replay that RevertToSnapshot performs. */
module Journal {
  import opened Common
  import opened State
  import NativeChangeEntry

  /** The address an entry marks as touched, if any. */
  function Dirtied(e: JournalEntry): Option<Address>
  {
    match e
    case CreateObjectChange(a) => Some(a)
    case SelfDestructChange(a, _) => Some(a)
    case NonceChange(a, _) => Some(a)
    case CodeChange(a, _, _) => Some(a)
    case StorageChange(a, _, _) => Some(a)
    case NativeChange(snap, k) => NativeChangeEntry.Dirtied(snap, k)
    case _ => None
  }

  /** The touched addresses: those some entry of the journal dirties. */
  function Dirties(j: seq<JournalEntry>): (r: set<Address>)
    ensures forall i :: 0 <= i < |j| && Dirtied(j[i]).Some? ==> Dirtied(j[i]).value in r
    ensures forall a :: a in r ==> exists i :: 0 <= i < |j| && Dirtied(j[i]) == Some(a)
  {
    set i | 0 <= i < |j| && Dirtied(j[i]).Some? :: Dirtied(j[i]).value
  }

  /** Appending entries only adds the addresses they dirty. */
  lemma DirtiesAppend(j: seq<JournalEntry>, k: seq<JournalEntry>)
    ensures Dirties(j + k) == Dirties(j) + Dirties(k)
  {
    forall a | a in Dirties(j + k)
      ensures a in Dirties(j) + Dirties(k)
    {
      var i :| 0 <= i < |j + k| && Dirtied((j + k)[i]) == Some(a);
      if i < |j| {
        assert Dirtied(j[i]) == Some(a);
      } else {
        assert Dirtied(k[i - |j|]) == Some(a);
      }
    }
    forall a | a in Dirties(k)
      ensures a in Dirties(j + k)
    {
      var i :| 0 <= i < |k| && Dirtied(k[i]) == Some(a);
      assert (j + k)[|j| + i] == k[i];
    }
    forall a | a in Dirties(j)
      ensures a in Dirties(j + k)
    {
      var i :| 0 <= i < |j| && Dirtied(j[i]) == Some(a);
      assert (j + k)[i] == j[i];
    }
  }

  /** Appending a native change never adds a dirty address. */
  lemma NativeChangeNotDirty(j: seq<JournalEntry>, snapshot: NativeStore, events: nat)
    ensures Dirties(j + [NativeChange(snapshot, events)]) == Dirties(j)
  {
    DirtiesAppend(j, [NativeChange(snapshot, events)]);
    assert Dirties([NativeChange(snapshot, events)]) == {};
  }

  /** The entry's undo can run: a log or native events remain to drop. */
  predicate Revertible(s: StateDB, e: JournalEntry)
  {
    match e
    case AddLogChange => |s.logs| > 0
    case NativeChange(_, k) => k <= |s.nativeEvents|
    case _ => true
  }

  /** Applies `f` to the object `getStateObject` resolves; a missing object is left alone. */
  function UpdateObject(s: StateDB, a: Address, f: StateObject -> StateObject): StateDB
  {
    match Lookup(s, a)
    case Some(o) => PutObject(s, a, f(o))
    case None => s
  }

  /** The inverse of one journal entry: it puts back the value the entry
      recorded, on the object `getStateObject` resolves for the entry's
      account when the entry is about an account. */
  function RevertEntry(s: StateDB, e: JournalEntry): (r: StateDB)
    requires Revertible(s, e)
    ensures r.journal == s.journal && r.validRevisions == s.validRevisions
    ensures r.nextRevisionId == s.nextRevisionId && r.err == s.err
    ensures r.backing == s.backing && r.txConfig == s.txConfig
    ensures e.CreateObjectChange? ==> e.account !in r.stateObjects
    ensures e.ResetObjectChange? ==> Lookup(r, e.account) == Some(e.prev)
    ensures e.SelfDestructChange? && Lookup(s, e.account).Some? ==>
      Lookup(r, e.account) == Some(Lookup(s, e.account).value.(selfDestructed := e.prevFlag))
    ensures e.NonceChange? && Lookup(s, e.account).Some? ==>
      Lookup(r, e.account).Some? && Lookup(r, e.account).value.account.nonce == e.prevNonce
    ensures e.CodeChange? && Lookup(s, e.account).Some? ==>
      Lookup(r, e.account).Some? && Lookup(r, e.account).value.code == e.prevCode
      && Lookup(r, e.account).value.account.codeHash == e.prevHash
    ensures e.StorageChange? && Lookup(s, e.account).Some? ==>
      Lookup(r, e.account).Some? && GetStateOf(Lookup(r, e.account).value, e.key) == e.prevalue
    ensures e.RefundChange? ==> r.refund == e.prevRefund
    ensures e.AddLogChange? ==> r.logs == s.logs[..|s.logs| - 1]
    ensures e.TransientStorageChange? ==> GetTransient(r, e.account, e.key) == e.prevalue
    ensures e.AccessListAddAccountChange? ==> r.accessList.addresses == s.accessList.addresses - {e.address}
    ensures e.AccessListAddSlotChange? ==> r.accessList.slots == s.accessList.slots - {(e.address, e.slot)}
    ensures e.NativeChange? ==> r.native == e.snapshot
  {
    match e
    case CreateObjectChange(a) => s.(stateObjects := s.stateObjects - {a})
    case ResetObjectChange(a, prev) => PutObject(s, a, prev)
    case SelfDestructChange(a, flag) => UpdateObject(s, a, (o: StateObject) => o.(selfDestructed := flag))
    case NonceChange(a, n) => UpdateObject(s, a, (o: StateObject) => o.(account := o.account.(nonce := n)))
    case CodeChange(a, code, hash) =>
      UpdateObject(s, a, (o: StateObject) => o.(code := code, account := o.account.(codeHash := hash), dirtyCode := true))
    case StorageChange(a, k, v) => UpdateObject(s, a, (o: StateObject) => o.(dirtyStorage := o.dirtyStorage[k := v]))
    case RefundChange(prev) => s.(refund := prev)
    case AddLogChange => s.(logs := s.logs[..|s.logs| - 1])
    case TransientStorageChange(a, k, v) => SetTransient(s, a, k, v)
    case AccessListAddAccountChange(a) =>
      s.(accessList := s.accessList.(addresses := s.accessList.addresses - {a}))
    case AccessListAddSlotChange(a, k) =>
      s.(accessList := s.accessList.(slots := s.accessList.slots - {(a, k)}))
    case NativeChange(snap, k) => NativeChangeEntry.Revert(s, snap, k)
  }

  /** The journal without its last entry. */
  function Pop(s: StateDB): (r: StateDB)
    requires |s.journal| > 0
    ensures r.journal == s.journal[..|s.journal| - 1]
  {
    s.(journal := s.journal[..|s.journal| - 1])
  }

  /** Undoing the last entry of a well-formed state is possible and keeps it well-formed. */
  lemma PopWellFormed(s: StateDB)
    requires WellFormed(s) && |s.journal| > 0
    ensures Revertible(Pop(s), s.journal[|s.journal| - 1])
    ensures WellFormed(RevertEntry(Pop(s), s.journal[|s.journal| - 1]))
  {
  }

  /** Undoes the journal, newest entry first, down to length `mark`. */
  function RevertJournal(s: StateDB, mark: nat): (r: StateDB)
    requires WellFormed(s) && mark <= |s.journal|
    ensures WellFormed(r)
    ensures r.journal == s.journal[..mark]
    ensures r.validRevisions == s.validRevisions && r.nextRevisionId == s.nextRevisionId
    ensures r.err == s.err && r.backing == s.backing && r.txConfig == s.txConfig
    decreases |s.journal|
  {
    if |s.journal| == mark then s
    else
      PopWellFormed(s);
      RevertJournal(RevertEntry(Pop(s), s.journal[|s.journal| - 1]), mark)
  }

  /** Reverting to an outer mark is reverting to an inner mark and then on to the outer one. */
  lemma {:induction false} RevertJournalSplit(s: StateDB, m: nat, k: nat)
    requires WellFormed(s) && m <= k <= |s.journal|
    ensures RevertJournal(s, m) == RevertJournal(RevertJournal(s, k), m)
    decreases |s.journal|
  {
    if |s.journal| != k {
      PopWellFormed(s);
      var s1 := RevertEntry(Pop(s), s.journal[|s.journal| - 1]);
      RevertJournalSplit(s1, m, k);
    }
  }

  /** An object update that keeps indistinguishable objects indistinguishable
      keeps indistinguishable states indistinguishable. */
  lemma UpdateRespectsView(s: StateDB, t: StateDB, a: Address, f: StateObject -> StateObject)
    requires SameView(s, t)
    requires forall o1, o2 :: SameObject(s.backing, o1, o2) ==> SameObject(s.backing, f(o1), f(o2))
    ensures SameView(UpdateObject(s, a, f), UpdateObject(t, a, f))
  {
    var s', t' := UpdateObject(s, a, f), UpdateObject(t, a, f);
    SameTransientCarried(s, t, s', t');
    forall x ensures SameOptObject(s.backing, Lookup(s', x), Lookup(t', x)) {
      assert SameOptObject(s.backing, Lookup(s, x), Lookup(t, x));
    }
  }

  /** An update that leaves the slot maps alone keeps indistinguishable objects
      indistinguishable whenever it does so on the record and code. */
  lemma UpdatePreservesSameObject(b: Backing, f: StateObject -> StateObject)
    requires forall o :: f(o).dirtyStorage == o.dirtyStorage && f(o).originStorage == o.originStorage
    requires forall o1, o2 :: SameObject(b, o1, o2) ==>
      f(o1).address == f(o2).address && f(o1).account == f(o2).account && f(o1).originNonce == f(o2).originNonce
      && CodeOf(b, f(o1)) == CodeOf(b, f(o2)) && f(o1).selfDestructed == f(o2).selfDestructed && f(o1).created == f(o2).created
    ensures forall o1, o2 :: SameObject(b, o1, o2) ==> SameObject(b, f(o1), f(o2))
  {
    forall o1, o2 | SameObject(b, o1, o2) ensures SameObject(b, f(o1), f(o2)) {
      forall k' ensures GetStateOf(f(o1), k') == GetStateOf(f(o2), k') {
        assert GetStateOf(o1, k') == GetStateOf(o2, k');
      }
    }
  }

  lemma PopRespectsView(s: StateDB, t: StateDB)
    requires SameView(s, t) && |s.journal| > 0 && |t.journal| > 0
    ensures SameView(Pop(s), Pop(t))
  {
    SameTransientCarried(s, t, Pop(s), Pop(t));
    forall x ensures SameOptObject(s.backing, Lookup(Pop(s), x), Lookup(Pop(t), x)) {
      assert Lookup(Pop(s), x) == Lookup(s, x) && Lookup(Pop(t), x) == Lookup(t, x);
    }
  }

  /** Undoing one entry maps indistinguishable states to indistinguishable states. */
  lemma RevertEntryRespectsView(s: StateDB, t: StateDB, e: JournalEntry)
    requires SameView(s, t) && Revertible(s, e) && Revertible(t, e)
    ensures SameView(RevertEntry(s, e), RevertEntry(t, e))
  {
    match e {
      case CreateObjectChange(_) => MapEntryRespectsView(s, t, e);
      case ResetObjectChange(_, _) => MapEntryRespectsView(s, t, e);
      case SelfDestructChange(a, flag) =>
        var f := (o: StateObject) => o.(selfDestructed := flag);
        UpdatePreservesSameObject(s.backing, f);
        UpdateRespectsView(s, t, a, f);
      case NonceChange(a, n) =>
        var f := (o: StateObject) => o.(account := o.account.(nonce := n));
        UpdatePreservesSameObject(s.backing, f);
        UpdateRespectsView(s, t, a, f);
      case CodeChange(a, code, hash) =>
        var f := (o: StateObject) => o.(code := code, account := o.account.(codeHash := hash), dirtyCode := true);
        UpdatePreservesSameObject(s.backing, f);
        UpdateRespectsView(s, t, a, f);
      case StorageChange(a, k, v) => StorageEntryRespectsView(s, t, a, k, v);
      case TransientStorageChange(a, k, v) => TransientEntryRespectsView(s, t, a, k, v);
      case _ => PlainEntryRespectsView(s, t, e);
    }
  }

  lemma MapEntryRespectsView(s: StateDB, t: StateDB, e: JournalEntry)
    requires SameView(s, t) && (e.CreateObjectChange? || e.ResetObjectChange?)
    ensures SameView(RevertEntry(s, e), RevertEntry(t, e))
  {
    var s', t' := RevertEntry(s, e), RevertEntry(t, e);
    SameTransientCarried(s, t, s', t');
    forall x ensures SameOptObject(s.backing, Lookup(s', x), Lookup(t', x)) {
      assert x != e.account ==> Lookup(s', x) == Lookup(s, x) && Lookup(t', x) == Lookup(t, x);
    }
  }

  lemma StorageEntryRespectsView(s: StateDB, t: StateDB, a: Address, k: Hash, v: Hash)
    requires SameView(s, t)
    ensures SameView(RevertEntry(s, StorageChange(a, k, v)), RevertEntry(t, StorageChange(a, k, v)))
  {
    var b := s.backing;
    var f := (o: StateObject) => o.(dirtyStorage := o.dirtyStorage[k := v]);
    forall o1, o2 | SameObject(b, o1, o2) ensures SameObject(b, f(o1), f(o2)) {
      forall k' ensures GetStateOf(f(o1), k') == GetStateOf(f(o2), k') {
        assert GetStateOf(o1, k') == GetStateOf(o2, k');
      }
    }
    UpdateRespectsView(s, t, a, f);
  }

  lemma TransientEntryRespectsView(s: StateDB, t: StateDB, a: Address, k: Hash, v: Hash)
    requires SameView(s, t)
    ensures SameView(RevertEntry(s, TransientStorageChange(a, k, v)), RevertEntry(t, TransientStorageChange(a, k, v)))
  {
    var s', t' := SetTransient(s, a, k, v), SetTransient(t, a, k, v);
    forall a': Address, k': Hash ensures GetTransient(s', a', k') == GetTransient(t', a', k') {
      assert (a', k') != (a, k) ==> GetTransient(s, a', k') == GetTransient(t, a', k');
    }
    forall x ensures SameOptObject(s.backing, Lookup(s', x), Lookup(t', x)) {
      assert SameOptObject(s.backing, Lookup(s, x), Lookup(t, x));
    }
  }

  lemma PlainEntryRespectsView(s: StateDB, t: StateDB, e: JournalEntry)
    requires SameView(s, t) && Revertible(s, e) && Revertible(t, e)
    requires e.RefundChange? || e.AddLogChange? || e.AccessListAddAccountChange?
          || e.AccessListAddSlotChange? || e.NativeChange?
    ensures SameView(RevertEntry(s, e), RevertEntry(t, e))
  {
    var s', t' := RevertEntry(s, e), RevertEntry(t, e);
    SameTransientCarried(s, t, s', t');
    forall x ensures SameOptObject(s.backing, Lookup(s', x), Lookup(t', x)) {
      assert SameOptObject(s.backing, Lookup(s, x), Lookup(t, x));
    }
  }

  /** Undoing the same journal from indistinguishable states gives indistinguishable states. */
  lemma {:induction false} RevertJournalRespectsView(s: StateDB, t: StateDB, mark: nat)
    requires SameView(s, t) && s.journal == t.journal
    requires WellFormed(s) && WellFormed(t) && mark <= |s.journal|
    ensures SameView(RevertJournal(s, mark), RevertJournal(t, mark))
    decreases |s.journal|
  {
    if |s.journal| != mark {
      var e := s.journal[|s.journal| - 1];
      PopWellFormed(s);
      PopWellFormed(t);
      PopRespectsView(s, t);
      RevertEntryRespectsView(Pop(s), Pop(t), e);
      RevertJournalRespectsView(RevertEntry(Pop(s), e), RevertEntry(Pop(t), e), mark);
    }
  }
}
