/** Arbitrary sequences of StateDB operations, nested snapshots and reverts
    included: reverting to a snapshot undoes everything done since it. */
module Replay {
  import opened Common
  import opened State
  import opened Journal
  import opened Engine
  import opened Revisions
  import opened RoundTrip

  /** The mutating entry points of the StateDB. */
  datatype Op =
    | LoadOp(addr: Address)
    | CreateAccountOp(addr: Address)
    | SetNonceOp(addr: Address, nonce: uint64)
    | SetCodeOp(addr: Address, code: seq<uint8>, hash: Hash)
    | SetStateOp(addr: Address, key: Hash, value: Hash)
    | AddRefundOp(gas: uint64)
    | SubRefundOp(gas: uint64)
    | AddLogOp(log: Log)
    | NativeActionOp(contract: Address, converter: Option<Event -> Option<Log>>, action: NativeStore -> ActionOutcome)
    | AddBalanceOp(addr: Address, amount: int, refusal: Option<Error>)
    | SubBalanceOp(addr: Address, amount: int, refusal: Option<Error>)
    | SelfDestructOp(addr: Address, refusal: Option<Error>)
    | Selfdestruct6780Op(addr: Address, refusal: Option<Error>)
    | SetTransientStateOp(addr: Address, key: Hash, value: Hash)
    | AddAddressOp(addr: Address)
    | AddSlotOp(addr: Address, slot: Hash)
    | SnapshotOp
    | RevertOp(revid: int)

  /** What the source would not panic on: refunds stay non-negative and only
      ids on the stack are reverted to. */
  predicate Allowed(s: StateDB, op: Op)
  {
    match op
    case SubRefundOp(gas) => gas <= s.refund
    case RevertOp(revid) => CanRevert(s, revid)
    case _ => true
  }

  /** A change that keeps the revision stack and only grows the journal keeps
      the stack's invariant. */
  lemma RevisionsOkGrow(s: StateDB, t: StateDB)
    requires RevisionsOk(s) && Undoes(s, t)
    ensures RevisionsOk(t)
  {
  }

  /** One operation. Every operation other than Snapshot and RevertToSnapshot
      is undone by reverting the journal to its length before the call. */
  function Apply(s: StateDB, op: Op): (r: StateDB)
    requires WellFormed(s) && RevisionsOk(s) && Allowed(s, op)
    ensures WellFormed(r) && RevisionsOk(r)
    ensures !op.SnapshotOp? && !op.RevertOp? ==> Undoes(s, r)
    ensures op.SnapshotOp? ==> r.journal == s.journal && SameView(r, s)
    ensures op.RevertOp? ==> r.journal == s.journal[..RevisionMark(s, op.revid)]
  {
    if op.SnapshotOp? then
      var r := Snapshot(s).1; SameViewByLookup(r, s); r
    else if op.RevertOp? then RevertToSnapshot(s, op.revid)
    else
      var r := if IsObjectOp(op) then ApplyObjectOp(s, op) else ApplyOtherOp(s, op);
      RevisionsOkGrow(s, r);
      r
  }

  /** The operations that resolve or change a state object. */
  predicate IsObjectOp(op: Op)
  {
    || op.LoadOp? || op.CreateAccountOp? || op.SetNonceOp? || op.SetCodeOp? || op.SetStateOp?
    || op.SelfDestructOp? || op.Selfdestruct6780Op?
  }

  function ApplyObjectOp(s: StateDB, op: Op): (r: StateDB)
    requires WellFormed(s) && IsObjectOp(op)
    ensures Undoes(s, r)
  {
    match op
    case LoadOp(a) => UndoGetStateObject(s, a); GetStateObject(s, a).1
    case CreateAccountOp(a) => UndoCreateObject(s, a); CreateObject(s, a).1
    case SetNonceOp(a, n) => UndoSetNonce(s, a, n); SetNonce(s, a, n)
    case SetCodeOp(a, c, h) => UndoSetCode(s, a, c, h); SetCode(s, a, c, h)
    case SetStateOp(a, k, v) => UndoSetState(s, a, k, v); SetState(s, a, k, v)
    case SelfDestructOp(a, e) => UndoSelfDestruct(s, a, e); SelfDestruct(s, a, e)
    case Selfdestruct6780Op(a, e) => UndoSelfdestruct6780(s, a, e); Selfdestruct6780(s, a, e)
  }

  /** Refund, logs, native actions, balances, transient storage and the access list. */
  function ApplyOtherOp(s: StateDB, op: Op): (r: StateDB)
    requires WellFormed(s) && Allowed(s, op) && !IsObjectOp(op) && !op.SnapshotOp? && !op.RevertOp?
    ensures Undoes(s, r)
  {
    match op
    case AddRefundOp(g) => UndoAddRefund(s, g); AddRefund(s, g)
    case SubRefundOp(g) => UndoSubRefund(s, g); SubRefund(s, g)
    case AddLogOp(l) => UndoAddLog(s, l); AddLog(s, l)
    case NativeActionOp(c, conv, act) => UndoNativeAction(s, c, conv, act); ExecuteNativeAction(s, c, conv, act).0
    case AddBalanceOp(a, x, e) => UndoAddBalance(s, a, x, e); AddBalance(s, a, x, e)
    case SubBalanceOp(a, x, e) => UndoSubBalance(s, a, x, e); SubBalance(s, a, x, e)
    case SetTransientStateOp(a, k, v) => UndoSetTransientState(s, a, k, v); SetTransientState(s, a, k, v)
    case AddAddressOp(a) => UndoAddAddress(s, a); AddAddressToAccessList(s, a)
    case AddSlotOp(a, k) => UndoAddSlot(s, a, k); AddSlotToAccessList(s, a, k)
  }

  /** Every operation of the run is allowed in the state it meets. */
  ghost predicate ValidRun(s: StateDB, ops: seq<Op>)
    requires WellFormed(s) && RevisionsOk(s)
    decreases |ops|
  {
    ops == [] || (Allowed(s, ops[0]) && ValidRun(Apply(s, ops[0]), ops[1..]))
  }

  function ApplyAll(s: StateDB, ops: seq<Op>): (r: StateDB)
    requires WellFormed(s) && RevisionsOk(s) && ValidRun(s, ops)
    ensures WellFormed(r) && RevisionsOk(r)
    decreases |ops|
  {
    if ops == [] then s else ApplyAll(Apply(s, ops[0]), ops[1..])
  }

  /** `t` still holds the revision `(id, |s.journal|)` at position `pos` above
      `s`'s stack, keeps `s`'s journal as a prefix, and undoing its journal
      back to that mark gives a state indistinguishable from `s`. */
  ghost predicate Holds(s: StateDB, id: int, t: StateDB)
  {
    var pos := |s.validRevisions|;
    && WellFormed(s) && WellFormed(t) && RevisionsOk(t)
    && pos < |t.validRevisions|
    && t.validRevisions[..pos] == s.validRevisions
    && t.validRevisions[pos] == Revision(id, |s.journal|)
    && |s.journal| <= |t.journal|
    && t.journal[..|s.journal|] == s.journal
    && SameView(RevertJournal(t, |s.journal|), s)
  }

  /** Extending a state that `Holds` by a change it undoes, with the
      revision stack kept, still `Holds`. */
  lemma {:induction false} HoldsStep(s: StateDB, id: int, t: StateDB, u: StateDB)
    requires Holds(s, id, t) && Undoes(t, u) && RevisionsOk(u)
    ensures Holds(s, id, u)
  {
    var m, k := |s.journal|, |t.journal|;
    RevertJournalSplit(u, m, k);
    var x := RevertJournal(u, k);
    RevertJournalRespectsView(x, t, m);
    SameViewTrans(RevertJournal(x, m), RevertJournal(t, m), s);
    assert u.journal[..m] == u.journal[..k][..m];
  }

  /** A revert to a revision above the held one keeps it held. */
  lemma {:induction false} HoldsRevertAbove(s: StateDB, id: int, t: StateDB, revid: int)
    requires Holds(s, id, t) && CanRevert(t, revid) && revid > id
    ensures Holds(s, id, RevertToSnapshot(t, revid))
  {
    var pos, m := |s.validRevisions|, |s.journal|;
    var idx := SearchIndex(t.validRevisions, revid);
    assert idx > pos;
    var mk := RevisionMark(t, revid);
    assert mk >= m;
    var u := RevertToSnapshot(t, revid);
    var x := RevertJournal(t, mk);
    assert u == x.(validRevisions := u.validRevisions);
    assert u.validRevisions[..pos] == t.validRevisions[..idx][..pos];
    RevertJournalSplit(t, m, mk);
    SameViewByLookup(u, x);
    RevertJournalRespectsView(u, x, m);
    SameViewTrans(RevertJournal(u, m), RevertJournal(x, m), s);
    assert u.journal[..m] == t.journal[..mk][..m];
  }

  /** A snapshot taken above the held revision keeps it held. */
  lemma HoldsSnapshot(s: StateDB, id: int, t: StateDB)
    requires Holds(s, id, t)
    ensures Holds(s, id, Snapshot(t).1)
  {
    var u := Snapshot(t).1;
    var pos := |s.validRevisions|;
    assert u.validRevisions[..pos] == t.validRevisions[..pos];
    SameViewByLookup(u, t);
    RevertJournalRespectsView(u, t, |s.journal|);
    SameViewTrans(RevertJournal(u, |s.journal|), RevertJournal(t, |s.journal|), s);
  }

  /** Once off the stack, an id below the next id to issue never comes back. */
  ghost predicate Gone(id: int, t: StateDB)
  {
    !OnStack(t, id) && id < t.nextRevisionId
  }

  lemma GoneStep(id: int, t: StateDB, op: Op)
    requires WellFormed(t) && RevisionsOk(t) && Allowed(t, op) && Gone(id, t)
    ensures Gone(id, Apply(t, op))
  {
    var u := Apply(t, op);
    if op.RevertOp? {
      var idx := SearchIndex(t.validRevisions, op.revid);
      forall i | 0 <= i < |u.validRevisions| ensures u.validRevisions[i].id != id {
        assert u.validRevisions[i] == t.validRevisions[i];
      }
    } else if op.SnapshotOp? {
      forall i | 0 <= i < |u.validRevisions| ensures u.validRevisions[i].id != id {
        if i < |t.validRevisions| {
          assert u.validRevisions[i] == t.validRevisions[i];
        }
      }
    }
  }

  /** Runs after the snapshot either keep the revision held or drop it for good. */
  lemma {:induction false} RunHoldsOrGone(s: StateDB, id: int, t: StateDB, ops: seq<Op>)
    requires WellFormed(t) && RevisionsOk(t) && ValidRun(t, ops)
    requires id < t.nextRevisionId
    requires Holds(s, id, t) || Gone(id, t)
    ensures var r := ApplyAll(t, ops); Holds(s, id, r) || Gone(id, r)
    decreases |ops|
  {
    if ops != [] {
      var u := Apply(t, ops[0]);
      if Gone(id, t) {
        GoneStep(id, t, ops[0]);
      } else {
        HoldsOrGoneStep(s, id, t, ops[0]);
      }
      RunHoldsOrGone(s, id, u, ops[1..]);
    }
  }

  /** One operation keeps a held revision held, or removes it for good. */
  lemma HoldsOrGoneStep(s: StateDB, id: int, t: StateDB, op: Op)
    requires WellFormed(t) && RevisionsOk(t) && Allowed(t, op)
    requires Holds(s, id, t) && id < t.nextRevisionId
    ensures var u := Apply(t, op); (Holds(s, id, u) || Gone(id, u)) && id < u.nextRevisionId
  {
    var u := Apply(t, op);
    match op {
      case SnapshotOp => HoldsSnapshot(s, id, t);
      case RevertOp(revid) =>
        if revid > id {
          HoldsRevertAbove(s, id, t, revid);
        } else {
          assert !OnStack(u, id);
        }
      case _ => HoldsStep(s, id, t, u);
    }
  }

  lemma HoldsAtSnapshot(s: StateDB)
    requires WellFormed(s) && RevisionsOk(s)
    ensures Holds(s, Snapshot(s).0, Snapshot(s).1)
  {
    var (id, s1) := Snapshot(s);
    assert s1.validRevisions[..|s.validRevisions|] == s.validRevisions;
    assert s1.journal[..|s.journal|] == s.journal;
    SameViewByLookup(s1, s);
  }

  /** Reverting to the held revision gives back the state it was taken over. */
  lemma RevertHeld(s: StateDB, id: int, t: StateDB)
    requires Holds(s, id, t)
    ensures CanRevert(t, id)
    ensures var r := RevertToSnapshot(t, id);
      SameView(r, s) && r.journal == s.journal && r.validRevisions == s.validRevisions
  {
    var pos := |s.validRevisions|;
    forall i | 0 <= i < pos ensures t.validRevisions[i].id < id {
      assert t.validRevisions[i].id < t.validRevisions[pos].id;
    }
    SearchIndexUnique(t.validRevisions, id, pos);
    var r := RevertToSnapshot(t, id);
    var x := RevertJournal(t, |s.journal|);
    assert r == x.(validRevisions := r.validRevisions);
    SameViewByLookup(r, x);
    SameViewTrans(r, x, s);
  }

  /** Snapshot, any valid run of operations, then RevertToSnapshot with the
      snapshot's id (still on the stack): the state is indistinguishable from
      the one before the snapshot, with the same journal and revision stack. */
  lemma SnapshotRevertRoundTrip(s: StateDB, ops: seq<Op>)
    requires WellFormed(s) && RevisionsOk(s)
    requires ValidRun(Snapshot(s).1, ops)
    requires OnStack(ApplyAll(Snapshot(s).1, ops), Snapshot(s).0)
    ensures CanRevert(ApplyAll(Snapshot(s).1, ops), Snapshot(s).0)
    ensures var r := RevertToSnapshot(ApplyAll(Snapshot(s).1, ops), Snapshot(s).0);
      SameView(r, s) && r.journal == s.journal && r.validRevisions == s.validRevisions
  {
    var (id, s1) := Snapshot(s);
    HoldsAtSnapshot(s);
    RunHoldsOrGone(s, id, s1, ops);
    RevertHeld(s, id, ApplyAll(s1, ops));
  }
}
