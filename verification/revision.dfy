/** Snapshots and reverts: the stack of valid revisions. */
module Revisions {
  import opened Common
  import opened State
  import opened Journal

  /** Ids along the stack strictly increase. */
  predicate IdsIncreasing(revs: seq<Revision>)
  {
    forall i, j :: 0 <= i < j < |revs| ==> revs[i].id < revs[j].id
  }

  /** The revision-stack invariant: ids strictly increase and are below the
      next id to issue; journal marks never decrease along the stack and never
      exceed the journal's length. */
  ghost predicate RevisionsOk(s: StateDB)
  {
    && IdsIncreasing(s.validRevisions)
    && (forall i, j :: 0 <= i < j < |s.validRevisions| ==>
          s.validRevisions[i].journalIndex <= s.validRevisions[j].journalIndex)
    && (forall i :: 0 <= i < |s.validRevisions| ==>
          s.validRevisions[i].id < s.nextRevisionId && s.validRevisions[i].journalIndex <= |s.journal|)
  }

  /** Ids currently on the stack. */
  ghost predicate OnStack(s: StateDB, revid: int)
  {
    exists i :: 0 <= i < |s.validRevisions| && s.validRevisions[i].id == revid
  }

  /** `Snapshot`: issues the next id, above every id on the stack, tagged with
      the current journal length. */
  function Snapshot(s: StateDB): (r: (int, StateDB))
    ensures r.1.validRevisions == s.validRevisions + [Revision(r.0, |s.journal|)]
    ensures RevisionsOk(s) ==> forall i :: 0 <= i < |s.validRevisions| ==> s.validRevisions[i].id < r.0
    ensures r.0 < r.1.nextRevisionId
    ensures RevisionsOk(s) ==> RevisionsOk(r.1)
    ensures r.1 == s.(validRevisions := r.1.validRevisions, nextRevisionId := r.1.nextRevisionId)
  {
    var id := s.nextRevisionId;
    (id, s.(nextRevisionId := id + 1, validRevisions := s.validRevisions + [Revision(id, |s.journal|)]))
  }

  /** Go's `sort.Search` over the stack: the first index whose id is at least
      `revid`, or the stack's length. */
  function SearchIndex(revs: seq<Revision>, revid: int): (idx: nat)
    ensures idx <= |revs|
    ensures forall i :: 0 <= i < idx ==> revs[i].id < revid
    ensures idx < |revs| ==> revs[idx].id >= revid
    decreases |revs|
  {
    if revs == [] || revs[0].id >= revid then 0
    else 1 + SearchIndex(revs[1..], revid)
  }

  /** The binary search `RevertToSnapshot` runs; on a stack with increasing ids
      it finds what the linear definition finds. */
  method SearchRevisions(revs: seq<Revision>, revid: int) returns (idx: nat)
    requires IdsIncreasing(revs)
    ensures idx == SearchIndex(revs, revid)
  {
    var lo, hi := 0, |revs|;
    while lo < hi
      invariant 0 <= lo <= hi <= |revs|
      invariant forall i :: 0 <= i < lo ==> revs[i].id < revid
      invariant forall i :: hi <= i < |revs| ==> revs[i].id >= revid
      decreases hi - lo
    {
      var h := lo + (hi - lo) / 2;
      if revs[h].id < revid {
        lo := h + 1;
      } else {
        hi := h;
      }
    }
    idx := lo;
    SearchIndexUnique(revs, revid, idx);
  }

  /** Any split point of the stack into ids below `revid` and ids at least
      `revid` is the one the search returns. */
  lemma SearchIndexUnique(revs: seq<Revision>, revid: int, k: nat)
    requires k <= |revs|
    requires forall i :: 0 <= i < k ==> revs[i].id < revid
    requires forall i :: k <= i < |revs| ==> revs[i].id >= revid
    ensures k == SearchIndex(revs, revid)
  {
    var m := SearchIndex(revs, revid);
    assert k < |revs| ==> revs[k].id >= revid;
    assert m < |revs| ==> revs[m].id >= revid;
  }

  /** The lookup succeeds: the search stops on a revision with exactly `revid`. */
  predicate CanRevert(s: StateDB, revid: int)
  {
    var idx := SearchIndex(s.validRevisions, revid);
    idx < |s.validRevisions| && s.validRevisions[idx].id == revid
  }

  /** On a well-kept stack the lookup succeeds exactly for ids on the stack. */
  lemma CanRevertIffOnStack(s: StateDB, revid: int)
    requires RevisionsOk(s)
    ensures CanRevert(s, revid) <==> OnStack(s, revid)
  {
    if OnStack(s, revid) {
      var i :| 0 <= i < |s.validRevisions| && s.validRevisions[i].id == revid;
    }
  }

  /** The journal mark of the revision `revid`. */
  function RevisionMark(s: StateDB, revid: int): (m: nat)
    requires RevisionsOk(s) && CanRevert(s, revid)
    ensures m <= |s.journal|
  {
    s.validRevisions[SearchIndex(s.validRevisions, revid)].journalIndex
  }

  /** `RevertToSnapshot`: undoes the journal back to the revision's mark and
      drops that revision and every later one. An id that is not on the stack
      is a panic in Go's `RevertToSnapshot`. */
  function RevertToSnapshot(s: StateDB, revid: int): (r: StateDB)
    requires WellFormed(s) && RevisionsOk(s) && CanRevert(s, revid)
    ensures r.journal == s.journal[..RevisionMark(s, revid)]
    ensures !OnStack(r, revid)
    ensures forall i :: 0 <= i < |r.validRevisions| ==> r.validRevisions[i].id < revid
    ensures forall id :: id < revid ==> (OnStack(r, id) <==> OnStack(s, id))
    ensures WellFormed(r) && RevisionsOk(r)
    ensures r.validRevisions == s.validRevisions[..SearchIndex(s.validRevisions, revid)]
    ensures r == RevertJournal(s, RevisionMark(s, revid)).(validRevisions := r.validRevisions)
  {
    var idx := SearchIndex(s.validRevisions, revid);
    var r := RevertJournal(s, s.validRevisions[idx].journalIndex).(validRevisions := s.validRevisions[..idx]);
    forall id | id < revid && OnStack(s, id)
      ensures OnStack(r, id)
    {
      var i :| 0 <= i < |s.validRevisions| && s.validRevisions[i].id == id;
      assert i < idx;
      assert r.validRevisions[i].id == id;
    }
    r
  }
}
