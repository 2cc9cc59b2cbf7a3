/** The journal entry of a native action (a balance move or another write to
    the native store made in isolation from the VM's state objects). */
module NativeChangeEntry {
  import opened Common
  import opened State

  /** A native change touches no state object: it never marks an address dirty. */
  function Dirtied(snapshot: NativeStore, events: nat): (r: Option<Address>)
    ensures r.None?
  {
    None
  }

  /** Undo of a native action: reinstate the branch captured before it and drop
      exactly the events it recorded, keeping the earlier ones. */
  function Revert(s: StateDB, snapshot: NativeStore, events: nat): (r: StateDB)
    requires events <= |s.nativeEvents|
    ensures r.native == snapshot
    ensures |r.nativeEvents| + events == |s.nativeEvents|
    ensures r.nativeEvents == s.nativeEvents[..|r.nativeEvents|]
    ensures r == s.(native := snapshot, nativeEvents := r.nativeEvents)
  {
    s.(native := snapshot, nativeEvents := s.nativeEvents[..|s.nativeEvents| - events])
  }
}
