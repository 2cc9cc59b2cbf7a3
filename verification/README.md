# Ethermint EVM StateDB and gas accounting, modelled in Dafny

This project models the journaled `StateDB` of Ethermint's `x/evm/statedb`
package. The EVM reads and writes accounts through this facade during one
transaction. It covers:

- how objects are resolved and created;
- the per-field setters;
- the refund counter and logs;
- native (bank) actions and their snapshots;
- self-destruct;
- transient storage and the access list;
- the snapshot/revert stack;
- the final `Commit` into the keeper.

It also models the gas and nonce arithmetic of `ApplyMessageWithConfig`. In
this repository that function drives an external executor through remote
calls. The model covers the admission checks, the nonce takeover for
creations, the refund cap, the two gas-overflow guards and the minimum-gas
charge with its `int64`/`LegacyDec` conversions. From `ApplyTransaction` it
covers the receipt's cumulative gas, the transaction-index bookkeeping and the
post-processing hooks' effect on the response.

The state is an immutable `StateDB` value, and every operation is a pure
function returning the next state.

- **Journal.** The journal is a sequence of entries. Reverting undoes them
  newest first.
- **Dirty set.** The set of dirty addresses is derived from the journal.
- **Keeper view.** What the keeper has committed is a read-only `Backing`.
- **Native store.** The bank keeper's store is a `NativeStore` of balances.
- **Remote calls.** The executor's replies are inputs to
  `GasAccounting.ApplyMessage`. The result records the requests issued, in
  order.

The central theorems:

- **Undo.** Every mutating call is undone by reverting the journal to its
  length before the call, up to observational equality (`SameView`).
- **Snapshot round trip.** Any valid run of journaled operations (the
  `Replay.Op` entry points; `Prepare` journals nothing and is outside them, as
  `RoundTrip.PrepareNotUndone` shows), nested snapshots and reverts included,
  brings the state back to what it was at a snapshot when that snapshot is
  reverted to (`Replay.SnapshotRevertRoundTrip`).
- **Revision stack.** The stack stays strictly increasing.
- **Commit.** For the dirty addresses it writes exactly: the deletions; the
  account records whose code was written in the transaction or whose nonce
  differs from the loaded one, with that code when present; and the non-no-op
  storage slots. The order is ascending by address and by key. "Code written"
  is a flag that an undone code write leaves set
  (`Committing.CodeUndoRewritesAccount`).
- **Errors.** A failed bank call records its error over any earlier one
  (`Invariants.LastErrorKept`). A recorded error is never cleared, and it
  makes `Commit` write nothing.

Modules:

- `Common`: option/result types, `uint64` arithmetic, sorted sequences.
- `State`: the data model.
- `NativeChangeEntry`: `native.go`.
- `Journal`: entry revert and the dirty set.
- `Engine`: the `StateDB` operations.
- `Revisions`: `Snapshot` / `RevertToSnapshot`.
- `RoundTrip`: per-operation undo lemmas.
- `Replay`: arbitrary runs.
- `Committing`: `Commit`.
- `Invariants`: invariants that hold over runs.
- `GasAccounting`: `state_transition.go`.

## Model

| member | source | states |
|---|---|---|
| State.NewStateDB | x/evm/statedb/statedb.go:95-110 | A new StateDB has an empty journal, no revisions, no recorded error, no live objects, no logs and a zero refund counter. |
| State.Lookup | x/evm/statedb/statedb.go:256-270 | A live object wins; otherwise the keeper's account resolves to a fresh object of that address holding the account, not created, not self-destructed, with no loaded code and no pending writes; nothing resolves exactly when there is neither. |
| State.NewObject | x/evm/statedb/statedb.go:264-268 | A new object carries its address and the given account (an empty account for none), with the loaded nonce as its original nonce, no pending storage, and neither created, self-destructed nor code-dirty. |
| Engine.GetStateObject | x/evm/statedb/statedb.go:256-270 | Resolution prefers the live object, else loads the keeper's account as a fresh object and caches it; no address resolves differently afterwards and nothing else changes. |
| Engine.CreateObject | x/evm/statedb/statedb.go:283-297 | Installs a fresh empty object marked created at the address; journals a create entry when nothing existed and a reset entry holding the previous object otherwise; every other address resolves as before. |
| Engine.GetOrNewStateObject | x/evm/statedb/statedb.go:273-279 | Returns the existing object without journaling, or creates one (journaling its creation) when none resolves; other addresses are untouched. |
| Engine.Exist | x/evm/statedb/statedb.go:160-162 | An address exists exactly when it has a live object or a keeper account; self-destructed objects still exist. |
| Engine.Empty | x/evm/statedb/statedb.go:166-172 | EIP-161 emptiness: a missing account is empty; an existing one is empty iff its nonce is zero, it has no code and its bank balance is zero. |
| Engine.SetNonce | x/evm/statedb/statedb.go:407-412 | Afterwards the address resolves to an object with the new nonce; the previous nonce is journaled (after a create entry if the object was new); nothing else changes. |
| Engine.SetCode | x/evm/statedb/statedb.go:415-420 | Afterwards the object's code is the given code, its code hash the given hash and its code is marked dirty; for an existing object the journal gains one code entry holding its previous `Code()` (none for no code) and code hash; other addresses are untouched. |
| Engine.SetState | x/evm/statedb/statedb.go:423-426 | Afterwards the slot reads the new value and every other slot reads as before; writing the current value journals nothing beyond resolving the object. |
| Engine.AddRefund | x/evm/statedb/statedb.go:143-146 | The counter becomes the sum modulo 2^64 (the plain sum when it fits, the sum minus 2^64 otherwise), the previous value is journaled, and nothing else changes. |
| Engine.SubRefund | x/evm/statedb/statedb.go:150-156 | The counter shrinks by exactly the amount and the previous value is journaled. |
| Engine.AddLog | x/evm/statedb/statedb.go:129-135 | Appends one log stamped with the transaction index and log index `logIndex + number of earlier logs`, keeping earlier logs, and keeps the log indices consecutive. |
| Engine.EmitNativeEvents | x/evm/statedb/statedb.go:650-672 | With no converter nothing changes; otherwise at most one log per event is added, every added log carries the contract address, one log entry is journaled per added log and indices stay consecutive. |
| Engine.ExecuteNativeAction | x/evm/statedb/statedb.go:347-361 | A failing action leaves the state untouched and returns its error; a succeeding one installs its store, appends its events, and closes the journal with one native entry holding the pre-action store and event count after its log entries. |
| Engine.GetBalance | x/evm/statedb/statedb.go:175-177 | The balance is read from the bank's native store, not from the state object; an address the bank does not hold has zero. |
| Engine.RecordErr | x/evm/statedb/statedb.go:380-382 | A failure's error replaces whatever was recorded before; a success leaves the recorded error and everything else alone. |
| Engine.AddBalance | x/evm/statedb/statedb.go:373-383 | A non-positive amount changes nothing; a credit the bank accepts grows the balance by the amount through one native entry; a refused one records the bank's error and journals nothing; other balances, the objects and every other field stay as they were. |
| Engine.SubBalance | x/evm/statedb/statedb.go:386-396 | A non-positive amount changes nothing; a covered debit the bank accepts lowers the balance through one native entry; a refused or uncovered one records the bank's error (insufficient funds when only the balance is short) and journals nothing; other balances, the objects and every other field stay as they were. |
| Engine.SelfDestruct | x/evm/statedb/statedb.go:441-457 | A missing object is left alone; an existing one is marked self-destructed, the journal gains its previous flag and then, for a positive balance the bank lets go, one native entry; the balance is then zero, or unchanged with the bank's error recorded when the debit is refused; other addresses' objects and balances and every other field stay as they were. |
| Engine.Selfdestruct6780 | x/evm/statedb/statedb.go:459-468 | Acts as SelfDestruct exactly for an object created in this transaction; otherwise journals nothing and changes no object. |
| Engine.SetTransientState | x/evm/statedb/statedb.go:473-486 | Afterwards the slot reads the value and every other slot as before; writing the current value changes nothing, otherwise the previous value is journaled. |
| Engine.AddAddressToAccessList | x/evm/statedb/statedb.go:548-552 | The address joins the access list; a journal entry is added only when it was new. |
| Engine.AddSlotToAccessList | x/evm/statedb/statedb.go:555-570 | Address and slot join the access list; an address entry is journaled only for a new address and a slot entry only for a new slot, in that order. |
| Engine.AddTuples | x/evm/statedb/statedb.go:533-538 | The resulting access list holds exactly the earlier entries plus every tuple address and every (address, key) pair of the transaction's list. |
| Engine.Prepare | x/evm/statedb/statedb.go:512-545 | Under Berlin the access list becomes exactly sender, destination, precompiles, the transaction's list and (Shanghai) the coinbase, with exactly the listed slots; before Berlin it is kept; transient storage is always cleared and nothing is journaled. |
| RoundTrip.PrepareNotUndone | x/evm/statedb/statedb.go:512-545 | `Prepare` leaves the journal as it was, so when it clears a non-zero transient slot no revert of the journal undoes it. |
| NativeChangeEntry.Dirtied | x/evm/statedb/native.go:15-17 | A native entry dirties no address. |
| NativeChangeEntry.Revert | x/evm/statedb/native.go:19-22 | Reverting restores the saved native store and drops exactly the entry's count of native events from the end. |
| Journal.RevertEntry | x/evm/statedb/statedb.go:599-601 | Undoing one entry puts back the value it recorded: a created object disappears, a reset object returns, and the self-destruct flag, nonce, code and code hash, storage slot, refund counter, log list, transient slot, access list or native store of the entry reads its previous value; journal, revisions, error and keeper view are kept. |
| Journal.DirtiesAppend | x/evm/statedb/statedb.go:621 | The dirty set of a journal extended by entries is the union of the two parts' dirty sets. |
| Journal.NativeChangeNotDirty | x/evm/statedb/native.go:15-17 | Appending a native entry leaves the dirty set unchanged. |
| Journal.RevertJournal | x/evm/statedb/statedb.go:599-601 | Undoing entries back to a mark leaves exactly the journal prefix up to the mark and keeps revisions, error, keeper view and configuration. |
| Journal.RevertJournalSplit | x/evm/statedb/statedb.go:599-601 | Reverting to a mark equals reverting first to any later mark and then to the earlier one. |
| Journal.RevertJournalRespectsView | x/evm/statedb/statedb.go:599-601 | Reverting two observationally equal states with the same journal gives observationally equal states. |
| Revisions.Snapshot | x/evm/statedb/statedb.go:583-588 | Pushes a revision for the current journal length whose id exceeds every id on the stack, and keeps the stack strictly increasing. |
| Revisions.SearchRevisions | x/evm/statedb/statedb.go:593-595 | The binary search returns the first index whose id is at least the requested one, as `sort.Search` does. |
| Revisions.SearchIndexUnique | x/evm/statedb/statedb.go:593-595 | Any index splitting the stack into ids below and ids at least the requested one is the search result. |
| Revisions.CanRevertIffOnStack | x/evm/statedb/statedb.go:596-598 | On a sorted stack, the search finds the id exactly when the id is on the stack, so the panic fires exactly for ids not on it. |
| Revisions.RevisionMark | x/evm/statedb/statedb.go:599 | The recorded journal index of a revertible revision is within the journal. |
| Revisions.RevertToSnapshot | x/evm/statedb/statedb.go:591-604 | Truncates the journal to the revision's mark by undoing entries, drops the revision and every later one, keeps the earlier ones, and preserves well-formedness and sortedness. |
| RoundTrip.UndoGetStateObject | x/evm/statedb/statedb.go:256-270 | Caching a loaded object is invisible. |
| RoundTrip.UndoCreateObject | x/evm/statedb/statedb.go:283-297 | Reverting a creation restores the previous view of every address. |
| RoundTrip.UndoGetOrNew | x/evm/statedb/statedb.go:273-279 | Reverting to the journal length before the call restores the observable state. |
| RoundTrip.UndoSetNonce | x/evm/statedb/statedb.go:407-412 | Reverting to the journal length before the call restores the observable state. |
| RoundTrip.UndoSetCode | x/evm/statedb/statedb.go:415-420 | Reverting to the journal length before the call restores the observable state. |
| RoundTrip.UndoSetState | x/evm/statedb/statedb.go:423-426 | Reverting to the journal length before the call restores the observable state. |
| RoundTrip.UndoAddRefund | x/evm/statedb/statedb.go:143-146 | Reverting restores the refund counter and everything else. |
| RoundTrip.UndoSubRefund | x/evm/statedb/statedb.go:150-156 | Reverting restores the refund counter and everything else. |
| RoundTrip.UndoAddLog | x/evm/statedb/statedb.go:129-135 | Reverting removes exactly the added log. |
| RoundTrip.UndoSetTransientState | x/evm/statedb/statedb.go:473-486 | Reverting restores every transient slot. |
| RoundTrip.UndoAddAddress | x/evm/statedb/statedb.go:548-552 | Reverting restores the access list. |
| RoundTrip.UndoAddSlot | x/evm/statedb/statedb.go:555-570 | Reverting restores the access list. |
| RoundTrip.EmitCounts | x/evm/statedb/statedb.go:650-672 | Emitting events journals exactly one log entry per added log and no native events. |
| RoundTrip.UndoNativeAction | x/evm/statedb/statedb.go:347-361 | Reverting a native action restores the state exactly: store, events, logs and journal. |
| RoundTrip.UndoAddBalance | x/evm/statedb/statedb.go:373-383 | Reverting restores the balance and everything else. |
| RoundTrip.UndoSubBalance | x/evm/statedb/statedb.go:386-396 | Reverting a debit restores the observable state (a recorded error is not part of it). |
| RoundTrip.UndoSelfDestruct | x/evm/statedb/statedb.go:441-457 | Reverting restores the flag, the balance and every object. |
| RoundTrip.UndoSelfdestruct6780 | x/evm/statedb/statedb.go:459-468 | Reverting restores the observable state. |
| Replay.Apply | x/evm/statedb/statedb.go:583-604 | Every mutation is undone by reverting to the journal length before it; a snapshot is invisible; a revert truncates the journal to the revision's mark; well-formedness and sortedness of the revision stack are kept. |
| Replay.ApplyAll | x/evm/statedb/statedb.go:583-604 | Any valid run keeps the journal well formed and the revision stack strictly increasing. |
| Replay.HoldsRevertAbove | x/evm/statedb/statedb.go:591-604 | Reverting to a later snapshot keeps an earlier snapshot revertible to the same state. |
| Replay.RunHoldsOrGone | x/evm/statedb/statedb.go:583-604 | Along any valid run a taken snapshot either stays revertible to the state it was taken in or has been dropped for good. |
| Replay.RevertHeld | x/evm/statedb/statedb.go:591-604 | Reverting to a held snapshot restores the observable state, journal and revision stack of when it was taken. |
| Replay.SnapshotRevertRoundTrip | x/evm/statedb/statedb.go:583-604 | Snapshot, any valid run, then a revert to that snapshot (when still on the stack) gives back the observable state, journal and revision stack from before the snapshot. |
| Committing.SortedKeys | x/evm/statedb/statedb.go:637 | The dirty storage keys in strictly ascending order, each exactly once. |
| Committing.StorageWrites | x/evm/statedb/statedb.go:637-644 | Exactly the dirty slots whose value differs from the committed value are written, with their dirty values, in key order; no-op writes are skipped. |
| Committing.ObjectWritesMembers | x/evm/statedb/statedb.go:623-644 | An object's writes are exactly: a delete if self-destructed; otherwise code if code is dirty and present, the account if code or nonce is dirty, and the changed slots. |
| Committing.ObjectWritesKeysAscending | x/evm/statedb/statedb.go:637-644 | An object's storage writes come in ascending key order. |
| Committing.Issue | x/evm/statedb/statedb.go:624-635 | Writes are issued in order until the first failing delete or account write, whose wrapped error is returned; nothing after it is issued. |
| Committing.SortedDirties | x/evm/statedb/statedb.go:621 | The dirty addresses in strictly ascending order, each exactly once. |
| Committing.Commit | x/evm/statedb/statedb.go:608-648 | A recorded error is returned before anything is written or flushed; otherwise the native store and events are flushed first, then a prefix of the planned writes is issued, all of them on success, and on failure the wrapped error of the failing write. |
| Committing.CommitAscending | x/evm/statedb/statedb.go:621-646 | Committed writes are grouped by ascending address, with storage keys ascending within an address. |
| Committing.CommitWritesMembers | x/evm/statedb/statedb.go:621-646 | After a successful commit, a write is issued exactly when its address is dirty and it is one of that object's writes. |
| Committing.CommitStorageExact | x/evm/statedb/statedb.go:637-644 | A slot is written with a value exactly when its address is dirty and not self-destructed, the slot is dirty, holds that value, and differs from the committed value. |
| Committing.CommitDeletesExact | x/evm/statedb/statedb.go:623-626 | An account is deleted exactly when it is dirty and self-destructed. |
| Committing.CommitAccountsExact | x/evm/statedb/statedb.go:627-636 | An account record is written exactly when the address is dirty, not self-destructed, and either its code was written in the transaction (the dirty-code flag) or its nonce differs from the loaded one, with the object's account. |
| Committing.CodeUndoRewritesAccount | x/evm/statedb/statedb.go:627-636 | Setting and then undoing the code of a loaded code-less account leaves its record as loaded, and Commit then writes no code but still rewrites that unchanged record. |
| Invariants.JournalSoundAppend | x/evm/statedb/statedb.go:283-297 | A create entry may follow only for an address not yet dirty, and a reset entry holds an object of its own address; appending such an entry keeps the journal sound. |
| Invariants.RevertJournalSound | x/evm/statedb/statedb.go:599-601 | Undoing any suffix of a sound journal keeps live objects keyed by their address and every dirty address live. |
| Invariants.ApplyAllSound | x/evm/statedb/statedb.go:256-311 | Every valid run keeps live objects keyed by their address and every dirty address live. |
| Invariants.CommitReady | x/evm/statedb/statedb.go:621-622 | After any valid run from a new StateDB, every dirty address has a live object, so the commit loop's lookup never fails. |
| Invariants.ApplyErr | x/evm/statedb/statedb.go:373-396 | After any operation the recorded error is the error of its bank call when that call failed (a credit, a debit or a self-destruct's balance clearing), and the earlier recorded error otherwise; in particular none is ever cleared. |
| Invariants.LastErrorKept | x/evm/statedb/statedb.go:373-396 | When the second of two calls fails, its error is the one recorded, whatever the first recorded. |
| Invariants.OverdraftReplacesRefusal | x/evm/statedb/statedb.go:373-396 | A refused credit records the bank's refusal, and a later uncovered debit replaces it with insufficient funds. |
| Invariants.ErrorSticks | x/evm/statedb/statedb.go:393-395 | Once an error is recorded it stays recorded for the rest of any valid run. |
| Invariants.CommitAfterError | x/evm/statedb/statedb.go:610-612 | After an error, whatever follows, commit returns the recorded error and writes nothing. |
| GasAccounting.RefundQuotient | x/evm/keeper/state_transition.go:447-452 | The refund cap divisor is 5 exactly from London on and 2 before. |
| GasAccounting.GasToRefund | x/evm/keeper/state_transition.go:471 | The refund is the counter capped at used gas over the quotient: never above either, and equal to one of them. |
| GasAccounting.ToInt64 | x/evm/keeper/state_transition.go:509 | Go's `int64` cast keeps values below 2^63 and lands in the `int64` range. |
| GasAccounting.ToInt64Wraps | x/evm/keeper/state_transition.go:509 | The cast keeps the value modulo 2^64 and turns values from 2^63 up negative. |
| GasAccounting.TruncateDec | x/evm/keeper/state_transition.go:509 | Truncating a decimal rounds toward zero for both signs. |
| GasAccounting.Gate | x/evm/keeper/state_transition.go:294-298 | A creation fails exactly when creation is disabled, a call exactly when calls are disabled; otherwise it passes. |
| GasAccounting.Admit | x/evm/keeper/state_transition.go:294-396 | An admitted message had its intrinsic gas computed, and the execution gas plus the intrinsic gas equals the gas limit. |
| GasAccounting.Settle | x/evm/keeper/state_transition.go:454-519 | Settlement only appends refund, commit and log requests to those already issued. |
| GasAccounting.Execute | x/evm/keeper/state_transition.go:398-445 | A creation resets the sender's nonce to the message nonce, and only a failure of that call stops it; otherwise it calls `Create` with the message data and sets the next nonce; a call issues one `Call` to the destination; each execution request carries the given gas, the sender and the value. |
| GasAccounting.FinalGasUsed | x/evm/keeper/state_transition.go:494-509 | When the used gas fits an `int64`, any charged gas is at least the used gas; with a nil or zero multiplier the charge is the used gas itself, or zero when the used gas reads as a negative `int64`. |
| GasAccounting.ChargeIsMax | x/evm/keeper/state_transition.go:494-529 | For gas limits below 2^63 and non-negative multipliers: with `v` the larger of the truncated minimum and the used gas, it panics exactly when `v` does not fit a `uint64`; otherwise it charges `v`, hands the tracer `gasLimit − v` (wrapping as a `uint64`), and fails only when the logs cannot be read. |
| GasAccounting.ApplyMessage | x/evm/keeper/state_transition.go:282-529 | Every request sequence starts with the transaction preparation; a response implies a known intrinsic cost within the limit and an execution leftover within the limit. |
| GasAccounting.AppliedRequests | x/evm/keeper/state_transition.go:294-519 | A response is preceded by exactly this sequence of state calls: `PrepareTx`, `Prepare`, the execution (a creation between its two nonce writes), the refund counter, the commit exactly when asked for, then the logs. |
| GasAccounting.GatingRejects | x/evm/keeper/state_transition.go:294-298 | A disabled kind is rejected with its error before any request, and only then. |
| GasAccounting.IntrinsicGasCheck | x/evm/keeper/state_transition.go:368-371 | With a known intrinsic cost, the message is rejected as intrinsic-gas-too-low, after only the transaction preparation, exactly when the limit is below the cost. |
| GasAccounting.ExecutionGas | x/evm/keeper/state_transition.go:372 | Every `Create` or `Call` gets exactly the gas limit minus the intrinsic cost. |
| GasAccounting.InitCodeLimit | x/evm/keeper/state_transition.go:379-381 | Under Shanghai a creation with more than 49152 bytes of init code is rejected before the access list is prepared. |
| GasAccounting.NonceTakeover | x/evm/keeper/state_transition.go:398-432 | A `Create` is always preceded by setting the sender's nonce to the message nonce and followed by setting it to the next nonce, whatever the execution returned. |
| GasAccounting.OverflowGuard | x/evm/keeper/state_transition.go:454-457 | An execution leftover above the gas limit fails with a gas overflow. |
| GasAccounting.RefundWithinLimit | x/evm/keeper/state_transition.go:460-471 | Adding the capped refund to the leftover never exceeds the gas limit and never wraps. |
| GasAccounting.GasOverflowOnlyFromExecution | x/evm/keeper/state_transition.go:505-507 | A gas overflow is reported only when the execution's leftover exceeded the limit; the second guard never fires on its own. |
| GasAccounting.AppliedFacts | x/evm/keeper/state_transition.go:509-511 | A successful application charged the final gas computation of the used gas and handed the tracer the limit minus the charged gas. |
| GasAccounting.FinalGasUsedIsMax | x/evm/keeper/state_transition.go:494-509 | For limits below 2^63 and non-negative multipliers, the charged gas is the larger of the truncated minimum and the used gas, or a panic when that does not fit a `uint64`. |
| GasAccounting.MaxTruncate | x/evm/keeper/state_transition.go:509 | Truncating the larger of a decimal and a whole number equals the larger of the truncated decimal and the number. |
| GasAccounting.GasUsedIsMax | x/evm/keeper/state_transition.go:494-509 | For gas limits below 2^63 and non-negative multipliers, the charged gas is `max(trunc(gasLimit · multiplier), gasLimit − leftover)`, a nil multiplier counting as zero, and never below the gas actually used. |
| GasAccounting.GasUsedWithinLimit | x/evm/keeper/state_transition.go:509-511 | With a multiplier of at most one the charged gas is within the limit and the tracer's leftover is exact. |
| GasAccounting.GasUsedIgnoresRefund | x/evm/keeper/state_transition.go:460-511 | The outcome of a message does not depend on the refund counter's value. |
| GasAccounting.VmErrorIsResult | x/evm/keeper/state_transition.go:473-477 | A VM error never fails the call: the outcome is the clean run's with the error text in the response. |
| GasAccounting.CumulativeGasUsed | x/evm/keeper/state_transition.go:155-162 | Without a block meter the cumulative gas is the transaction's; with one it is the sum with the block's consumption capped at the block limit. |
| GasAccounting.NextTxIndex | x/evm/keeper/state_transition.go:212 | The next transaction index is one more, wrapping to zero at 2^64. |
| GasAccounting.RefundToSender | x/evm/keeper/state_transition.go:202 | The sender gets back exactly the limit minus the charged gas. |
| GasAccounting.PostProcess | x/evm/keeper/state_transition.go:182-199 | A failed execution skips the hooks; a failing hook turns the response into the post-processing error and clears the logs; a passing one publishes the receipt logs; gas is unchanged. |

## Left out

- The remote-procedure files (`rpc_client.go`, `rpc_server.go`, `rpcclient.go`, `rpcserver.go`), the transport and `prepareTxForSgx`. Their replies are inputs to `GasAccounting.ApplyMessage`, and their failures are arbitrary errors.
- The tracer and the `DebugTrace` balance/nonce pre-charge of `ApplyMessageWithConfig`. They only run with a tracer; the model applies a message without one.
- `GetHashFn`, the bloom filter, receipt assembly, the transient log size and `AddTransientGasUsed` in `ApplyTransaction`. They are keeper bookkeeping outside the gas and index arithmetic.
- `ApplyTransaction`'s cache-context commit. It is keeper store plumbing.
- `SetBalance`, `SetStorage`, `ForEachStorage`, `CacheContext` and `AddPreimage`. They are debugging or read-only helpers, and `AddPreimage` does nothing.
- The plain getters: `GetNonce`, `GetCode`, `GetCodeSize`, `GetCodeHash`, `GetState`, `GetCommittedState`, `GetRefund`, `HasSelfDestructed`, `GetTransientState`, `AddressInAccessList`, `SlotInAccessList`, `Logs` and `NativeEvents`. They read fields the model exposes directly (`Lookup`, `GetStateOf`, `CommittedStateOf`, `GetTransient`).
- `journal.go`, `state_object.go` and `access_list.go` are not part of this model. Their entries follow go-ethereum's journal conventions: nonce, code and storage entries hold the previous value, the code entry holding the object's `Code()` (none, Go's nil, for no code); a reset entry holds the previous object. `codeDirty` is a flag that every code write sets, the undo of one included; `nonceDirty` compares the nonce with the loaded one.
- Engine.GetStateObject: the keeper's committed state is a fixed `Backing` value. Committed storage is read directly instead of through the lazy `originStorage` cache; both give the same values.
- Engine.SetCode: the Keccak-256 hash of the code is a parameter, not computed.
- Engine.AddBalance: the bank keeper is a map of balances in one denomination. Its refusals other than insufficient funds (blocked addresses, module-account and send-enabled rules) are an input `refusal` per call rather than derived from the Cosmos SDK bank module; coin denominations are not modelled.
- Engine.SubRefund: the source panics when the amount exceeds the counter. The model makes that a precondition.
- Revisions.RevertToSnapshot: the source panics on an unknown revision id. The model makes that a precondition, and `Revisions.CanRevertIffOnStack` characterises it.
- Engine.EmitNativeEvents: a converter error is logged and the event is skipped. The model folds the error and a nil log into `None`, and does not model the logger.
- Committing.Commit: keeper writes are a list of `Write` values. Only deletes and account writes can fail (`SetCode`/`SetState` return nothing in the source). The flush of the native cache store is the `flushed` field.
- GasAccounting.GasToRefund: its definition is not part of this model; it is taken as `min(refund, used / quotient)`.
- GasAccounting.ApplyMessage: `GetEthIntrinsicGas` and the fork rules are inputs. Error texts are modelled as failure kinds rather than wrapped strings.
- GasAccounting.FinalGasUsedIsMax: `LegacyDec` values are integer numerators over 10^18 without the 256-bit overflow panic of `Mul`. The lemma covers gas limits below 2^63 and non-negative multipliers; other inputs follow the `int64` cast modelled in `ToInt64`.
- GasAccounting.GasUsedIsMax: stated for gas limits below 2^63 and non-negative multipliers only, the domain of `FinalGasUsedIsMax`; above it the charge follows the `int64` cast of `ToInt64`, which `FinalGasUsed` states for a nil or zero multiplier.
- GasAccounting.ChargeIsMax: stated on the same domain as `FinalGasUsedIsMax`.
- Committing.CommitAccountsExact: an account whose code write was undone is still rewritten with its unchanged record, because the dirty-code flag stays set; the contract states that flag, not "changed accounts".
- GasAccounting.PostProcess: the post-processing error text is a parameter, and the hook itself is an input.
- Concurrency, the Cosmos SDK context and event manager, and gas metering of keeper calls are not modelled.

The code departs from go-ethereum's `StateDB` and state transition, from which it is adapted, in these points; the model follows the code:

- **Which error is kept.** go-ethereum's `setError` keeps the first error. Here `AddBalance`/`SubBalance` assign `s.err = err` on every failure, so the LAST bank error is kept. `Invariants.ApplyErr`, `Invariants.LastErrorKept` and `Invariants.OverdraftReplacesRefusal` state this. Once recorded, an error is never cleared, and it makes `Commit` return an error and write nothing.
- **Refund and charged gas.** go-ethereum computes the gas used after returning the refund. Here the refund is added to `leftoverGas`, but `gasUsed` is computed from `temporaryGasUsed`, which was taken before the refund. So the refund counter never lowers the charged gas; `GasAccounting.GasUsedIgnoresRefund` states this.
