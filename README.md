# Session lifecycle of a TypeDB desktop client, in Dafny

This project models the part of TypeDB Studio that holds the connection's
database session: `SessionState`, and the compare-and-set value holder
`AtomicReferenceState` that its open flag is built on.

`SessionState` holds at most one session (`_session`), the session type
(DATA until a session opens), the open flag `isOpenAtomic`, a queue of
`onOpen` callbacks, one cached long-lived schema-read transaction
(`schemaReadTx`) and the time that transaction was last touched. Its
operations are `tryOpen`, `close`, `transaction`, `openOrGetSchemaReadTx`,
`resetSchemaReadTx` and `closeSchemaReadTx`. The schema-read transaction also
has an idle timer. The timer wakes, compares the time since the last touch
with 16 seconds, and either evicts the transaction or sleeps for the time left.

Layout:

- `handles.dfy` (module `Handles`) holds the outside world as values. A
  session and a transaction are handles with an id the manager hands out. The
  client's answer to a session request is a `SessionReply`: null, a session
  that is open or not, or a `TypeDBClientException`. Every request the manager
  makes of the client, and every message it gives the notification manager, is
  appended to one ordered list of `Effect`s. `Notices` reads the notification
  manager's log back out of that list.
- `atomic_reference_state.dfy` (module `Atomic`) is the value holder, as a
  class with a `state` field. `CompareAndSetResult` states one compare-and-set
  as a function.
- `idle_eviction.dfy` (module `IdleEviction`) has the timer's wake-up decision
  `WakeUp`, and `RunEvictionLoop`, the timer's loop run over a timeline of touches.
- `session_model.dfy` (module `SessionModel`) gives the manager's whole state
  as a value `Model`. Each operation is a function from old state to new. The
  lemmas beside them state what the code promises.
- `session_state.dfy` (module `Connection`) is the class `SessionState`. Its
  methods change its fields step by step, as the Kotlin code does. Each method
  is proved to move the object's state (`Abstract()`) exactly as a
  `SessionModel` function says: the one of the same name for the operations,
  `Initial` for the constructor, `Answer` for `AcceptReply` (the part of `tryOpen` after the client's reply),
  and `CallbackRuns` for `RunOnOpen`. Its open flag is an
  `AtomicReferenceState<bool>`, changed only through `Set` and `CompareAndSet`.

Outside inputs become parameters:

- the time is `now`;
- what the client did is a `SessionReply`;
- a call that throws returns `Failed` with the cause, and the state is the one
  at the throw. The client refuses a transaction on a held session that is not
  open (`TransactionRefused`). `openOrGetSchemaReadTx` with no session and an
  empty slot installs nothing and then dereferences the slot when it registers
  the remote-close callback (`NullDereference`, SessionState.kt:98-99);
- an `onOpen` callback is an opaque id, and running one is recorded together
  with the type and the flag the callback would see.

Three details are kept as the code has them:

- `openOrGetSchemaReadTx` opens a candidate transaction on every call, even
  when the slot is already full. The unused candidate is neither closed nor
  kept.
- The timer closes whatever the slot holds when it fires. It does not check
  that the slot still holds the transaction it was started for.
- A session that the client returns not open stays held while the flag is
  false.

## Model

| member | source | states |
|---|---|---|
| `Atomic.AtomicReferenceState.constructor` | service/common/atomic/AtomicReferenceState.kt:25-27 | after construction the holder holds the initial value |
| `Atomic.AtomicReferenceState.Set` | service/common/atomic/AtomicReferenceState.kt:29-31 | set leaves the holder holding the given value, unconditionally |
| `Atomic.AtomicReferenceState.CompareAndSet` | service/common/atomic/AtomicReferenceState.kt:33-38 | returns true iff the prior value equals `expected` by value; on true the holder holds `newValue`, on false it is unchanged |
| `Atomic.CompareAndSetResult` | service/common/atomic/AtomicReferenceState.kt:33-38 | the same outcome as a function of the prior value: success iff prior equals expected, the new value on success, the prior value otherwise |
| `Atomic.CompareAndSetExactlyOnce` | service/common/atomic/AtomicReferenceState.kt:33-38 | with a != b, the second of two consecutive compare-and-set(a, b) always fails, and if the first failed too the holder still holds its original value |
| `Atomic.CompareAndSetTwice` | state/connection/SessionState.kt:130 | on one holder, the first compare-and-set(a, b) succeeds iff it held a, the second never succeeds, and the holder ends at b exactly when the first succeeded |
| `Handles.Notices` | state/connection/SessionState.kt:135 | every notice raised among the effects is in the notification log, and the log holds nothing else |
| `IdleEviction.WakeUp` | state/connection/SessionState.kt:104-108 | evict iff at least 16000 ms have passed since the last touch; otherwise the next wake-up falls exactly 16000 ms after the last touch, and the delay lies in (0, 16000] whenever the last touch is not in the future |
| `IdleEviction.RunEvictionLoop` | state/connection/SessionState.kt:100-110 | the loop, driven by a sorted timeline of touches starting at its arming, fires exactly 16000 ms after the latest touch before it, and at no earlier moment had 16000 ms passed since the latest touch |
| `SessionModel.Initial` | state/connection/SessionState.kt:58-69 | a new manager is closed, of type DATA, holds no session and no schema-read transaction, has no callbacks, and satisfies the invariant |
| `SessionModel.DatabaseName` | state/connection/SessionState.kt:62-63 | a name exists iff a session is held, and it is that session's database |
| `SessionModel.IsOpenOn` | state/connection/SessionState.kt:75 | under the invariant the guard of tryOpen holds iff an open session of the requested type on the requested database is held |
| `SessionModel.OnOpen` | state/connection/SessionState.kt:72 | registering a callback appends it to the end of the queue and changes nothing else |
| `SessionModel.CloseSchemaReadTx` | state/connection/SessionState.kt:125-127 | the slot is empty afterwards; a transaction it held is closed; on an empty slot nothing happens |
| `SessionModel.CloseSchemaReadTxTwice` | state/connection/SessionState.kt:125-127 | closing the slot twice is the same as closing it once |
| `SessionModel.Close` | state/connection/SessionState.kt:129-137 | when not open, nothing changes; when open, the flag is cleared, the slot is emptied, the session is released, and the effects are the slot's close, the user transaction's close and the session's close in that order, with the message (if any) last |
| `SessionModel.CloseTwice` | state/connection/SessionState.kt:130 | a second close with any message changes nothing: teardown happens at most once |
| `SessionModel.CloseWithoutMessageIsQuiet` | state/connection/SessionState.kt:129-136 | close without a message adds nothing to the notification log |
| `SessionModel.CloseNotifiesOnce` | state/connection/SessionState.kt:135 | closing an open manager adds the message exactly once to the notification log, as the last effect; closing a closed one adds nothing |
| `SessionModel.OnSessionClosedOnServer` | state/connection/SessionState.kt:78 | the remote-close callback leaves the manager closed, releases an open session, and ends with the "session closed on server" notice |
| `SessionModel.CallbackRuns` | state/connection/SessionState.kt:81 | one run per registered callback |
| `SessionModel.CallbackRunsInOrder` | state/connection/SessionState.kt:81 | the k-th run is the k-th registered callback, so callbacks run in registration order |
| `SessionModel.TryOpen` | state/connection/SessionState.kt:74-88 | keeps the invariant; already open on the same database and type it changes nothing and asks nothing of the client; otherwise the flag ends true iff the client returned an open session, and the schema-read slot ends empty; the callback queue is untouched and no id is reused |
| `SessionModel.Requested` | state/connection/SessionState.kt:76-78 | before the client is asked, the effects are those of close followed by the session request, the flag is false, and under the invariant the slot is empty and any session still held is not open |
| `SessionModel.Answer` | state/connection/SessionState.kt:78-87 | the flag ends true iff the client returned an open session; the invariant is kept from a state with the flag false; the callbacks and the slot are untouched |
| `SessionModel.TryOpenClosesFirst` | state/connection/SessionState.kt:75-78 | unless already open on the same database and type, the effects begin with a full close and then the session request for that database and type |
| `SessionModel.TryOpenTwice` | state/connection/SessionState.kt:75 | right after a successful open, opening again with the same database and type is a no-op whatever the client would answer |
| `SessionModel.TryOpenSucceeds` | state/connection/SessionState.kt:79-82 | when the client returns an open session: it is held with the requested database and type, the type is set, every callback runs once in registration order seeing the new type and the flag still false, the flag is set after that, and no notice is logged |
| `SessionModel.TryOpenFails` | state/connection/SessionState.kt:78-87 | when the client returns null, returns a session that is not open, or throws: the flag is false; only the exception logs a notice, exactly one FAILED_TO_OPEN_SESSION with the type and database; a not-open session is still held; after an exception the session is whatever close left |
| `SessionModel.Transaction` | state/connection/SessionState.kt:90-92 | no transaction iff no session is held; the client's refusal iff the held session is not open; in both cases nothing changes; otherwise a transaction with a fresh id on the held session, of the requested type, carrying the options only when they were given |
| `SessionModel.Candidate` | state/connection/SessionState.kt:97-98 | the candidate opened on each call is a READ transaction with a fresh id and the one-hour timeout option |
| `SessionModel.OpenOrGetSchemaReadTx` | state/connection/SessionState.kt:94-114 | the last touch becomes `now` in every case; it throws the client's refusal iff the held session is not open, and a null dereference iff no session is held and the slot is empty, changing nothing else; otherwise a candidate is opened whenever a session is held, the slot gets it only if it was empty, only then is a timer started, and the slot's content is returned; session, flag, type and callbacks are unchanged |
| `SessionModel.OpenOrGetSchemaReadTxTwice` | state/connection/SessionState.kt:98-112 | once a call has returned, a second call returns the same transaction, starts no timer, and moves the last touch to its own time |
| `SessionModel.ResetSchemaReadTx` | state/connection/SessionState.kt:116-123 | on an empty slot nothing happens; otherwise the old transaction is closed, then a new candidate is opened and installed with a timer; it throws exactly when the held session cannot give a transaction, which never happens in a state satisfying the invariant |
| `SessionModel.ResetGivesNewTransaction` | state/connection/SessionState.kt:116-123 | after a reset the slot holds a transaction distinct from the old one, with an id never given out before |
| `SessionModel.IdleTimerWake` | state/connection/SessionState.kt:103-108 | a wake evicts iff 16000 ms have passed since the last touch, and then the slot is closed as by closeSchemaReadTx; otherwise nothing changes and the next wake is 16000 ms after the last touch |
| `SessionModel.TouchPostponesEviction` | state/connection/SessionState.kt:96-108 | a wake less than 16000 ms after a touch does not evict; it waits until 16000 ms after that touch |
| `SessionModel.EvictionThenFreshTransaction` | state/connection/SessionState.kt:98-107 | after an idle eviction the slot is empty, and the next call installs a fresh transaction, distinct from the evicted one, with a new timer |
| `SessionModel.Apply` | state/connection/SessionState.kt:72-137 | any one call, by the user, a remote-close callback or the timer, keeps the invariant and never lowers the next id |
| `SessionModel.Run` | state/connection/SessionState.kt:72-137 | every state reached by a sequence of calls keeps the invariant, and ids are never reused |
| `SessionModel.SchemaReadTxBelongsToOpenSession` | state/connection/SessionState.kt:98-99 | from a new manager, whatever the calls, a held schema-read transaction belongs to the held session, which is open, and the flag is set |
| `SessionModel.ApplyKeepsNothingBelow` | state/connection/SessionState.kt:72-137 | no call hands out an id below one already given out, or puts such a transaction in the slot |
| `SessionModel.RunKeepsNothingBelow` | state/connection/SessionState.kt:72-137 | the same for any sequence of calls |
| `SessionModel.ResetRetiresOldTransaction` | state/connection/SessionState.kt:116-123 | after a reset, whatever calls follow, openOrGetSchemaReadTx never returns the transaction the slot held before the reset |
| `SessionModel.OpenSwitchCloseScenario` | state/connection/SessionState.kt:74-137 | open(db1, DATA) twice opens once; open(db2, SCHEMA) closes the db1 session first and opens db2 as SCHEMA; close tears down; a second close changes nothing; no notice is logged |
| `Connection.SessionState.constructor` | state/connection/SessionState.kt:48-69 | the new object's state is the initial model, with a fresh flag holder |
| `Connection.SessionState.IsOpen` | state/connection/SessionState.kt:61 | in a valid state the flag is set iff an open session is held |
| `Connection.SessionState.DatabaseName` | state/connection/SessionState.kt:62-63 | a database name exists iff a session is held, and it is that session's database, the value `SessionModel.DatabaseName` gives for the object's state |
| `Connection.SessionState.OnOpen` | state/connection/SessionState.kt:72 | moves the object's state as `SessionModel.OnOpen` |
| `Connection.SessionState.TryOpen` | state/connection/SessionState.kt:74-88 | moves the object's state as `SessionModel.TryOpen`, keeping the invariant |
| `Connection.SessionState.AcceptReply` | state/connection/SessionState.kt:78-87 | for a flag that is false, handles the client's reply as the try/catch block does, as `SessionModel.Answer` |
| `Connection.SessionState.RunOnOpen` | state/connection/SessionState.kt:81 | appends one run per queued callback, as `SessionModel.CallbackRuns`, in order, and changes nothing else |
| `Connection.SessionState.Transaction` | state/connection/SessionState.kt:90-92 | returns and records what `SessionModel.Transaction` says, the client's refusal included, with READ and no options as defaults |
| `Connection.SessionState.OpenOrGetSchemaReadTx` | state/connection/SessionState.kt:94-114 | returns and records what `SessionModel.OpenOrGetSchemaReadTx` says, both exceptions included, the install being a compare-and-set on the slot |
| `Connection.SessionState.IdleTimerWake` | state/connection/SessionState.kt:103-108 | one wake of the timer, as `SessionModel.IdleTimerWake` |
| `Connection.SessionState.ResetSchemaReadTx` | state/connection/SessionState.kt:116-123 | moves the object's state and reports the exception as `SessionModel.ResetSchemaReadTx` |
| `Connection.SessionState.CloseSchemaReadTx` | state/connection/SessionState.kt:125-127 | moves the object's state as `SessionModel.CloseSchemaReadTx` |
| `Connection.SessionState.Close` | state/connection/SessionState.kt:129-137 | moves the object's state as `SessionModel.Close`, gated by `CompareAndSet(true, false)` on the flag holder |
| `Connection.SessionState.OnSessionClosedOnServer` | state/connection/SessionState.kt:78 | the session's remote-close callback: close with SESSION_CLOSED_ON_SERVER |

## Left out

- Concurrency: `synchronized`, `AtomicReference`, `AtomicLong` and the coroutine are not modelled. Each call is one atomic step, run in sequence. A lost race on the schema-read install is the full-slot case.
- Timer precision: the timer is assumed to wake exactly after the delay it asked for. So eviction fires exactly 16 s after the last touch, not somewhere in the following second.
- The client's code is not part of this model. Its refusal of a transaction on a session that is not open is assumed, and decided on the session's state when it was handed over. A session later closed on the server is released by `OnSessionClosedOnServer` when the flag is set. Other remote failures, such as an exception while closing a transaction or a session, are not modelled.
- Callbacks are opaque. An `onOpen` callback is not modelled as throwing or as calling back into the manager. Registering the remote-close callbacks (`onClose`) is not recorded. Their bodies are the methods `OnSessionClosedOnServer` and `CloseSchemaReadTx`, which a caller may invoke at any point.
- `TransactionState` (the user's current transaction) is not part of this model. Its `close()` appears only as the `UserTransactionClosed` effect. `ONE_HOUR_IN_MILLS` is defined there; the model takes it as 3 600 000 ms.
- `AtomicBooleanState` is not part of this model. The flag is an `AtomicReferenceState<bool>` with the same contract.
- Encapsulation: a Dafny field has no private setter. The model keeps `state` changing only through `Set` and `CompareAndSet` by construction: no code of the project assigns it elsewhere. This is not a proved statement.
- Logging through `KotlinLogging`, the `mutableStateOf` reactivity, and the message texts are left out. A message is only its kind and parameters in the log.
- The read-only getters `isSchema` and `isData` are one-line tests of `type` and are not modelled separately.
- Time values are unbounded integers: 64-bit overflow of the millisecond clock is not modelled.
- The connection and database dialogs are presentation code and are not modelled.
