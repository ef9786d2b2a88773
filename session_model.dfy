/**
 * The session manager's state and operations as values.
 *
 * A Model is everything SessionState holds; each operation of SessionState
 * is a function from the old Model (and the call's arguments, the client's
 * reply and the time) to the new one. The class in session_state.dfy is
 * proved to move its fields exactly as these functions say; the lemmas here
 * are the properties the manager promises.
 */
module SessionModel {
  import opened Handles
  import Atomic
  import opened IdleEviction

  /** ONE_HOUR_IN_MILLS: the server-side timeout asked for the schema-read transaction. */
  const OneHourMillis: int := 3_600_000

  const SchemaReadOptions: TypeDBOptions := TypeDBOptions(OneHourMillis)

  datatype Model = Model(
    sessionType: SessionType,                  // type, DATA until a session opens
    session: Option<TypeDBSession>,            // _session
    isOpen: bool,                              // isOpenAtomic.state
    onOpen: seq<Callback>,                     // the onOpen queue, in registration order
    schemaReadTx: Option<TypeDBTransaction>,   // the schemaReadTx slot
    lastSchemaReadTxTime: int,                 // the last touch of the slot
    nextId: nat,                               // the next handle id to give out
    effects: seq<Effect>)                      // what was asked of the client and the notifier

  /** The new state after a call, and what the call returned. */
  datatype Step<R> = Step(next: Model, result: R)

  /** The flag is set exactly while the held session is open, and that session
      is of the current type; the schema-read transaction exists only while the
      manager is open, and belongs to the session held; every handle held has
      an id already given out. */
  predicate Inv(m: Model) {
    && (m.isOpen ==> m.session.Some? && m.session.value.isOpen && m.session.value.sessionType == m.sessionType)
    && (m.session.Some? && m.session.value.isOpen ==> m.isOpen)
    && (m.schemaReadTx.Some? ==> m.isOpen && m.session.Some? && m.schemaReadTx.value.session == m.session.value.id)
    && (m.session.Some? ==> m.session.value.id < m.nextId)
    && (m.schemaReadTx.Some? ==> m.schemaReadTx.value.id < m.nextId)
  }

  function Initial(): (m: Model)
    ensures Inv(m)
    ensures !m.isOpen && m.sessionType == Data && m.session.None? && m.schemaReadTx.None?
    ensures m.onOpen == [] && m.effects == []
  {
    Model(Data, None, false, [], None, 0, 0, [])
  }

  /** databaseName: the name of the held session's database, if any. */
  function DatabaseName(m: Model): (name: Option<string>)
    ensures name.Some? <==> m.session.Some?
    ensures name.Some? ==> name.value == m.session.value.database
  {
    if m.session.Some? then Some(m.session.value.database) else None
  }

  /** The guard of tryOpen: open already, on this database, with this type.
      Under the invariant it holds exactly when an open session of type t on
      that database is held. */
  predicate IsOpenOn(m: Model, database: string, t: SessionType)
    ensures Inv(m) ==>
              (IsOpenOn(m, database, t) <==>
                 m.session.Some? && m.session.value.isOpen && m.session.value.database == database
                 && m.session.value.sessionType == t)
  {
    m.isOpen && DatabaseName(m) == Some(database) && m.sessionType == t
  }

  function FailedToOpen(t: SessionType, database: string): Notice {
    Notice(FailedToOpenSession, [TypeParam(t), TextParam(database)])
  }

  function ClosedOnServer(): Notice {
    Notice(SessionClosedOnServer, [])
  }

  function OnOpen(m: Model, callback: Callback): (r: Model)
    ensures Inv(m) ==> Inv(r)
    ensures r.onOpen == m.onOpen + [callback] && r.onOpen[|m.onOpen|] == callback
    ensures r == m.(onOpen := r.onOpen)
  {
    m.(onOpen := m.onOpen + [callback])
  }

  // ---------------------------------------------------------------- teardown

  function SlotClosing(slot: Option<TypeDBTransaction>): seq<Effect> {
    if slot.Some? then [TransactionClosed(slot.value.id)] else []
  }

  function SessionClosing(session: Option<TypeDBSession>): seq<Effect> {
    if session.Some? then [SessionClosed(session.value.id)] else []
  }

  function Notifying(message: Option<Notice>): seq<Effect> {
    if message.Some? then [UserError(message.value)] else []
  }

  /** closeSchemaReadTx: empty the slot, closing what it held. */
  function CloseSchemaReadTx(m: Model): (r: Model)
    ensures Inv(m) ==> Inv(r)
    ensures r.schemaReadTx.None?
    ensures r == m.(schemaReadTx := None, effects := m.effects + SlotClosing(m.schemaReadTx))
    ensures m.schemaReadTx.None? ==> r == m
  {
    if m.schemaReadTx.Some? then
      m.(schemaReadTx := None, effects := m.effects + [TransactionClosed(m.schemaReadTx.value.id)])
    else m
  }

  /** close(message): gated by compare-and-set(true, false) on the flag. */
  function Close(m: Model, message: Option<Notice>): (r: Model)
    ensures Inv(m) ==> Inv(r)
    ensures !m.isOpen ==> r == m
    ensures m.isOpen ==> !r.isOpen && r.schemaReadTx.None? && r.session.None?
    // teardown in order (slot, user transaction, session), then the message
    ensures m.isOpen ==> r.effects == m.effects + SlotClosing(m.schemaReadTx) + [UserTransactionClosed]
                                      + SessionClosing(m.session) + Notifying(message)
    ensures r.sessionType == m.sessionType && r.onOpen == m.onOpen && r.nextId == m.nextId
    ensures r.lastSchemaReadTxTime == m.lastSchemaReadTxTime
  {
    var (won, flag) := Atomic.CompareAndSetResult(m.isOpen, true, false);
    if !won then m.(isOpen := flag)
    else
      var slotClosed := CloseSchemaReadTx(m.(isOpen := flag));
      var userTxClosed := slotClosed.(effects := slotClosed.effects + [UserTransactionClosed]);
      var sessionClosed :=
        if userTxClosed.session.Some?
        then userTxClosed.(effects := userTxClosed.effects + [SessionClosed(userTxClosed.session.value.id)])
        else userTxClosed;
      var cleared := sessionClosed.(session := None);
      if message.Some? then cleared.(effects := cleared.effects + [UserError(message.value)]) else cleared
  }

  /** The remote-close callback registered on every session the client hands over. */
  function OnSessionClosedOnServer(m: Model): (r: Model)
    ensures Inv(m) ==> Inv(r)
    ensures !r.isOpen && r.session == (if m.isOpen then None else m.session)
    ensures m.isOpen ==> |r.effects| > 0 && r.effects[|r.effects| - 1] == UserError(ClosedOnServer())
  {
    Close(m, Some(ClosedOnServer()))
  }

  // -------------------------------------------------------------------- open

  /** One CallbackRan per callback, in registration order, each seeing the
      given type and flag. */
  function CallbackRuns(callbacks: seq<Callback>, sawType: SessionType, sawOpen: bool): (runs: seq<Effect>)
    ensures |runs| == |callbacks|
    decreases |callbacks|
  {
    if callbacks == [] then []
    else CallbackRuns(callbacks[..|callbacks| - 1], sawType, sawOpen)
         + [CallbackRan(callbacks[|callbacks| - 1], sawType, sawOpen)]
  }

  /** The k-th run is the k-th registered callback: each runs once, in
      registration order. */
  lemma {:induction false} CallbackRunsInOrder(callbacks: seq<Callback>, sawType: SessionType, sawOpen: bool, k: nat)
    requires k < |callbacks|
    ensures CallbackRuns(callbacks, sawType, sawOpen)[k] == CallbackRan(callbacks[k], sawType, sawOpen)
    decreases |callbacks|
  {
    if k < |callbacks| - 1 {
      CallbackRunsInOrder(callbacks[..|callbacks| - 1], sawType, sawOpen, k);
    }
  }

  /** tryOpen(database, t), the client's `session(database, t)` having done `reply`. */
  function TryOpen(m: Model, database: string, t: SessionType, reply: SessionReply): (r: Model)
    ensures Inv(m) ==> Inv(r)
    // idempotent: already open on this database and type, nothing happens
    ensures IsOpenOn(m, database, t) ==> r == m
    ensures !IsOpenOn(m, database, t) ==> (r.isOpen <==> reply == NewSession(true))
    ensures r.onOpen == m.onOpen && m.nextId <= r.nextId
    // switching sessions never carries the schema-read transaction over
    ensures Inv(m) && !IsOpenOn(m, database, t) ==> r.schemaReadTx.None?
  {
    if IsOpenOn(m, database, t) then m
    else Answer(Requested(m, database, t), database, t, reply)
  }

  /** tryOpen up to the client call: close, then ask for the session. Any
      open session is torn down by then, and with it the schema-read slot. */
  function Requested(m: Model, database: string, t: SessionType): (r: Model)
    ensures r.effects == Close(m, None).effects + [SessionRequested(database, t)]
    ensures !r.isOpen
    ensures Inv(m) ==> Inv(r) && r.schemaReadTx.None? && (r.session.Some? ==> !r.session.value.isOpen)
  {
    var closed := Close(m, None);
    closed.(effects := closed.effects + [SessionRequested(database, t)])
  }

  /** tryOpen after the client call: what the reply leads to. The flag ends
      set exactly when an open session came back; the slot is left alone. */
  function Answer(requested: Model, database: string, t: SessionType, reply: SessionReply): (r: Model)
    ensures Inv(requested) && !requested.isOpen ==> Inv(r)
    ensures r.isOpen <==> reply == NewSession(true)
    ensures r.onOpen == requested.onOpen && r.schemaReadTx == requested.schemaReadTx
  {
    match reply
    case ClientException =>
      requested.(effects := requested.effects + [UserError(FailedToOpen(t, database))], isOpen := false)
    case NoSession =>
      requested.(session := None, isOpen := false)
    case NewSession(reportsOpen) =>
      var received := requested.(session := Some(TypeDBSession(requested.nextId, database, t, reportsOpen)),
                                 nextId := requested.nextId + 1);
      if reportsOpen then
        var typed := received.(sessionType := t);
        typed.(effects := typed.effects + CallbackRuns(typed.onOpen, typed.sessionType, typed.isOpen),
               isOpen := true)
      else received.(isOpen := false)
  }

  /** Unless already open on the same database and type, tryOpen first
      closes (tearing down an open session) and only then asks the client. */
  lemma TryOpenClosesFirst(m: Model, database: string, t: SessionType, reply: SessionReply)
    requires !IsOpenOn(m, database, t)
    ensures var requested := Close(m, None).effects + [SessionRequested(database, t)];
            var r := TryOpen(m, database, t, reply);
            |requested| <= |r.effects| && r.effects[..|requested|] == requested
  {
    var requested := Requested(m, database, t);
    var r := TryOpen(m, database, t, reply);
    assert r == Answer(requested, database, t, reply);
    assert |requested.effects| <= |r.effects| && r.effects[..|requested.effects|] == requested.effects;
  }

  /** Opening with the same arguments right after a successful open does nothing. */
  lemma TryOpenTwice(m: Model, database: string, t: SessionType, second: SessionReply)
    ensures var once := TryOpen(m, database, t, NewSession(true));
            once.isOpen && TryOpen(once, database, t, second) == once
  {
    var once := TryOpen(m, database, t, NewSession(true));
    if !IsOpenOn(m, database, t) {
      assert DatabaseName(once) == Some(database);
    }
    assert IsOpenOn(once, database, t);
  }

  /** A successful open: the new session is held with type t, every callback
      has run once, in registration order, seeing type t and the flag still
      false, and only then is the flag set. */
  lemma TryOpenSucceeds(m: Model, database: string, t: SessionType)
    requires !IsOpenOn(m, database, t)
    ensures var r := TryOpen(m, database, t, NewSession(true));
            var afterClose := Close(m, None);
            && r.isOpen && r.sessionType == t && DatabaseName(r) == Some(database)
            && r.session == Some(TypeDBSession(afterClose.nextId, database, t, true))
            && r.effects == afterClose.effects + [SessionRequested(database, t)] + CallbackRuns(m.onOpen, t, false)
            && |r.effects| == |afterClose.effects| + 1 + |m.onOpen|
            && (forall k :: 0 <= k < |m.onOpen| ==>
                  r.effects[|afterClose.effects| + 1 + k] == CallbackRan(m.onOpen[k], t, false))
            && Notices(r.effects) == Notices(m.effects)
  {
    var afterClose := Close(m, None);
    var requested := Requested(m, database, t);
    var r := TryOpen(m, database, t, NewSession(true));
    assert r == Answer(requested, database, t, NewSession(true));
    var runs := CallbackRuns(m.onOpen, t, false);
    assert r.effects == afterClose.effects + ([SessionRequested(database, t)] + runs);
    forall k | 0 <= k < |m.onOpen|
      ensures r.effects[|afterClose.effects| + 1 + k] == CallbackRan(m.onOpen[k], t, false)
    {
      CallbackRunsInOrder(m.onOpen, t, false, k);
    }
    var tail := [SessionRequested(database, t)] + runs;
    forall i | 0 <= i < |tail| ensures !tail[i].UserError? {
      if i > 0 {
        CallbackRunsInOrder(m.onOpen, t, false, i - 1);
      }
    }
    CloseWithoutMessageIsQuiet(m);
    NoticesOfQuiet(tail);
    NoticesAppend(afterClose.effects, [SessionRequested(database, t)] + runs);
  }

  /** The failing opens: no flag, and a notice only when the client threw. A
      returned session that is not open is still held (a stale session). */
  lemma TryOpenFails(m: Model, database: string, t: SessionType, reply: SessionReply)
    requires !IsOpenOn(m, database, t) && reply != NewSession(true)
    ensures var r := TryOpen(m, database, t, reply);
            && !r.isOpen
            && Notices(r.effects) == Notices(m.effects)
                 + (if reply == ClientException then [FailedToOpen(t, database)] else [])
            && (reply == NoSession ==> r.session.None?)
            && (reply == NewSession(false) ==>
                  r.session == Some(TypeDBSession(Close(m, None).nextId, database, t, false)))
            && (reply == ClientException ==> r.session == Close(m, None).session)
  {
    var closed := Close(m, None);
    CloseWithoutMessageIsQuiet(m);
    var r := TryOpen(m, database, t, reply);
    if reply == ClientException {
      NoticesAppend(closed.effects, [SessionRequested(database, t), UserError(FailedToOpen(t, database))]);
      NoticesAppend([SessionRequested(database, t)], [UserError(FailedToOpen(t, database))]);
      assert r.effects == closed.effects + [SessionRequested(database, t), UserError(FailedToOpen(t, database))];
    } else {
      NoticesAppend(closed.effects, [SessionRequested(database, t)]);
      assert r.effects == closed.effects + [SessionRequested(database, t)];
    }
  }

  // ------------------------------------------------------------------- close

  /** Without a message, close tells the notification manager nothing. */
  lemma CloseWithoutMessageIsQuiet(m: Model)
    ensures Notices(Close(m, None).effects) == Notices(m.effects)
  {
    if m.isOpen {
      var tail := SlotClosing(m.schemaReadTx) + [UserTransactionClosed] + SessionClosing(m.session);
      assert Close(m, None).effects == m.effects + tail;
      NoticesOfQuiet(tail);
      NoticesAppend(m.effects, tail);
    }
  }

  /** Closing an open manager logs the message once, as its last effect;
      closing a closed one logs nothing. */
  lemma CloseNotifiesOnce(m: Model, message: Option<Notice>)
    ensures var r := Close(m, message);
            Notices(r.effects) == Notices(m.effects) + (if m.isOpen && message.Some? then [message.value] else [])
    ensures m.isOpen && message.Some? ==> Close(m, message).effects[|Close(m, message).effects| - 1] == UserError(message.value)
  {
    if m.isOpen {
      var tail := SlotClosing(m.schemaReadTx) + [UserTransactionClosed] + SessionClosing(m.session);
      assert Close(m, message).effects == m.effects + tail + Notifying(message);
      NoticesOfQuiet(tail);
      NoticesAppend(m.effects, tail);
      NoticesAppend(m.effects + tail, Notifying(message));
    }
  }

  /** Teardown happens at most once: a second close, with any message, changes
      nothing and logs nothing. */
  lemma CloseTwice(m: Model, first: Option<Notice>, second: Option<Notice>)
    ensures Close(Close(m, first), second) == Close(m, first)
  {
  }

  /** closeSchemaReadTx is idempotent. */
  lemma CloseSchemaReadTxTwice(m: Model)
    ensures CloseSchemaReadTx(CloseSchemaReadTx(m)) == CloseSchemaReadTx(m)
  {
  }

  // ------------------------------------------------------------ transactions

  /** transaction(type, options): a new transaction on the held session;
      nothing when no session is held; the client's refusal when the held
      session is not open. Options are passed on only when given; None stands
      for the call without options. */
  function Transaction(m: Model, txType: TransactionType, options: Option<TypeDBOptions>)
    : (r: Step<Outcome<Option<TypeDBTransaction>>>)
    ensures Inv(m) ==> Inv(r.next)
    ensures r.result == Returned(None) <==> m.session.None?
    ensures r.result == Failed(TransactionRefused) <==> m.session.Some? && !m.session.value.isOpen
    ensures r.result.Failed? || r.result.value.None? ==> r.next == m
    ensures r.result.Returned? && r.result.value.Some? ==>
              var tx := r.result.value.value;
              && tx.id == m.nextId
              && tx.session == m.session.value.id
              && tx.transactionType == txType
              && tx.options == options
              && r.next == m.(nextId := m.nextId + 1, effects := m.effects + [TransactionOpened(tx)])
  {
    if m.session.None? then Step(m, Returned(None))
    else if !m.session.value.isOpen then Step(m, Failed(TransactionRefused))
    else
      var tx := TypeDBTransaction(m.nextId, m.session.value.id, txType, options);
      Step(m.(nextId := m.nextId + 1, effects := m.effects + [TransactionOpened(tx)]), Returned(Some(tx)))
  }

  /** The candidate openOrGetSchemaReadTx opens on every call. */
  function Candidate(m: Model): (tx: TypeDBTransaction)
    requires m.session.Some?
    ensures tx.id == m.nextId && tx.transactionType == Read && tx.options == Some(SchemaReadOptions)
  {
    TypeDBTransaction(m.nextId, m.session.value.id, Read, Some(SchemaReadOptions))
  }

  /** openOrGetSchemaReadTx at time now. The touch comes first; then a
      candidate is asked of the held session, and the slot receives it only
      when empty. Two paths throw: the client refuses the candidate (the held
      session is not open), or no session is held and the empty slot, set to
      nothing, is dereferenced. */
  function OpenOrGetSchemaReadTx(m: Model, now: int): (r: Step<Outcome<TypeDBTransaction>>)
    ensures Inv(m) ==> Inv(r.next)
    ensures r.next.lastSchemaReadTxTime == now
    ensures r.result == Failed(TransactionRefused) <==> m.session.Some? && !m.session.value.isOpen
    ensures r.result == Failed(NullDereference) <==> m.session.None? && m.schemaReadTx.None?
    ensures r.result.Failed? ==> r.next == m.(lastSchemaReadTxTime := now)
    // a full slot is reused; an empty one receives the candidate
    ensures r.result.Returned? ==>
              && r.next.schemaReadTx == Some(r.result.value)
              && (m.schemaReadTx.Some? ==> r.result.value == m.schemaReadTx.value)
              && (m.schemaReadTx.None? ==> m.session.Some? && r.result.value == Candidate(m))
    // the candidate is opened whenever a session is held; the timer is armed only on install
    ensures r.result.Returned? ==>
              r.next.effects == m.effects
                                + (if m.session.Some? then [TransactionOpened(Candidate(m))] else [])
                                + (if m.schemaReadTx.None? && m.session.Some?
                                   then [EvictionLoopStarted(Candidate(m).id)] else [])
    ensures r.next.nextId == m.nextId + (if r.result.Returned? && m.session.Some? then 1 else 0)
    ensures r.next.session == m.session && r.next.isOpen == m.isOpen
    ensures r.next.sessionType == m.sessionType && r.next.onOpen == m.onOpen
  {
    var touched := m.(lastSchemaReadTxTime := now);
    var asked := Transaction(touched, Read, Some(SchemaReadOptions));
    if asked.result.Failed? then Step(asked.next, Failed(asked.result.failure))
    else
      var (installed, slot) := Atomic.CompareAndSetResult(asked.next.schemaReadTx, None, asked.result.value);
      var held := asked.next.(schemaReadTx := slot);
      if installed && slot.None? then Step(held, Failed(NullDereference))
      else if installed then Step(held.(effects := held.effects + [EvictionLoopStarted(slot.value.id)]), Returned(slot.value))
      else Step(held, Returned(slot.value))
  }

  /** Once a call has returned, repeated calls return the same transaction,
      and only the first can have armed a timer. */
  lemma OpenOrGetSchemaReadTxTwice(m: Model, now1: int, now2: int)
    ensures var first := OpenOrGetSchemaReadTx(m, now1);
            var second := OpenOrGetSchemaReadTx(first.next, now2);
            first.result.Returned? ==>
              && second.result == first.result
              && second.next.effects == first.next.effects
                                        + (if m.session.Some? then [TransactionOpened(Candidate(first.next))] else [])
              && second.next.lastSchemaReadTxTime == now2
  {
  }

  /** resetSchemaReadTx at time now: on a full slot, close it and open or get
      again. The result is the exception the reopening threw, if any. */
  function ResetSchemaReadTx(m: Model, now: int): (r: Step<Option<Failure>>)
    ensures Inv(m) ==> Inv(r.next)
    ensures m.schemaReadTx.None? ==> r == Step(m, None)
    // the reopening throws exactly when the held session cannot give a transaction
    ensures r.result.Some? <==> m.schemaReadTx.Some? && !(m.session.Some? && m.session.value.isOpen)
    ensures r.result.Some? ==> r.next == CloseSchemaReadTx(m).(lastSchemaReadTxTime := now)
    ensures m.schemaReadTx.Some? && r.result.None? ==>
              var cleared := CloseSchemaReadTx(m);
              && m.session.Some?
              && r.next.schemaReadTx == Some(Candidate(cleared))
              && r.next.lastSchemaReadTxTime == now
              && r.next.effects == m.effects + [TransactionClosed(m.schemaReadTx.value.id),
                                                TransactionOpened(Candidate(cleared)),
                                                EvictionLoopStarted(Candidate(cleared).id)]
    // a manager in its invariant holds a transaction only on an open session
    ensures Inv(m) ==> r.result.None?
  {
    if m.schemaReadTx.None? then Step(m, None)
    else
      var reopened := OpenOrGetSchemaReadTx(CloseSchemaReadTx(m), now);
      Step(reopened.next, if reopened.result.Failed? then Some(reopened.result.failure) else None)
  }

  /** After a reset the slot holds a transaction other than the one it held:
      its id is one never given out before the reset. */
  lemma ResetGivesNewTransaction(m: Model, now: int)
    requires Inv(m) && m.schemaReadTx.Some?
    ensures var r := ResetSchemaReadTx(m, now).next;
            && r.schemaReadTx.Some? && r.schemaReadTx.value != m.schemaReadTx.value
            && r.schemaReadTx.value.id == m.nextId && m.schemaReadTx.value.id < r.schemaReadTx.value.id
  {
  }

  // ------------------------------------------------------------ idle eviction

  /** One wake-up of the eviction timer at time now. */
  function IdleTimerWake(m: Model, now: int): (r: Step<Wake>)
    ensures Inv(m) ==> Inv(r.next)
    ensures r.result.Evict? <==> now - m.lastSchemaReadTxTime >= WaitTimeMillis
    ensures r.result.Evict? ==> r.next == CloseSchemaReadTx(m)
    ensures r.result.Wait? ==> r.next == m && now + r.result.delayMillis == m.lastSchemaReadTxTime + WaitTimeMillis
  {
    var w := WakeUp(now, m.lastSchemaReadTxTime);
    if w.Evict? then Step(CloseSchemaReadTx(m), w) else Step(m, w)
  }

  /** A touch within the wait time postpones the wake-up to the wait time after
      that touch, and leaves the slot alone. */
  lemma TouchPostponesEviction(m: Model, touch: int, wake: int)
    requires touch <= wake < touch + WaitTimeMillis
    ensures var touched := OpenOrGetSchemaReadTx(m, touch).next;
            var woke := IdleTimerWake(touched, wake);
            && woke.result == Wait(touch + WaitTimeMillis - wake)
            && woke.next == touched
  {
  }

  /** Once the timer has evicted an idle transaction, the next call opens and
      installs a fresh one, and arms a new timer for it. */
  lemma EvictionThenFreshTransaction(m: Model, now: int, later: int)
    requires Inv(m) && m.schemaReadTx.Some?
    requires now - m.lastSchemaReadTxTime >= WaitTimeMillis
    ensures var woke := IdleTimerWake(m, now);
            && woke.result == Evict
            && woke.next.schemaReadTx.None?
            && var again := OpenOrGetSchemaReadTx(woke.next, later);
               && again.result.Returned?
               && again.result.value != m.schemaReadTx.value
               && again.result.value.id == m.nextId
               && again.next.effects[|again.next.effects| - 1] == EvictionLoopStarted(again.result.value.id)
  {
  }

  /** open(db1, DATA); open(db1, DATA) again; open(db2, SCHEMA); close; close. */
  lemma OpenSwitchCloseScenario(m: Model)
    requires Inv(m) && !m.isOpen
    ensures var a := TryOpen(m, "db1", Data, NewSession(true));
            var b := TryOpen(a, "db1", Data, NewSession(true));
            var c := TryOpen(b, "db2", Schema, NewSession(true));
            var d := Close(c, None);
            var e := Close(d, None);
            && a.isOpen && b == a
            && c.isOpen && DatabaseName(c) == Some("db2") && c.sessionType == Schema
            && |a.effects| < |c.effects| && SessionClosed(a.session.value.id) == c.effects[|a.effects| + 1]
            && !d.isOpen && d.session.None? && e == d
            && Notices(e.effects) == Notices(m.effects)
  {
    var a := TryOpen(m, "db1", Data, NewSession(true));
    TryOpenSucceeds(m, "db1", Data);
    TryOpenTwice(m, "db1", Data, NewSession(true));
    assert "db1" != "db2";
    assert !IsOpenOn(a, "db2", Schema);
    var c := TryOpen(a, "db2", Schema, NewSession(true));
    TryOpenSucceeds(a, "db2", Schema);
    assert Close(a, None).effects == a.effects + SlotClosing(a.schemaReadTx) + [UserTransactionClosed]
                                     + SessionClosing(a.session);
    CloseWithoutMessageIsQuiet(c);
    CloseTwice(c, None, None);
  }

  // ---------------------------------------------------------- call sequences

  /** One call into the manager, by its user, by a remote-close callback or by
      the eviction timer, with what the outside world does in it. */
  datatype Call =
    | RegisterOnOpen(callback: Callback)
    | Open(database: string, requestedType: SessionType, reply: SessionReply)
    | CloseWith(message: Option<Notice>)
    | SessionClosedRemotely
    | OpenTransaction(txType: TransactionType, options: Option<TypeDBOptions>)
    | GetSchemaReadTx(now: int)
    | ResetSchemaRead(now: int)
    | CloseSchemaRead
    | TimerWake(now: int)

  function Apply(m: Model, c: Call): (r: Model)
    ensures Inv(m) ==> Inv(r)
    ensures m.nextId <= r.nextId
  {
    match c
    case RegisterOnOpen(callback) => OnOpen(m, callback)
    case Open(database, t, reply) => TryOpen(m, database, t, reply)
    case CloseWith(message) => Close(m, message)
    case SessionClosedRemotely => OnSessionClosedOnServer(m)
    case OpenTransaction(txType, options) => Transaction(m, txType, options).next
    case GetSchemaReadTx(now) => OpenOrGetSchemaReadTx(m, now).next
    case ResetSchemaRead(now) => ResetSchemaReadTx(m, now).next
    case CloseSchemaRead => CloseSchemaReadTx(m)
    case TimerWake(now) => IdleTimerWake(m, now).next
  }

  /** The calls in order: every state a manager reaches keeps the invariant,
      and handle ids are never reused. */
  function Run(m: Model, calls: seq<Call>): (r: Model)
    ensures Inv(m) ==> Inv(r)
    ensures m.nextId <= r.nextId
    decreases |calls|
  {
    if calls == [] then m else Run(Apply(m, calls[0]), calls[1..])
  }

  /** Whatever the calls, the schema-read transaction never outlives the
      session it was opened on: while one is held, so is that session, open. */
  lemma SchemaReadTxBelongsToOpenSession(calls: seq<Call>)
    ensures var m := Run(Initial(), calls);
            m.schemaReadTx.Some? ==>
              m.isOpen && m.session.Some? && m.session.value.isOpen
              && m.schemaReadTx.value.session == m.session.value.id
  {
  }

  /** No id below b is still to be given out, and the slot holds none. */
  predicate NothingBelow(m: Model, b: nat) {
    b <= m.nextId && (m.schemaReadTx.Some? ==> b <= m.schemaReadTx.value.id)
  }

  lemma ApplyKeepsNothingBelow(m: Model, c: Call, b: nat)
    requires NothingBelow(m, b)
    ensures NothingBelow(Apply(m, c), b)
  {
    match c
    case ResetSchemaRead(now) =>
      var reopened := OpenOrGetSchemaReadTx(CloseSchemaReadTx(m), now);
      assert NothingBelow(reopened.next, b);
    case _ =>
  }

  lemma {:induction false} RunKeepsNothingBelow(m: Model, calls: seq<Call>, b: nat)
    requires NothingBelow(m, b)
    ensures NothingBelow(Run(m, calls), b)
    decreases |calls|
  {
    if calls != [] {
      ApplyKeepsNothingBelow(m, calls[0], b);
      RunKeepsNothingBelow(Apply(m, calls[0]), calls[1..], b);
    }
  }

  /** Once reset, the transaction the slot held is never handed out again,
      whatever calls follow. */
  lemma ResetRetiresOldTransaction(m: Model, now: int, calls: seq<Call>, later: int)
    requires Inv(m) && m.schemaReadTx.Some?
    ensures var got := OpenOrGetSchemaReadTx(Run(ResetSchemaReadTx(m, now).next, calls), later).result;
            got.Returned? ==> got.value != m.schemaReadTx.value
  {
    var reset := ResetSchemaReadTx(m, now).next;
    assert NothingBelow(reset, m.nextId);
    RunKeepsNothingBelow(reset, calls, m.nextId);
  }
}
