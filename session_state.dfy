/**
 * SessionState: the object that holds at most one session to a TypeDB
 * database, the type it was opened with, the open flag, the onOpen
 * callbacks, and one cached schema-read transaction with its last touch.
 *
 * Each method changes the fields as the code does, step by step, and is
 * proved to take the object from Abstract() to what a SessionModel function
 * says: the one of the same name for the operations, Initial for the
 * constructor, Answer for AcceptReply (tryOpen after the client's reply) and
 * CallbackRuns for RunOnOpen. The client's answers and the clock are parameters; what the
 * object asks of the client and of the notification manager is appended to
 * `effects`.
 */
module Connection {
  import opened Handles
  import opened Atomic
  import opened IdleEviction
  import SessionModel

  class SessionState {
    var sessionType: SessionType
    var session: Option<TypeDBSession>
    const isOpenAtomic: AtomicReferenceState<bool>
    var schemaReadTx: Option<TypeDBTransaction>
    var lastSchemaReadTxTime: int
    var onOpen: seq<Callback>
    var nextId: nat
    var effects: seq<Effect>

    ghost function Abstract(): SessionModel.Model
      reads this, isOpenAtomic
    {
      SessionModel.Model(sessionType, session, isOpenAtomic.state, onOpen, schemaReadTx,
                         lastSchemaReadTxTime, nextId, effects)
    }

    ghost predicate Valid()
      reads this, isOpenAtomic
    {
      SessionModel.Inv(Abstract())
    }

    /** isOpen: in a valid state, exactly whether an open session is held. */
    function IsOpen(): (b: bool)
      reads this, isOpenAtomic
      ensures Valid() ==> (b <==> session.Some? && session.value.isOpen)
    {
      isOpenAtomic.state
    }

    /** databaseName: the held session's database, as the tryOpen guard compares it. */
    function DatabaseName(): (name: Option<string>)
      reads this, isOpenAtomic
      ensures name.Some? <==> session.Some?
      ensures name.Some? ==> name.value == session.value.database
      ensures name == SessionModel.DatabaseName(Abstract())
    {
      if session.Some? then Some(session.value.database) else None
    }

    constructor ()
      ensures Valid() && fresh(isOpenAtomic)
      ensures Abstract() == SessionModel.Initial()
    {
      sessionType := Data;
      session := None;
      isOpenAtomic := new AtomicReferenceState(false);
      schemaReadTx := None;
      lastSchemaReadTxTime := 0;
      onOpen := [];
      nextId := 0;
      effects := [];
    }

    method OnOpen(callback: Callback)
      requires Valid()
      modifies this
      ensures Valid()
      ensures Abstract() == SessionModel.OnOpen(old(Abstract()), callback)
    {
      onOpen := onOpen + [callback];
    }

    method TryOpen(database: string, t: SessionType, reply: SessionReply)
      requires Valid()
      modifies this, isOpenAtomic
      ensures Valid()
      ensures Abstract() == SessionModel.TryOpen(old(Abstract()), database, t, reply)
    {
      if IsOpen() && DatabaseName() == Some(database) && sessionType == t {
        return;
      }
      Close();
      effects := effects + [SessionRequested(database, t)];
      AcceptReply(database, t, reply);
    }

    /** The rest of tryOpen, once the client has answered `session(database, t)`:
        hold what it returned and set the flag, or report the exception. */
    method AcceptReply(database: string, t: SessionType, reply: SessionReply)
      requires Valid() && !IsOpen()
      modifies this, isOpenAtomic
      ensures Valid()
      ensures Abstract() == SessionModel.Answer(old(Abstract()), database, t, reply)
    {
      match reply
      case ClientException =>
        effects := effects + [UserError(SessionModel.FailedToOpen(t, database))];
        isOpenAtomic.Set(false);
      case NoSession =>
        session := None;
        isOpenAtomic.Set(false);
      case NewSession(reportsOpen) =>
        session := Some(TypeDBSession(nextId, database, t, reportsOpen));
        nextId := nextId + 1;
        if session.value.isOpen {
          sessionType := t;
          RunOnOpen();
          isOpenAtomic.Set(true);
        } else {
          isOpenAtomic.Set(false);
        }
    }

    /** Runs every registered callback once, in registration order. It runs
        while the new session is held but the flag is not yet set, so it does
        not rely on the invariant. */
    method RunOnOpen()
      modifies this
      ensures Abstract() == old(Abstract()).(effects := old(effects)
                                + SessionModel.CallbackRuns(onOpen, sessionType, IsOpen()))
    {
      var i := 0;
      while i < |onOpen|
        invariant 0 <= i <= |onOpen|
        invariant effects == old(effects) + SessionModel.CallbackRuns(onOpen[..i], sessionType, IsOpen())
        invariant Abstract() == old(Abstract()).(effects := effects)
      {
        assert onOpen[..i + 1][..i] == onOpen[..i];
        effects := effects + [CallbackRan(onOpen[i], sessionType, IsOpen())];
        i := i + 1;
      }
      assert onOpen[..i] == onOpen;
    }

    /** transaction(type, options); the client refuses a transaction on a
        session that is not open. */
    method Transaction(txType: TransactionType := Read, options: Option<TypeDBOptions> := None)
      returns (tx: Outcome<Option<TypeDBTransaction>>)
      requires Valid()
      modifies this
      ensures Valid()
      ensures SessionModel.Step(Abstract(), tx) == SessionModel.Transaction(old(Abstract()), txType, options)
    {
      if session.None? {
        return Returned(None);
      }
      if !session.value.isOpen {
        return Failed(TransactionRefused);
      }
      var handle: TypeDBTransaction;
      if options.Some? {
        handle := TypeDBTransaction(nextId, session.value.id, txType, Some(options.value));
      } else {
        handle := TypeDBTransaction(nextId, session.value.id, txType, None);
      }
      nextId := nextId + 1;
      effects := effects + [TransactionOpened(handle)];
      tx := Returned(Some(handle));
    }

    method OpenOrGetSchemaReadTx(now: int) returns (tx: Outcome<TypeDBTransaction>)
      requires Valid()
      modifies this
      ensures Valid()
      ensures SessionModel.Step(Abstract(), tx) == SessionModel.OpenOrGetSchemaReadTx(old(Abstract()), now)
    {
      lastSchemaReadTxTime := now;
      var options := SessionModel.SchemaReadOptions;
      var candidate := Transaction(options := Some(options));
      if candidate.Failed? {
        return Failed(candidate.failure);
      }
      var (installed, slot) := CompareAndSetResult(schemaReadTx, None, candidate.value);
      schemaReadTx := slot;
      if installed {
        if schemaReadTx.None? {
          // the remote-close registration dereferences the empty slot
          return Failed(NullDereference);
        }
        effects := effects + [EvictionLoopStarted(schemaReadTx.value.id)];
      }
      tx := Returned(schemaReadTx.value);
    }

    /** One wake-up of the idle-eviction timer at time now. */
    method IdleTimerWake(now: int) returns (w: Wake)
      requires Valid()
      modifies this
      ensures Valid()
      ensures SessionModel.Step(Abstract(), w) == SessionModel.IdleTimerWake(old(Abstract()), now)
    {
      w := WakeUp(now, lastSchemaReadTxTime);
      if w.Evict? {
        CloseSchemaReadTx();
      }
    }

    /** resetSchemaReadTx; the result is the exception the reopening threw, if any. */
    method ResetSchemaReadTx(now: int) returns (thrown: Option<Failure>)
      requires Valid()
      modifies this
      ensures Valid()
      ensures SessionModel.Step(Abstract(), thrown) == SessionModel.ResetSchemaReadTx(old(Abstract()), now)
    {
      thrown := None;
      if schemaReadTx.Some? {
        CloseSchemaReadTx();
        var reopened := OpenOrGetSchemaReadTx(now);
        if reopened.Failed? {
          thrown := Some(reopened.failure);
        }
      }
    }

    /** Also the remote-close callback registered on the schema-read
        transaction. close calls it after clearing the flag, before releasing
        the session, so it does not rely on the invariant. */
    method CloseSchemaReadTx()
      modifies this
      ensures old(Valid()) ==> Valid()
      ensures Abstract() == SessionModel.CloseSchemaReadTx(old(Abstract()))
    {
      var taken := schemaReadTx;
      schemaReadTx := None;
      if taken.Some? {
        effects := effects + [TransactionClosed(taken.value.id)];
      }
    }

    method Close(message: Option<Notice> := None)
      requires Valid()
      modifies this, isOpenAtomic
      ensures Valid()
      ensures Abstract() == SessionModel.Close(old(Abstract()), message)
    {
      var won := isOpenAtomic.CompareAndSet(true, false);
      if won {
        CloseSchemaReadTx();
        effects := effects + [UserTransactionClosed];
        if session.Some? {
          effects := effects + [SessionClosed(session.value.id)];
        }
        session := None;
        if message.Some? {
          effects := effects + [UserError(message.value)];
        }
      }
    }

    /** The remote-close callback registered on every session the client hands over. */
    method OnSessionClosedOnServer()
      requires Valid()
      modifies this, isOpenAtomic
      ensures Valid()
      ensures Abstract() == SessionModel.OnSessionClosedOnServer(old(Abstract()))
    {
      Close(Some(SessionModel.ClosedOnServer()));
    }
  }
}
