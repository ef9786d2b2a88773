/**
 * The outside world of the session manager, as values.
 *
 * The TypeDB client, its sessions and its transactions are remote objects the
 * manager cannot look inside. Here a session and a transaction are handles
 * carrying an id the manager hands out, and everything the manager asks of the
 * client or of the notification manager is recorded, in order, as an Effect.
 */
module Handles {

  datatype Option<+T> = None | Some(value: T)

  /** TypeDBSession.Type */
  datatype SessionType = Schema | Data

  /** TypeDBTransaction.Type */
  datatype TransactionType = Read | Write

  /** TypeDBOptions, reduced to the one option the manager sets. */
  datatype TypeDBOptions = TypeDBOptions(transactionTimeoutMillis: int)

  /** A session handle: the database and type it was requested for, and
      whether the client reported it open when it was handed over. */
  datatype TypeDBSession = TypeDBSession(id: nat, database: string, sessionType: SessionType, isOpen: bool)

  /** A transaction handle, with the session it was opened on and the
      arguments of the call that opened it (None: the default overload). */
  datatype TypeDBTransaction = TypeDBTransaction(
    id: nat, session: nat, transactionType: TransactionType, options: Option<TypeDBOptions>)

  /** What `client.session(database, type)` did: returned null, returned a
      session (open or not), or threw a TypeDBClientException. */
  datatype SessionReply = NoSession | NewSession(reportsOpen: bool) | ClientException

  /** The user-facing messages the manager raises itself; any other message
      a caller passes to close is OtherMessage. */
  datatype Message = FailedToOpenSession | SessionClosedOnServer | OtherMessage(code: string)

  datatype Param = TypeParam(sessionType: SessionType) | TextParam(text: string)

  /** One entry of the notification manager: a message and its parameters. */
  datatype Notice = Notice(message: Message, params: seq<Param>)

  /** Why a call ended in an exception instead of returning: the client
      refused a transaction on a session that is not open, or the code
      dereferenced an empty slot. */
  datatype Failure = TransactionRefused | NullDereference

  /** What a call that may throw did: returned a value, or threw. */
  datatype Outcome<T> = Returned(value: T) | Failed(failure: Failure)

  /** An onOpen callback, known only by the handle it was registered with. */
  type Callback = nat

  /** One observable action of the manager, in the order it happens. */
  datatype Effect =
    | SessionRequested(database: string, requestedType: SessionType)
    | SessionClosed(sessionId: nat)
    | TransactionOpened(tx: TypeDBTransaction)
    | TransactionClosed(closedId: nat)
    | UserTransactionClosed
    | EvictionLoopStarted(armedFor: nat)
      /** a callback ran, and what it could see of the manager while it ran */
    | CallbackRan(callback: Callback, sawType: SessionType, sawOpen: bool)
    | UserError(notice: Notice)

  /** The notification manager's log: the notices among the effects, in order
      (NoticesAppend). Every notice raised is in the log, and nothing else is. */
  function Notices(effects: seq<Effect>): (ns: seq<Notice>)
    ensures forall i :: 0 <= i < |effects| && effects[i].UserError? ==> effects[i].notice in ns
    ensures forall n :: n in ns ==> UserError(n) in effects
  {
    if effects == [] then []
    else Notices(effects[..|effects| - 1])
         + (if effects[|effects| - 1].UserError? then [effects[|effects| - 1].notice] else [])
  }

  lemma {:induction false} NoticesAppend(a: seq<Effect>, b: seq<Effect>)
    ensures Notices(a + b) == Notices(a) + Notices(b)
    decreases |b|
  {
    if b == [] {
      assert a + b == a;
    } else {
      var b' := b[..|b| - 1];
      assert (a + b)[..|a + b| - 1] == a + b';
      NoticesAppend(a, b');
    }
  }

  /** A run of effects none of which is a notice adds nothing to the log. */
  lemma {:induction false} NoticesOfQuiet(e: seq<Effect>)
    requires forall i :: 0 <= i < |e| ==> !e[i].UserError?
    ensures Notices(e) == []
    decreases |e|
  {
    if e != [] {
      NoticesOfQuiet(e[..|e| - 1]);
    }
  }
}
