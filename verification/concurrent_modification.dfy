/** The unit of work of ConcurrentModificationCheckConcern
    (org.qi4j.spi.entitystore): it wraps a store's unit of work, remembers
    the version of every state it loads, and checks and forgets those
    versions under a read-write lock.

    The unit of work is a record of the loaded states and a log of the calls
    it makes: on the lock, on the wrapped unit of work (the delegate) and on
    the shared version registry. What the delegate and the version check do
    is an input of each operation. */
module ConcurrentModification {
  import opened Results

  type EntityId = string
  type Version = string

  datatype EntityState = EntityState(identity: EntityId, version: Version)

  /** An exception: an EntityStoreException (the only kind applyChanges
      catches) or any other unchecked exception. */
  datatype Failure = StoreFailure(reason: string) | UncheckedFailure(reason: string)

  datatype Event =
    | ReadLock | ReadUnlock | WriteLock | WriteUnlock
    | DelegateIdentity
    | DelegateNewEntityState(id: EntityId)
    | DelegateGetEntityState(id: EntityId)
    | DelegateApplyChanges
    | DelegateCommit
    | DelegateCancel
    | DelegateDiscard
    | RememberVersion(id: EntityId, version: Version)
    | CheckForConcurrentModification(states: seq<EntityState>)
    | ForgetVersions(states: seq<EntityState>)

  datatype UnitOfWork = UnitOfWork(loaded: seq<EntityState>, log: seq<Event>)

  /** The result of one call: the unit of work afterwards, and what the call
      returned or threw. */
  datatype Step<+T> = Step(uow: UnitOfWork, result: Result<T, Failure>)

  /** The committer handed out by a successful applyChanges. */
  datatype StateCommitter = StateCommitter

  // lock holds and call discipline, read off the log

  function ReadDelta(e: Event): int {
    match e
    case ReadLock => 1
    case ReadUnlock => -1
    case _ => 0
  }

  function WriteDelta(e: Event): int {
    match e
    case WriteLock => 1
    case WriteUnlock => -1
    case _ => 0
  }

  /** Read-lock acquisitions not yet released. */
  function ReadHolds(log: seq<Event>): int
    decreases |log|
  {
    if log == [] then 0 else ReadHolds(log[..|log| - 1]) + ReadDelta(log[|log| - 1])
  }

  /** Write-lock acquisitions not yet released. */
  function WriteHolds(log: seq<Event>): int
    decreases |log|
  {
    if log == [] then 0 else WriteHolds(log[..|log| - 1]) + WriteDelta(log[|log| - 1])
  }

  /** Whether `e` may follow `before`: an unlock releases a hold, a version
      is remembered under a lock, and versions are checked and forgotten
      under the write lock. */
  predicate Allowed(before: seq<Event>, e: Event) {
    match e
    case ReadUnlock => ReadHolds(before) > 0
    case WriteUnlock => WriteHolds(before) > 0
    case RememberVersion(_, _) => ReadHolds(before) > 0 || WriteHolds(before) > 0
    case CheckForConcurrentModification(_) => WriteHolds(before) > 0
    case ForgetVersions(_) => WriteHolds(before) > 0
    case _ => true
  }

  /** Every event of the log is allowed after the events before it. */
  predicate Guarded(log: seq<Event>)
    decreases |log|
  {
    log == [] || (Guarded(log[..|log| - 1]) && Allowed(log[..|log| - 1], log[|log| - 1]))
  }

  /** Appends one event to the log. */
  function Emit(u: UnitOfWork, e: Event): (v: UnitOfWork)
    ensures v.loaded == u.loaded && v.log == u.log + [e]
    ensures ReadHolds(v.log) == ReadHolds(u.log) + ReadDelta(e)
    ensures WriteHolds(v.log) == WriteHolds(u.log) + WriteDelta(e)
    ensures Guarded(v.log) <==> Guarded(u.log) && Allowed(u.log, e)
  {
    var log := u.log + [e];
    assert log[..|log| - 1] == u.log;
    UnitOfWork(u.loaded, log)
  }

  // the operations

  /** identity(): a pass-through to the delegate. */
  function Identity(u: UnitOfWork, delegate: Result<string, Failure>): (r: Step<string>)
    ensures r.result == delegate
    ensures r.uow == UnitOfWork(u.loaded, u.log + [DelegateIdentity])
    ensures ReadHolds(r.uow.log) == ReadHolds(u.log) && WriteHolds(r.uow.log) == WriteHolds(u.log)
    ensures Guarded(r.uow.log) <==> Guarded(u.log)
  {
    Step(Emit(u, DelegateIdentity), delegate)
  }

  /** newEntityState(identity, descriptor): a pass-through to the delegate;
      the new state is not added to the loaded states. */
  function NewEntityState(u: UnitOfWork, id: EntityId, delegate: Result<EntityState, Failure>): (r: Step<EntityState>)
    ensures r.result == delegate
    ensures r.uow == UnitOfWork(u.loaded, u.log + [DelegateNewEntityState(id)])
    ensures ReadHolds(r.uow.log) == ReadHolds(u.log) && WriteHolds(r.uow.log) == WriteHolds(u.log)
    ensures Guarded(r.uow.log) <==> Guarded(u.log)
  {
    Step(Emit(u, DelegateNewEntityState(id)), delegate)
  }

  /** getEntityState(identity): under the read lock, fetch the state from the
      delegate, remember its version and add it to the loaded states; the
      read lock is released on both paths. */
  function GetEntityState(u: UnitOfWork, id: EntityId, delegate: Result<EntityState, Failure>): (r: Step<EntityState>)
    ensures r.result == delegate
    ensures delegate.Ok? ==>
      && r.uow.loaded == u.loaded + [delegate.value]
      && r.uow.log == u.log + [ReadLock] + [DelegateGetEntityState(id)]
                      + [RememberVersion(delegate.value.identity, delegate.value.version)] + [ReadUnlock]
    ensures delegate.Err? ==>
      && r.uow.loaded == u.loaded
      && r.uow.log == u.log + [ReadLock] + [DelegateGetEntityState(id)] + [ReadUnlock]
    ensures ReadHolds(r.uow.log) == ReadHolds(u.log) && WriteHolds(r.uow.log) == WriteHolds(u.log)
    ensures Guarded(u.log) && ReadHolds(u.log) >= 0 ==> Guarded(r.uow.log)
  {
    var locked := Emit(Emit(u, ReadLock), DelegateGetEntityState(id));
    match delegate
    case Err(f) =>
      Step(Emit(locked, ReadUnlock), Err(f))
    case Ok(s) =>
      var remembered := Emit(locked, RememberVersion(s.identity, s.version));
      Step(Emit(UnitOfWork(remembered.loaded + [s], remembered.log), ReadUnlock), Ok(s))
  }

  /** applyChanges() as written: take the write lock, check the loaded
      versions, then apply the delegate's changes. On success the write lock
      stays held for the committer. Only an EntityStoreException releases
      the lock before propagating; any other exception leaves it held. */
  function ApplyChangesAsWritten(u: UnitOfWork, check: Option<Failure>, delegate: Result<StateCommitter, Failure>): (r: Step<StateCommitter>)
    ensures r.uow.loaded == u.loaded
    ensures r.result.Ok? <==> check.None? && delegate.Ok?
    ensures r.result.Err? ==> r.result.error == if check.Some? then check.value else delegate.error
    ensures ReadHolds(r.uow.log) == ReadHolds(u.log)
    ensures WriteHolds(r.uow.log) == WriteHolds(u.log)
      + (if r.result.Ok? || r.result.error.UncheckedFailure? then 1 else 0)
  {
    var checking := Emit(Emit(u, WriteLock), CheckForConcurrentModification(u.loaded));
    match check
    case Some(f) =>
      if f.StoreFailure? then Step(Emit(checking, WriteUnlock), Err(f)) else Step(checking, Err(f))
    case None =>
      var applied := Emit(checking, DelegateApplyChanges);
      match delegate
      case Ok(c) => Step(applied, Ok(c))
      case Err(f) =>
        if f.StoreFailure? then Step(Emit(applied, WriteUnlock), Err(f)) else Step(applied, Err(f))
  }

  /** An unchecked exception from the delegate leaves the write lock held
      after applyChanges returns. */
  lemma ApplyChangesAsWrittenLeaksLock(u: UnitOfWork, reason: string)
    ensures var r := ApplyChangesAsWritten(u, None, Err(UncheckedFailure(reason)));
      r.result.Err? && WriteHolds(r.uow.log) == WriteHolds(u.log) + 1
  {
  }

  /** applyChanges() with the write lock released on every failure. */
  function ApplyChanges(u: UnitOfWork, check: Option<Failure>, delegate: Result<StateCommitter, Failure>): (r: Step<StateCommitter>)
    ensures r.uow.loaded == u.loaded
    ensures r.result.Ok? <==> check.None? && delegate.Ok?
    ensures check.Some? ==>
      && r.result == Err(check.value)
      && r.uow.log == u.log + [WriteLock] + [CheckForConcurrentModification(u.loaded)] + [WriteUnlock]
    ensures check.None? && delegate.Ok? ==>
      && r.result == delegate
      && r.uow.log == u.log + [WriteLock] + [CheckForConcurrentModification(u.loaded)] + [DelegateApplyChanges]
    ensures check.None? && delegate.Err? ==>
      && r.result == delegate
      && r.uow.log == u.log + [WriteLock] + [CheckForConcurrentModification(u.loaded)] + [DelegateApplyChanges]
                      + [WriteUnlock]
    ensures ReadHolds(r.uow.log) == ReadHolds(u.log)
    ensures WriteHolds(r.uow.log) == WriteHolds(u.log) + (if r.result.Ok? then 1 else 0)
    ensures Guarded(u.log) && WriteHolds(u.log) >= 0 ==> Guarded(r.uow.log)
  {
    var checking := Emit(Emit(u, WriteLock), CheckForConcurrentModification(u.loaded));
    match check
    case Some(f) => Step(Emit(checking, WriteUnlock), Err(f))
    case None =>
      var applied := Emit(checking, DelegateApplyChanges);
      match delegate
      case Ok(c) => Step(applied, Ok(c))
      case Err(f) => Step(Emit(applied, WriteUnlock), Err(f))
  }

  /** On every path where the version check or the delegate throws an
      EntityStoreException, the code as written and the corrected version
      agree. */
  lemma ApplyChangesAgreesOnStoreFailures(u: UnitOfWork, check: Option<Failure>, delegate: Result<StateCommitter, Failure>)
    requires check.Some? ==> check.value.StoreFailure?
    requires delegate.Err? ==> delegate.error.StoreFailure?
    ensures ApplyChangesAsWritten(u, check, delegate) == ApplyChanges(u, check, delegate)
  {
  }

  datatype Completion = Commit | Cancel

  function DelegateEvent(c: Completion): Event {
    match c
    case Commit => DelegateCommit
    case Cancel => DelegateCancel
  }

  /** The committer's commit() or cancel() as written: delegate, forget the
      versions of the loaded states, release the write lock. An exception
      from the delegate skips both the forget and the unlock. */
  function CompleteAsWritten(u: UnitOfWork, c: Completion, delegate: Option<Failure>): (r: Step<()>)
    ensures r.uow.loaded == u.loaded
    ensures r.result.Err? <==> delegate.Some?
    ensures ReadHolds(r.uow.log) == ReadHolds(u.log)
    ensures WriteHolds(r.uow.log) == WriteHolds(u.log) - (if delegate.None? then 1 else 0)
    ensures |u.log| < |r.uow.log| && r.uow.log[..|u.log|] == u.log
    ensures delegate.None? <==> ForgetVersions(u.loaded) in r.uow.log[|u.log|..]
  {
    var called := Emit(u, DelegateEvent(c));
    match delegate
    case Some(f) => Step(called, Err(f))
    case None => Step(Emit(Emit(called, ForgetVersions(u.loaded)), WriteUnlock), Ok(()))
  }

  /** A failing delegate commit leaves the write lock held and the versions
      remembered. */
  lemma CompleteAsWrittenLeaksLock(u: UnitOfWork, c: Completion, f: Failure)
    ensures var r := CompleteAsWritten(u, c, Some(f));
      && WriteHolds(r.uow.log) == WriteHolds(u.log)
      && forall k :: |u.log| <= k < |r.uow.log| ==> !r.uow.log[k].ForgetVersions?
  {
  }

  /** commit() or cancel() with the forget and the unlock in a finally
      block: whatever the delegate does, the loaded versions are forgotten
      and the write lock taken by applyChanges is released. */
  function Complete(u: UnitOfWork, c: Completion, delegate: Option<Failure>): (r: Step<()>)
    ensures r.uow.loaded == u.loaded
    ensures r.uow.log == u.log + [DelegateEvent(c)] + [ForgetVersions(u.loaded)] + [WriteUnlock]
    ensures r.result.Err? <==> delegate.Some?
    ensures delegate.Some? ==> r.result.error == delegate.value
    ensures ReadHolds(r.uow.log) == ReadHolds(u.log)
    ensures WriteHolds(r.uow.log) == WriteHolds(u.log) - 1
    ensures Guarded(u.log) && WriteHolds(u.log) > 0 ==> Guarded(r.uow.log)
  {
    var released := Emit(Emit(Emit(u, DelegateEvent(c)), ForgetVersions(u.loaded)), WriteUnlock);
    match delegate
    case Some(f) => Step(released, Err(f))
    case None => Step(released, Ok(()))
  }

  /** When the delegate succeeds, the code as written and the corrected
      version agree. */
  lemma CompleteAgreesWhenDelegateSucceeds(u: UnitOfWork, c: Completion)
    ensures CompleteAsWritten(u, c, None) == Complete(u, c, None)
  {
  }

  /** discard(): discard the delegate; then, whatever it did, forget the
      loaded versions under the write lock and release it. */
  function Discard(u: UnitOfWork, delegate: Option<Failure>): (r: Step<()>)
    ensures r.uow.loaded == u.loaded
    ensures r.uow.log == u.log + [DelegateDiscard] + [WriteLock] + [ForgetVersions(u.loaded)] + [WriteUnlock]
    ensures r.result.Err? <==> delegate.Some?
    ensures delegate.Some? ==> r.result.error == delegate.value
    ensures ReadHolds(r.uow.log) == ReadHolds(u.log) && WriteHolds(r.uow.log) == WriteHolds(u.log)
    ensures Guarded(u.log) && WriteHolds(u.log) >= 0 ==> Guarded(r.uow.log)
  {
    var released := Emit(Emit(Emit(Emit(u, DelegateDiscard), WriteLock), ForgetVersions(u.loaded)), WriteUnlock);
    match delegate
    case Some(f) => Step(released, Err(f))
    case None => Step(released, Ok(()))
  }

  // whole sessions

  /** A getEntityState request and what the delegate answers. */
  datatype Request = Request(id: EntityId, answer: Result<EntityState, Failure>)

  /** The states a sequence of requests loads: the successful answers, in
      order. */
  function Answered(reqs: seq<Request>): seq<EntityState>
    decreases |reqs|
  {
    if reqs == [] then []
    else
      var more := match reqs[|reqs| - 1].answer case Ok(s) => [s] case Err(_) => [];
      Answered(reqs[..|reqs| - 1]) + more
  }

  /** Performs the requests one after another. */
  function GetAll(u: UnitOfWork, reqs: seq<Request>): (v: UnitOfWork)
    decreases |reqs|
  {
    if reqs == [] then u
    else
      var last := reqs[|reqs| - 1];
      GetEntityState(GetAll(u, reqs[..|reqs| - 1]), last.id, last.answer).uow
  }

  /** Loading keeps the lock holds balanced and the log guarded, and the
      loaded states are the successful answers. */
  lemma {:induction false} GetAllBalanced(u: UnitOfWork, reqs: seq<Request>)
    ensures GetAll(u, reqs).loaded == u.loaded + Answered(reqs)
    ensures ReadHolds(GetAll(u, reqs).log) == ReadHolds(u.log)
    ensures WriteHolds(GetAll(u, reqs).log) == WriteHolds(u.log)
    ensures Guarded(u.log) && ReadHolds(u.log) >= 0 ==> Guarded(GetAll(u, reqs).log)
    decreases |reqs|
  {
    if reqs != [] {
      GetAllBalanced(u, reqs[..|reqs| - 1]);
    }
  }

  /** How a unit of work ends. */
  datatype Ending =
    | DiscardWork(discardFailure: Option<Failure>)
    | CompleteWork(completion: Completion, check: Option<Failure>, apply: Result<StateCommitter, Failure>,
                   completeFailure: Option<Failure>, discardFailure: Option<Failure>)

  /** How a unit of work ends: a discard, or applyChanges followed by commit
      or cancel when it succeeds and by discard when it fails. */
  function Finish(u: UnitOfWork, ending: Ending): UnitOfWork {
    match ending
    case DiscardWork(d) => Discard(u, d).uow
    case CompleteWork(c, check, apply, cf, df) =>
      var applied := ApplyChanges(u, check, apply);
      if applied.result.Ok? then Complete(applied.uow, c, cf).uow else Discard(applied.uow, df).uow
  }

  /** A unit of work from creation to its end: the requests, then the
      ending. */
  function Session(reqs: seq<Request>, ending: Ending): UnitOfWork {
    Finish(GetAll(UnitOfWork([], []), reqs), ending)
  }

  /** Every session ends with no lock held, obeys the lock discipline
      throughout, and ends by forgetting the versions of exactly the states
      it loaded. */
  lemma SessionReleasesEverything(reqs: seq<Request>, ending: Ending)
    ensures var s := Session(reqs, ending);
      && ReadHolds(s.log) == 0 && WriteHolds(s.log) == 0
      && Guarded(s.log)
      && s.loaded == Answered(reqs)
      && |s.log| >= 2 && s.log[|s.log| - 2] == ForgetVersions(Answered(reqs))
  {
    var u0 := UnitOfWork([], []);
    GetAllBalanced(u0, reqs);
    var u := GetAll(u0, reqs);
    assert u.loaded == Answered(reqs) by {
      assert u0.loaded + Answered(reqs) == Answered(reqs);
    }
    FinishReleases(u, ending);
  }

  /** Whatever the ending, a unit of work holding no lock ends holding none,
      keeps the lock discipline, and forgets the versions of its loaded
      states just before the last unlock. */
  lemma FinishReleases(u: UnitOfWork, ending: Ending)
    requires ReadHolds(u.log) == 0 && WriteHolds(u.log) == 0 && Guarded(u.log)
    ensures var v := Finish(u, ending);
      && ReadHolds(v.log) == 0 && WriteHolds(v.log) == 0 && Guarded(v.log)
      && v.loaded == u.loaded
      && |v.log| >= 2 && v.log[|v.log| - 2] == ForgetVersions(u.loaded)
  {
    match ending
    case DiscardWork(d) =>
      DiscardEnds(u, d);
    case CompleteWork(c, check, apply, cf, df) =>
      var applied := ApplyChanges(u, check, apply);
      if applied.result.Ok? {
        CompleteEnds(applied.uow, c, cf);
      } else {
        DiscardEnds(applied.uow, df);
      }
  }

  /** A discard from a state holding no lock ends holding none, with the
      loaded versions forgotten just before the last unlock. */
  lemma DiscardEnds(u: UnitOfWork, d: Option<Failure>)
    requires ReadHolds(u.log) == 0 && WriteHolds(u.log) == 0 && Guarded(u.log)
    ensures var v := Discard(u, d).uow;
      && ReadHolds(v.log) == 0 && WriteHolds(v.log) == 0 && Guarded(v.log)
      && v.loaded == u.loaded
      && |v.log| >= 2 && v.log[|v.log| - 2] == ForgetVersions(u.loaded)
  {
  }

  /** A commit or cancel from a state holding only the write lock of
      applyChanges ends holding none, with the loaded versions forgotten just
      before the last unlock. */
  lemma CompleteEnds(u: UnitOfWork, c: Completion, f: Option<Failure>)
    requires ReadHolds(u.log) == 0 && WriteHolds(u.log) == 1 && Guarded(u.log)
    ensures var v := Complete(u, c, f).uow;
      && ReadHolds(v.log) == 0 && WriteHolds(v.log) == 0 && Guarded(v.log)
      && v.loaded == u.loaded
      && |v.log| >= 2 && v.log[|v.log| - 2] == ForgetVersions(u.loaded)
  {
  }

  /** With the code as written, an unchecked exception from the delegate's
      commit ends the session with the write lock still held. */
  lemma SessionAsWrittenCanLeakLock(reqs: seq<Request>, c: Completion, reason: string)
    ensures var u := GetAll(UnitOfWork([], []), reqs);
      var applied := ApplyChangesAsWritten(u, None, Ok(StateCommitter));
      var done := CompleteAsWritten(applied.uow, c, Some(UncheckedFailure(reason)));
      WriteHolds(done.uow.log) == 1
  {
    GetAllBalanced(UnitOfWork([], []), reqs);
  }
}
