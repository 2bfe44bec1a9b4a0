/**
 * Every interleaving of the bridge's threads. A thread is one call that plans a request; it
 * registers, waits for the turn lock, runs the turn's message loop and unwinds. Between any
 * two of its steps other threads register, finish or cancel. Messages, failures and deadlines
 * are chosen freely by the events of a run.
 */
module TurnProtocol {
  import opened Wrappers
  import opened RequestState

  type Thread = nat

  /** Where a planning thread stands. */
  datatype Pc =
    | WaitingForLock
    | FirstCheck
    | Initialising
    | SecondCheck
    | GettingThread
    | EnteringTurn
    | SendingTurnStart
    | AwaitCheck          // top of the loop that waits for the turn/start response
    | AwaitReadCheck
    | AwaitSelect
    | AwaitHandling
    | RegisteringContext
    | LoopCheck           // top of the turn loop
    | LoopReadCheck
    | LoopSelect
    | LoopHandling
    | Finishing
    | Cancelling          // a check has seen the cancel event
    | ClearingContext
    | Unnaming
    | Releasing
    | Unregistering
    | Done

  predicate HoldsLock(pc: Pc) {
    !(pc.WaitingForLock? || pc.Unregistering? || pc.Done?)
  }

  predicate IsCheck(pc: Pc) {
    pc.FirstCheck? || pc.SecondCheck? || pc.AwaitCheck? || pc.AwaitReadCheck? || pc.LoopCheck? || pc.LoopReadCheck?
  }

  predicate BeforeTurnStart(pc: Pc) {
    pc.WaitingForLock? || pc.FirstCheck? || pc.Initialising? || pc.SecondCheck? || pc.GettingThread?
    || pc.EnteringTurn? || pc.SendingTurnStart?
  }

  /** Between learning the Codex turn id and forgetting it. */
  predicate MustBeNamed(pc: Pc) {
    pc.RegisteringContext? || pc.LoopCheck? || pc.LoopReadCheck? || pc.LoopSelect? || pc.LoopHandling?
    || pc.Finishing? || pc.ClearingContext? || pc.Unnaming?
  }

  predicate MayHaveContext(pc: Pc) {
    pc.LoopCheck? || pc.LoopReadCheck? || pc.LoopSelect? || pc.LoopHandling? || pc.Finishing?
    || pc.ClearingContext? || pc.Cancelling?
  }

  /** Points at which an exception can be raised that is not a cancellation. */
  predicate MayFail(pc: Pc) {
    pc.Initialising? || pc.GettingThread? || pc.EnteringTurn? || pc.SendingTurnStart? || pc.AwaitReadCheck?
    || pc.AwaitSelect? || pc.AwaitHandling? || pc.RegisteringContext? || pc.LoopReadCheck? || pc.LoopSelect?
    || pc.LoopHandling? || pc.Finishing?
  }

  /** Control state and history of one thread. */
  datatype Control = Control(
    pc: Pc,
    turnStartSent: bool,
    cancelledAtArrival: bool,
    handledSinceCancel: nat,
    cancelRaised: bool)

  datatype State = State(
    sh: Shared<Thread, Thread>,
    lock: Option<Thread>,
    ctl: map<Thread, Control>,
    everCancelled: set<CancelKey>)

  const INITIAL := State(Shared(map[], map[], map[], map[]), None, map[], {})

  /** What a planning thread can do next; the comments name the event outside the thread it stands for. */
  datatype Action =
    | Acquire
    | Check
    | RaiseCancelled
    | Initialised(restarted: bool)          // the server process was found running, or (re)started
    | GotThread(threadId: string)
    | EnterTry
    | SendTurnStart
    | NothingRead
    | MessageRead                           // a message that is not the awaited response
    | MessageHandled(completed: bool)
    | TurnStarted(turnId: string)           // the response to turn/start
    | ContextRegistered
    | Finished
    | Fail(reset: bool)                     // any other exception, with or without a process reset
    | ContextCleared
    | Unnamed
    | Release
    | UnregisterSelf

  datatype Event =
    | Arrive(h: Thread, key: CancelKey)
    | CancelArrives(key: CancelKey, reason: Option<string>)
    | ThreadStep(h: Thread, action: Action)

  /** The thread's own Codex thread and turn id, when both are known. */
  function OwnTurn(r: Request): Option<TurnKey> {
    if r.threadId.Some? && r.codexTurnId.Some? then Some((r.threadId.value, r.codexTurnId.value)) else None
  }

  predicate CanDo(r: Request, pc: Pc, action: Action) {
    match action
    case Acquire => pc.WaitingForLock?
    case Check => IsCheck(pc)
    case RaiseCancelled => pc.Cancelling?
    case Initialised(_) => pc.Initialising?
    case GotThread(_) => pc.GettingThread?
    case EnterTry => pc.EnteringTurn?
    case SendTurnStart => pc.SendingTurnStart?
    case NothingRead => pc.AwaitSelect? || pc.LoopSelect?
    case MessageRead => pc.AwaitSelect? || pc.LoopSelect?
    case MessageHandled(completed) => (pc.AwaitHandling? && !completed) || pc.LoopHandling?
    case TurnStarted(turnId) => pc.AwaitSelect? && turnId != "" && r.threadId.Some?
    case ContextRegistered => pc.RegisteringContext? && OwnTurn(r).Some?
    case Finished => pc.Finishing?
    case Fail(_) => MayFail(pc)
    case ContextCleared => pc.ClearingContext? && OwnTurn(r).Some?
    case Unnamed => pc.Unnaming?
    case Release => pc.Releasing?
    case UnregisterSelf => pc.Unregistering?
  }

  function AfterCheck(pc: Pc): Pc
    requires IsCheck(pc)
  {
    match pc
    case FirstCheck => Initialising
    case SecondCheck => GettingThread
    case AwaitCheck => AwaitReadCheck
    case AwaitReadCheck => AwaitSelect
    case LoopCheck => LoopReadCheck
    case LoopReadCheck => LoopSelect
  }

  /** After an exception: the cleanup block if the turn was named, otherwise straight out. */
  function Unwind(r: Request): Pc {
    if r.codexTurnId.Some? then ClearingContext else Releasing
  }

  function NextPc(r: Request, pc: Pc, action: Action): Pc
    requires CanDo(r, pc, action)
  {
    match action
    case Acquire => FirstCheck
    case Check => if r.cancelSet then Cancelling else AfterCheck(pc)
    case RaiseCancelled => Unwind(r)
    case Initialised(_) => SecondCheck
    case GotThread(_) => EnteringTurn
    case EnterTry => SendingTurnStart
    case SendTurnStart => AwaitCheck
    case NothingRead => if pc.AwaitSelect? then AwaitReadCheck else LoopCheck
    case MessageRead => if pc.AwaitSelect? then AwaitHandling else LoopHandling
    case MessageHandled(completed) =>
      if pc.AwaitHandling? then AwaitCheck else if completed then Finishing else LoopCheck
    case TurnStarted(_) => RegisteringContext
    case ContextRegistered => LoopCheck
    case Finished => ClearingContext
    case Fail(_) => Unwind(r)
    case ContextCleared => Unnaming
    case Unnamed => Releasing
    case Release => Unregistering
    case UnregisterSelf => Done
  }

  /** Handling a message: the response to turn/start, or any other. */
  predicate Handles(action: Action) {
    action.MessageHandled? || action.TurnStarted?
  }

  function NextControl(r: Request, c: Control, action: Action): Control
    requires CanDo(r, c.pc, action)
  {
    Control(
      NextPc(r, c.pc, action),
      c.turnStartSent || action.SendTurnStart?,
      c.cancelledAtArrival,
      c.handledSinceCancel + if Handles(action) && r.cancelSet then 1 else 0,
      c.cancelRaised || action.RaiseCancelled?)
  }

  function NextRequest(r: Request, action: Action): Request {
    match action
    case GotThread(threadId) => r.(threadId := Some(threadId))
    case TurnStarted(turnId) => r.(codexTurnId := Some(turnId))
    case Unnamed => r.(codexTurnId := None)
    case _ => r
  }

  /** A process reset, and a fresh start, forget every turn context. */
  predicate ForgetsContexts(action: Action) {
    action.RaiseCancelled? || (action.Initialised? && action.restarted) || (action.Fail? && action.reset)
  }

  /** What an action does to the turn contexts, as the registry does it. */
  function NextContexts(s: Shared<Thread, Thread>, h: Thread, r: Request, action: Action): Shared<Thread, Thread>
    requires action.ContextRegistered? || action.ContextCleared? ==> OwnTurn(r).Some?
  {
    if ForgetsContexts(action) then ForgetContexts(s)
    else if action.ContextRegistered? then RegisterContext(s, OwnTurn(r).value, h)
    else if action.ContextCleared? then ClearContext(s, OwnTurn(r).value)
    else s
  }

  /** What an action of a thread, other than unregistering, does to the shared state. */
  function NextShared(s: Shared<Thread, Thread>, h: Thread, action: Action): Shared<Thread, Thread>
    requires h in s.requests && (action.ContextRegistered? || action.ContextCleared? ==> OwnTurn(s.requests[h]).Some?)
  {
    var r := s.requests[h];
    NextContexts(s.(requests := s.requests[h := NextRequest(r, action)]), h, r, action)
  }

  function NextLock(lock: Option<Thread>, h: Thread, action: Action): Option<Thread> {
    if action.Acquire? then Some(h) else if action.Release? then None else lock
  }

  predicate WellFormed(s: State) {
    s.ctl.Keys == s.sh.requests.Keys && s.sh.active.Values <= s.sh.requests.Keys
  }

  predicate Enabled(s: State, e: Event)
    requires WellFormed(s)
  {
    match e
    case Arrive(h, _) => h !in s.ctl
    case CancelArrives(_, _) => true
    case ThreadStep(h, action) =>
      && h in s.ctl && CanDo(s.sh.requests[h], s.ctl[h].pc, action)
      && (action.Acquire? ==> s.lock.None?)
  }

  function Step(s: State, e: Event): State
    requires WellFormed(s) && Enabled(s, e)
  {
    match e
    case Arrive(h, key) =>
      s.(sh := Register(s.sh, h, key),
         ctl := s.ctl[h := Control(WaitingForLock, false, key in s.sh.cancelled, 0, false)])
    case CancelArrives(key, reason) =>
      s.(sh := Cancel(s.sh, key, reason), everCancelled := s.everCancelled + {key})
    case ThreadStep(h, action) =>
      var r, c := s.sh.requests[h], s.ctl[h];
      var sh := NextShared(s.sh, h, action);
      State(if action.UnregisterSelf? then Unregister(sh, r.key.requestId) else sh,
            NextLock(s.lock, h, action),
            s.ctl[h := NextControl(r, c, action)],
            s.everCancelled)
  }

  // ---- The inductive invariant, one conjunct per concern ----

  /** The lock holder is exactly the thread inside the locked region. */
  predicate LockInv(s: State) {
    && WellFormed(s)
    && (s.lock.Some? ==> s.lock.value in s.ctl)
    && forall h :: h in s.ctl ==> (HoldsLock(s.ctl[h].pc) <==> s.lock == Some(h))
  }

  predicate NamedOk(r: Request, c: Control) {
    && (MustBeNamed(c.pc) ==> r.codexTurnId.Some?)
    && (r.codexTurnId.Some? ==> r.codexTurnId.value != "" && InTurn(r, c))
  }

  predicate InTurn(r: Request, c: Control) {
    r.threadId.Some? && (MustBeNamed(c.pc) || c.pc.Cancelling?)
  }

  /** Only a thread inside a turn has a Codex turn id. */
  predicate NameInv(s: State)
    requires WellFormed(s)
  {
    forall h :: h in s.ctl ==> NamedOk(s.sh.requests[h], s.ctl[h])
  }

  /** A context belongs to the lock holder and is keyed by its thread and turn id. */
  predicate ContextInv(s: State) {
    forall k :: k in s.sh.contexts ==> ContextOk(s, k)
  }

  predicate ContextOk(s: State, k: TurnKey)
    requires k in s.sh.contexts
  {
    && s.lock.Some? && s.lock.value in s.ctl
    && s.lock.value in s.sh.requests && OwnTurn(s.sh.requests[s.lock.value]) == Some(k)
    && s.sh.contexts[k] == s.lock.value
    && MayHaveContext(s.ctl[s.lock.value].pc)
  }

  /** A raised cancellation was asked for under the request's full key. */
  predicate CauseOk(everCancelled: set<CancelKey>, r: Request, c: Control) {
    && (r.cancelSet ==> r.key in everCancelled)
    && (c.cancelRaised || c.pc.Cancelling? ==> r.cancelSet)
  }

  /** A request cancelled before it arrived never sends turn/start. */
  predicate PreflightOk(r: Request, c: Control) {
    && (BeforeTurnStart(c.pc) ==> !c.turnStartSent)
    && (c.cancelledAtArrival ==> r.cancelSet && !c.turnStartSent && PreflightPc(c.pc))
  }

  /** After the cancel event is set at most one more message is handled. */
  predicate HandledOk(r: Request, c: Control) {
    && (c.handledSinceCancel > 0 ==> r.cancelSet && AfterHandlingPc(c.pc))
    && c.handledSinceCancel <= 1
  }

  predicate PreflightPc(pc: Pc) {
    pc.WaitingForLock? || pc.FirstCheck? || pc.Cancelling? || pc.ClearingContext? || pc.Unnaming?
    || pc.Releasing? || pc.Unregistering? || pc.Done?
  }

  predicate AfterHandlingPc(pc: Pc) {
    pc.AwaitCheck? || pc.RegisteringContext? || pc.LoopCheck? || pc.Finishing? || pc.Cancelling? || pc.ClearingContext?
    || pc.Unnaming? || pc.Releasing? || pc.Unregistering? || pc.Done?
  }

  /** What the history of each thread tells about cancellation. */
  predicate HistoryInv(s: State)
    requires WellFormed(s)
  {
    && (forall key :: key in s.sh.cancelled ==> key in s.everCancelled)
    && forall h :: h in s.ctl ==>
         && CauseOk(s.everCancelled, s.sh.requests[h], s.ctl[h])
         && PreflightOk(s.sh.requests[h], s.ctl[h])
         && HandledOk(s.sh.requests[h], s.ctl[h])
  }

  predicate Inv(s: State) {
    LockInv(s) && NameInv(s) && ContextInv(s) && AllActiveOk(s.sh) && HistoryInv(s)
  }

  // ---- Each step keeps it ----

  lemma StepWellFormed(s: State, e: Event)
    requires WellFormed(s) && Enabled(s, e)
    ensures WellFormed(Step(s, e))
  {
  }

  lemma StepOfArrival(s: State, e: Event, h: Thread)
    requires WellFormed(s) && Enabled(s, e) && h in Step(s, e).ctl && h !in s.ctl
    ensures h in Step(s, e).sh.requests && e == Arrive(h, Step(s, e).sh.requests[h].key)
    ensures Step(s, e).sh.requests[h] == NewRequest(s.sh, e.key)
    ensures Step(s, e).ctl[h] == Control(WaitingForLock, false, e.key in s.sh.cancelled, 0, false)
  {
  }

  lemma StepOfSelf(s: State, h: Thread, action: Action)
    requires WellFormed(s) && Enabled(s, ThreadStep(h, action))
    ensures var t := Step(s, ThreadStep(h, action));
            && h in t.ctl && t.ctl[h] == NextControl(s.sh.requests[h], s.ctl[h], action)
            && h in t.sh.requests && t.sh.requests[h] == NextRequest(s.sh.requests[h], action)
  {
  }

  lemma StepOfOther(s: State, e: Event, h: Thread)
    requires WellFormed(s) && Enabled(s, e) && h in s.ctl && !(e.ThreadStep? && e.h == h)
    ensures h in Step(s, e).ctl && h in Step(s, e).sh.requests
    ensures Step(s, e).ctl[h] == s.ctl[h] && SameButCancelled(s.sh.requests[h], Step(s, e).sh.requests[h], e)
  {
  }

  /** A step changes the control of one thread, the one that takes it. */
  lemma StepControl(s: State, e: Event, h: Thread)
    requires WellFormed(s) && Enabled(s, e) && h in Step(s, e).ctl
    ensures h in Step(s, e).sh.requests
    ensures h !in s.ctl ==>
              && e == Arrive(h, Step(s, e).sh.requests[h].key)
              && Step(s, e).sh.requests[h] == NewRequest(s.sh, e.key)
              && Step(s, e).ctl[h] == Control(WaitingForLock, false, e.key in s.sh.cancelled, 0, false)
    ensures e.ThreadStep? && e.h == h ==>
              && Step(s, e).ctl[h] == NextControl(s.sh.requests[h], s.ctl[h], e.action)
              && Step(s, e).sh.requests[h] == NextRequest(s.sh.requests[h], e.action)
    ensures h in s.ctl && !(e.ThreadStep? && e.h == h) ==>
              Step(s, e).ctl[h] == s.ctl[h] && SameButCancelled(s.sh.requests[h], Step(s, e).sh.requests[h], e)
  {
    hide Step, SameButCancelled;
    if h !in s.ctl {
      StepOfArrival(s, e, h);
    } else if e.ThreadStep? && e.h == h {
      StepOfSelf(s, h, e.action);
    } else {
      StepOfOther(s, e, h);
    }
  }

  lemma StepKeepsThreads(s: State, e: Event, h: Thread)
    requires WellFormed(s) && Enabled(s, e) && h in s.ctl
    ensures h in Step(s, e).ctl
  {
  }

  /** What a cancellation arriving from outside may change in a request. */
  predicate SameButCancelled(r: Request, r': Request, e: Event) {
    && r'.key == r.key && r'.threadId == r.threadId && r'.codexTurnId == r.codexTurnId
    && (r.cancelSet ==> r'.cancelSet)
    && (r'.cancelSet && !r.cancelSet ==> e.CancelArrives? && e.key == r.key)
  }

  lemma LockStep(s: State, e: Event)
    requires LockInv(s) && Enabled(s, e)
    ensures LockInv(Step(s, e))
  {
    StepWellFormed(s, e);
    forall h | h in Step(s, e).ctl ensures HoldsLock(Step(s, e).ctl[h].pc) <==> Step(s, e).lock == Some(h) {
      StepControl(s, e, h);
      if e.ThreadStep? && e.h == h {
        OwnLockStep(s.sh.requests[h], s.ctl[h], e.action);
      }
    }
  }

  lemma OwnLockStep(r: Request, c: Control, action: Action)
    requires CanDo(r, c.pc, action)
    ensures HoldsLock(NextControl(r, c, action).pc) <==> !action.Release? && (action.Acquire? || HoldsLock(c.pc))
  {
  }

  lemma OwnNameStep(r: Request, c: Control, action: Action)
    requires CanDo(r, c.pc, action) && NamedOk(r, c)
    ensures NamedOk(NextRequest(r, action), NextControl(r, c, action))
  {
  }

  lemma NameStep(s: State, e: Event)
    requires WellFormed(s) && NameInv(s) && Enabled(s, e)
    ensures WellFormed(Step(s, e)) && NameInv(Step(s, e))
  {
    StepWellFormed(s, e);
    forall h | h in Step(s, e).ctl ensures NamedOk(Step(s, e).sh.requests[h], Step(s, e).ctl[h]) {
      StepControl(s, e, h);
      if e.ThreadStep? && e.h == h {
        OwnNameStep(s.sh.requests[h], s.ctl[h], e.action);
      }
    }
  }

  lemma ContextStep(s: State, e: Event)
    requires LockInv(s) && NameInv(s) && ContextInv(s) && Enabled(s, e)
    ensures WellFormed(Step(s, e)) && ContextInv(Step(s, e))
  {
    StepWellFormed(s, e);
    forall k | k in Step(s, e).sh.contexts ensures ContextOk(Step(s, e), k) {
      ContextStepFor(s, e, k);
    }
  }

  /** A thread that does not forget its context keeps its turn, and stays where one may exist. */
  lemma OwnContextStep(r: Request, c: Control, action: Action)
    requires CanDo(r, c.pc, action) && NamedOk(r, c)
    requires MayHaveContext(c.pc) && OwnTurn(r).Some?
    requires !ForgetsContexts(action) && !action.ContextCleared?
    ensures OwnTurn(NextRequest(r, action)) == OwnTurn(r) && MayHaveContext(NextControl(r, c, action).pc)
    ensures !action.Acquire? && !action.Release?
  {
  }

  /** How a step changes the turn contexts and the lock. */
  lemma StepContexts(s: State, e: Event)
    requires WellFormed(s) && Enabled(s, e)
    ensures Step(s, e).lock == if e.ThreadStep? then NextLock(s.lock, e.h, e.action) else s.lock
    ensures Step(s, e).sh.contexts ==
            if !e.ThreadStep? then s.sh.contexts
            else NextContexts(s.sh, e.h, s.sh.requests[e.h], e.action).contexts
  {
  }

  lemma ContextStepFor(s: State, e: Event, k: TurnKey)
    requires LockInv(s) && NameInv(s) && Enabled(s, e) && k in Step(s, e).sh.contexts
    requires k in s.sh.contexts ==> ContextOk(s, k)
    ensures WellFormed(Step(s, e)) && ContextOk(Step(s, e), k)
  {
    StepWellFormed(s, e);
    StepContexts(s, e);
    if e.ThreadStep? && e.action.ContextRegistered? && k == OwnTurn(s.sh.requests[e.h]).value {
      ContextIsNew(s, e, k);
    } else {
      ContextStays(s, e, k);
    }
  }

  lemma ContextIsNew(s: State, e: Event, k: TurnKey)
    requires LockInv(s) && NameInv(s) && Enabled(s, e) && e.ThreadStep? && e.action.ContextRegistered?
    requires k == OwnTurn(s.sh.requests[e.h]).value && k in Step(s, e).sh.contexts
    ensures ContextOk(Step(s, e), k)
  {
    hide Step;
    StepWellFormed(s, e);
    StepContexts(s, e);
    StepKeepsThreads(s, e, e.h);
    StepControl(s, e, e.h);
  }

  lemma ContextStays(s: State, e: Event, k: TurnKey)
    requires LockInv(s) && NameInv(s) && Enabled(s, e) && k in Step(s, e).sh.contexts
    requires k in s.sh.contexts && ContextOk(s, k)
    requires e.ThreadStep? && e.action.ContextRegistered? ==> k != OwnTurn(s.sh.requests[e.h]).value
    ensures ContextOk(Step(s, e), k)
  {
    hide Step;
    StepWellFormed(s, e);
    StepContexts(s, e);
    StepKeepsThreads(s, e, s.lock.value);
    StepControl(s, e, s.lock.value);
    if e.ThreadStep? && e.h == s.lock.value {
      OwnContextStep(s.sh.requests[e.h], s.ctl[e.h], e.action);
    }
  }

  lemma CancelStep(s: State, e: Event)
    requires WellFormed(s) && AllActiveOk(s.sh) && Enabled(s, e)
    ensures AllActiveOk(Step(s, e).sh)
  {
    match e
    case Arrive(h, key) => RegisterKeeps(s.sh, h, key);
    case CancelArrives(key, reason) => CancelKeeps(s.sh, key, reason);
    case ThreadStep(h, action) =>
      var r := s.sh.requests[h];
      var sh := NextShared(s.sh, h, action);
      forall id | id in sh.active ensures ActiveOk(sh, id) {
        assert ActiveOk(s.sh, id);
      }
      UnregisterKeeps(sh, r.key.requestId);
  }

  lemma OwnHistoryStep(everCancelled: set<CancelKey>, r: Request, c: Control, action: Action)
    requires CanDo(r, c.pc, action)
    ensures CauseOk(everCancelled, r, c) ==> CauseOk(everCancelled, NextRequest(r, action), NextControl(r, c, action))
    ensures PreflightOk(r, c) ==> PreflightOk(NextRequest(r, action), NextControl(r, c, action))
    ensures HandledOk(r, c) ==> HandledOk(NextRequest(r, action), NextControl(r, c, action))
  {
  }

  lemma HistoryStep(s: State, e: Event)
    requires WellFormed(s) && HistoryInv(s) && Enabled(s, e)
    ensures WellFormed(Step(s, e)) && HistoryInv(Step(s, e))
  {
    StepWellFormed(s, e);
    var t := Step(s, e);
    forall h | h in t.ctl
      ensures CauseOk(t.everCancelled, t.sh.requests[h], t.ctl[h])
      ensures PreflightOk(t.sh.requests[h], t.ctl[h]) && HandledOk(t.sh.requests[h], t.ctl[h])
    {
      StepControl(s, e, h);
      if e.ThreadStep? && e.h == h {
        OwnHistoryStep(s.everCancelled, s.sh.requests[h], s.ctl[h], e.action);
      }
    }
  }

  lemma InvStep(s: State, e: Event)
    requires Inv(s) && Enabled(s, e)
    ensures Inv(Step(s, e))
  {
    LockStep(s, e);
    NameStep(s, e);
    ContextStep(s, e);
    CancelStep(s, e);
    HistoryStep(s, e);
  }

  // ---- Runs ----

  /** Whether the events can happen one after the other from s. */
  predicate Legal(s: State, events: seq<Event>)
    decreases |events|
  {
    WellFormed(s) && (events == [] || (Enabled(s, events[0]) && Legal(Step(s, events[0]), events[1..])))
  }

  function After(s: State, events: seq<Event>): State
    requires Legal(s, events)
    decreases |events|
  {
    if events == [] then s else After(Step(s, events[0]), events[1..])
  }

  lemma {:induction false} InvAlways(s: State, events: seq<Event>)
    requires Inv(s) && Legal(s, events)
    ensures Inv(After(s, events))
    decreases |events|
  {
    if events != [] {
      InvStep(s, events[0]);
      InvAlways(Step(s, events[0]), events[1..]);
    }
  }

  /**
   * Turn ownership, in every reachable state: at most one context exists; at most one request has a
   * Codex turn id, and it is the lock holder's; a context is keyed by that request's thread and turn
   * id; and while the lock is free, whatever way the last turn ended, there is no context at all.
   */
  lemma TurnOwnership(events: seq<Event>)
    requires Legal(INITIAL, events)
    ensures var s := After(INITIAL, events);
            && WellFormed(s)
            && (forall j, k :: j in s.sh.contexts && k in s.sh.contexts ==> j == k)
            && (forall h :: h in s.sh.requests && s.sh.requests[h].codexTurnId.Some? ==> s.lock == Some(h))
            && (forall k :: k in s.sh.contexts ==>
                  s.lock.Some? && s.lock.value in s.sh.requests && OwnTurn(s.sh.requests[s.lock.value]) == Some(k))
            && (s.lock.None? ==> s.sh.contexts == map[])
  {
    InvAlways(INITIAL, events);
    var s := After(INITIAL, events);
    forall j, k | j in s.sh.contexts && k in s.sh.contexts ensures j == k {
      assert ContextOk(s, j) && ContextOk(s, k);
    }
    forall k | k in s.sh.contexts ensures s.lock.Some? {
      assert ContextOk(s, k);
    }
    forall h | h in s.sh.requests && s.sh.requests[h].codexTurnId.Some? ensures s.lock == Some(h) {
      assert h in s.ctl && NamedOk(s.sh.requests[h], s.ctl[h]);
    }
  }

  /** So a status update and a render callback, which both need a Codex turn id, match at most one request. */
  lemma AtMostOneMatch(events: seq<Event>, a: string, b: string)
    requires Legal(INITIAL, events)
    requires a in After(INITIAL, events).sh.active && b in After(INITIAL, events).sh.active
    requires var s := After(INITIAL, events);
             && WellFormed(s)
             && s.sh.requests[s.sh.active[a]].codexTurnId.Some? && s.sh.requests[s.sh.active[b]].codexTurnId.Some?
    ensures a == b
  {
    TurnOwnership(events);
    InvAlways(INITIAL, events);
    var s := After(INITIAL, events);
    assert ActiveOk(s.sh, a) && ActiveOk(s.sh, b);
    assert s.lock == Some(s.sh.active[a]) && s.lock == Some(s.sh.active[b]);
  }

  /**
   * And the context under an active request's two Codex ids, to which a render callback for the request is delivered,
   * is the one that the request's own thread has registered; the thread holds the lock, and the turn id is not empty.
   */
  lemma ContextIsOwn(events: seq<Event>, id: string, threadId: string, turnId: string)
    requires Legal(INITIAL, events) && id in After(INITIAL, events).sh.active
    requires var s := After(INITIAL, events);
             && s.sh.active[id] in s.sh.requests
             && s.sh.requests[s.sh.active[id]].threadId == Some(threadId)
             && s.sh.requests[s.sh.active[id]].codexTurnId == Some(turnId)
    ensures var s := After(INITIAL, events);
            && s.lock == Some(s.sh.active[id]) && turnId != ""
            && ((threadId, turnId) in s.sh.contexts ==> s.sh.contexts[(threadId, turnId)] == s.sh.active[id])
            && forall k :: k in s.sh.contexts ==> k == (threadId, turnId)
  {
    TurnOwnership(events);
    InvAlways(INITIAL, events);
    var s := After(INITIAL, events);
    assert NamedOk(s.sh.requests[s.sh.active[id]], s.ctl[s.sh.active[id]]);
    forall k | k in s.sh.contexts ensures k == (threadId, turnId) && s.sh.contexts[k] == s.sh.active[id] {
      assert ContextOk(s, k);
    }
  }

  /** Cancellation, in every reachable state and for each active request: flag set iff key recorded. */
  lemma CancelledIffRecorded(events: seq<Event>, id: string)
    requires Legal(INITIAL, events) && id in After(INITIAL, events).sh.active
    ensures ActiveOk(After(INITIAL, events).sh, id)
  {
    InvAlways(INITIAL, events);
  }

  /**
   * What cancellation can and cannot do to a planning thread, over every run: recorded before the
   * thread arrived, it stops the thread before turn/start; a thread stopped by cancellation was
   * cancelled under its full key, so a cancel that differs in any session id never stops it; and
   * once the event is set at most one more message is handled, the response to turn/start included, and after it
   * the thread no longer waits for or holds one.
   */
  lemma CancellationIsExact(events: seq<Event>, h: Thread)
    requires Legal(INITIAL, events) && h in After(INITIAL, events).ctl
    ensures var s := After(INITIAL, events);
            && h in s.sh.requests
            && (s.ctl[h].cancelledAtArrival ==> !s.ctl[h].turnStartSent)
            && (s.ctl[h].cancelRaised ==> s.sh.requests[h].key in s.everCancelled)
            && s.ctl[h].handledSinceCancel <= 1
            && (s.ctl[h].handledSinceCancel == 1 ==> AfterHandlingPc(s.ctl[h].pc))
  {
    InvAlways(INITIAL, events);
  }

  // ---- What a thread still does once its event is set ----

  /** The checks at the top of the two loops and before the turn; the two others are inside the reading of a message. */
  predicate AtPlainCheck(pc: Pc) {
    pc.FirstCheck? || pc.SecondCheck? || pc.AwaitCheck? || pc.LoopCheck?
  }

  predicate AtReadCheck(pc: Pc) {
    pc.AwaitReadCheck? || pc.LoopReadCheck?
  }

  /** On the way out. */
  predicate Leaving(pc: Pc) {
    pc.Cancelling? || pc.ClearingContext? || pc.Unnaming? || pc.Releasing? || pc.Unregistering? || pc.Done?
  }

  /** Waiting for a message or handling one. */
  predicate AmongMessages(pc: Pc) {
    pc.AwaitSelect? || pc.AwaitHandling? || pc.LoopSelect? || pc.LoopHandling?
  }

  predicate BeforeSecondCheck(pc: Pc) {
    pc.WaitingForLock? || pc.FirstCheck? || pc.Initialising? || pc.SecondCheck?
  }

  /** At most this many steps of its own are left to a cancelled thread. */
  function StepsLeft(pc: Pc): nat {
    match pc
    case Done => 0
    case Unregistering => 1
    case Releasing => 2
    case Unnaming => 3
    case ClearingContext => 4
    case Cancelling | Finishing => 5
    case FirstCheck | SecondCheck | AwaitCheck | AwaitReadCheck | LoopCheck | LoopReadCheck => 6
    case WaitingForLock | Initialising | SendingTurnStart | AwaitHandling | RegisteringContext | LoopHandling => 7
    case EnteringTurn | AwaitSelect | LoopSelect => 8
    case GettingThread => 9
  }

  function StepsOf(events: seq<Event>, h: Thread): nat {
    if events == [] then 0
    else (if events[0].ThreadStep? && events[0].h == h then 1 else 0) + StepsOf(events[1..], h)
  }

  predicate FailsIn(events: seq<Event>, h: Thread) {
    exists e :: e in events && e.ThreadStep? && e.h == h && e.action.Fail?
  }

  /** How many messages the thread handles. */
  function MessagesOf(events: seq<Event>, h: Thread): nat {
    if events == [] then 0
    else
      var e := events[0];
      (if e.ThreadStep? && e.h == h && (e.action.MessageHandled? || e.action.TurnStarted?) then 1 else 0)
      + MessagesOf(events[1..], h)
  }

  /** Whether the thread asks for a Codex thread or sends turn/start. */
  predicate StartsIn(events: seq<Event>, h: Thread) {
    exists e :: e in events && e.ThreadStep? && e.h == h && (e.action.GotThread? || e.action.SendTurnStart?)
  }

  /** How a thread, from c on, may have gone on with its event set. */
  predicate GoesOn(c: Control, c': Control, failed: bool) {
    && (BeforeSecondCheck(c.pc) || Leaving(c.pc) ==>
          (BeforeSecondCheck(c'.pc) || Leaving(c'.pc)) && c'.turnStartSent == c.turnStartSent)
    && (Leaving(c.pc) ==> Leaving(c'.pc))
    && (!AmongMessages(c.pc) ==> !AmongMessages(c'.pc) && c'.handledSinceCancel == c.handledSinceCancel)
    && (c.pc.Cancelling? ==> c'.pc.Cancelling? || c'.cancelRaised)
    && (AtPlainCheck(c.pc) ==> c'.pc == c.pc || (Leaving(c'.pc) && (c'.pc.Cancelling? || c'.cancelRaised)))
    && (AtReadCheck(c.pc) ==> c'.pc == c.pc || (Leaving(c'.pc) && (c'.pc.Cancelling? || c'.cancelRaised || failed)))
    && (c.cancelRaised ==> c'.cancelRaised)
  }

  lemma OwnStepWhenCancelled(r: Request, c: Control, action: Action)
    requires CanDo(r, c.pc, action) && r.cancelSet
    ensures NextRequest(r, action).cancelSet
    ensures StepsLeft(NextControl(r, c, action).pc) < StepsLeft(c.pc)
    ensures GoesOn(c, NextControl(r, c, action), action.Fail?)
    ensures action.MessageHandled? || action.TurnStarted? ==>
              AmongMessages(c.pc) && !AmongMessages(NextControl(r, c, action).pc)
    ensures action.GotThread? || action.SendTurnStart? ==> !BeforeSecondCheck(c.pc) && !Leaving(c.pc)
  {
  }

  lemma GoesOnAgain(c: Control, d: Control, e: Control, failed: bool, later: bool)
    requires GoesOn(c, d, failed) && GoesOn(d, e, later)
    ensures GoesOn(c, e, failed || later)
  {
  }

  /** No thread, no turn/start and no message. */
  predicate QuietFrom(pc: Pc, events: seq<Event>, h: Thread) {
    && MessagesOf(events, h) <= (if AmongMessages(pc) then 1 else 0)
    && (BeforeSecondCheck(pc) || Leaving(pc) ==> !StartsIn(events, h))
  }

  lemma QuietAgain(c: Control, d: Control, failed: bool, e: Event, rest: seq<Event>, h: Thread)
    requires GoesOn(c, d, failed) && QuietFrom(c.pc, [e], h) && QuietFrom(d.pc, rest, h)
    requires MessagesOf([e], h) > 0 ==> !AmongMessages(d.pc)
    ensures QuietFrom(c.pc, [e] + rest, h)
  {
    assert ([e] + rest)[1..] == rest && [e][1..] == [];
  }

  lemma {:induction false} CancelledThreadGoesOn(s: State, events: seq<Event>, h: Thread)
    requires Legal(s, events) && h in s.ctl && s.sh.requests[h].cancelSet
    ensures h in After(s, events).ctl
    ensures StepsOf(events, h) + StepsLeft(After(s, events).ctl[h].pc) <= StepsLeft(s.ctl[h].pc)
    ensures GoesOn(s.ctl[h], After(s, events).ctl[h], FailsIn(events, h))
    ensures QuietFrom(s.ctl[h].pc, events, h)
    decreases |events|
  {
    hide GoesOn, Step, StepsLeft, AmongMessages, BeforeSecondCheck, Leaving;
    if events == [] {
      Stands(s.ctl[h]);
    } else {
      var e := events[0];
      var t := Step(s, e);
      hide QuietFrom;
      OneStepOn(s, e, h);
      CancelledThreadGoesOn(t, events[1..], h);
      GoesOnAgain(s.ctl[h], t.ctl[h], After(s, events).ctl[h], FailsIn([e], h), FailsIn(events[1..], h));
      QuietAgain(s.ctl[h], t.ctl[h], FailsIn([e], h), e, events[1..], h);
      assert events == [e] + events[1..];
    }
  }

  lemma Stands(c: Control)
    ensures GoesOn(c, c, false) && forall failed :: GoesOn(c, c, failed)
  {
  }

  lemma OneEvent(e: Event, h: Thread)
    ensures MessagesOf([e], h) ==
            if e.ThreadStep? && e.h == h && (e.action.MessageHandled? || e.action.TurnStarted?) then 1 else 0
    ensures StartsIn([e], h) <==> e.ThreadStep? && e.h == h && (e.action.GotThread? || e.action.SendTurnStart?)
    ensures FailsIn([e], h) <==> e.ThreadStep? && e.h == h && e.action.Fail?
  {
    assert [e][1..] == [] && e in [e];
  }

  lemma OneStepOn(s: State, e: Event, h: Thread)
    requires WellFormed(s) && Enabled(s, e) && h in s.ctl && s.sh.requests[h].cancelSet
    ensures WellFormed(Step(s, e)) && h in Step(s, e).ctl && Step(s, e).sh.requests[h].cancelSet
    ensures GoesOn(s.ctl[h], Step(s, e).ctl[h], FailsIn([e], h))
    ensures StepsLeft(Step(s, e).ctl[h].pc) + (if e.ThreadStep? && e.h == h then 1 else 0) <= StepsLeft(s.ctl[h].pc)
    ensures QuietFrom(s.ctl[h].pc, [e], h)
    ensures MessagesOf([e], h) > 0 ==> !AmongMessages(Step(s, e).ctl[h].pc)
  {
    hide GoesOn, Step, StepsLeft, AmongMessages, BeforeSecondCheck, Leaving;
    StepWellFormed(s, e);
    StepKeepsThreads(s, e, h);
    StepControl(s, e, h);
    Stands(s.ctl[h]);
    OneEvent(e, h);
    hide MessagesOf, StartsIn, FailsIn;
    if e.ThreadStep? && e.h == h {
      OwnStepWhenCancelled(s.sh.requests[h], s.ctl[h], e.action);
    }
  }

  /**
   * A cancel that arrives before the second check has been passed, so also while the process is being started: whatever
   * happens then, the thread does not ask for a Codex thread, and turn/start is never sent for it.
   */
  lemma CancelledInTime(s: State, events: seq<Event>, h: Thread)
    requires Inv(s) && Legal(s, events) && h in s.ctl && s.sh.requests[h].cancelSet
    requires s.ctl[h].pc in {WaitingForLock, FirstCheck, Initialising, SecondCheck}
    ensures forall e :: e in events && e.ThreadStep? && e.h == h ==> !e.action.GotThread? && !e.action.SendTurnStart?
    ensures h in After(s, events).ctl && !After(s, events).ctl[h].turnStartSent
    ensures After(s, events).ctl[h].pc !in {GettingThread, EnteringTurn, SendingTurnStart, AwaitCheck, LoopCheck}
  {
    assert PreflightOk(s.sh.requests[h], s.ctl[h]);
    CancelledThreadGoesOn(s, events, h);
  }

  /** A cancel that was recorded before the request arrived: no Codex thread and no turn/start, over every run. */
  lemma CancelledBeforeArrival(s: State, h: Thread, key: CancelKey, events: seq<Event>)
    requires Inv(s) && h !in s.ctl && key in s.sh.cancelled && Legal(Step(s, Arrive(h, key)), events)
    ensures forall e :: e in events && e.ThreadStep? && e.h == h ==> !e.action.GotThread? && !e.action.SendTurnStart?
  {
    InvStep(s, Arrive(h, key));
    CancelledInTime(Step(s, Arrive(h, key)), events, h);
  }

  /** What the history of a thread records, step by step. */
  lemma HistoryRecords(s: State, e: Event, h: Thread)
    requires WellFormed(s) && Enabled(s, e) && h in Step(s, e).ctl
    ensures h !in s.ctl ==>
              && e.Arrive? && e.h == h
              && Step(s, e).ctl[h] == Control(WaitingForLock, false, e.key in s.sh.cancelled, 0, false)
    ensures h in s.ctl ==>
              var c, c', own := s.ctl[h], Step(s, e).ctl[h], e.ThreadStep? && e.h == h;
              && (c'.turnStartSent <==> c.turnStartSent || (own && e.action == SendTurnStart))
              && (c'.cancelRaised <==> c.cancelRaised || (own && e.action == RaiseCancelled))
              && c'.cancelledAtArrival == c.cancelledAtArrival
              && c'.handledSinceCancel ==
                 c.handledSinceCancel
                 + if own && (e.action.MessageHandled? || e.action.TurnStarted?) && s.sh.requests[h].cancelSet then 1
                   else 0
  {
    hide Step;
    StepControl(s, e, h);
  }

  /** A cancelled thread leaves a check only to raise the cancellation, or out of a read by another error. */
  lemma NoCheckIsPassed(s: State, events: seq<Event>, h: Thread)
    requires Legal(s, events) && h in s.ctl && s.sh.requests[h].cancelSet
    requires s.ctl[h].pc in {FirstCheck, SecondCheck, AwaitCheck, AwaitReadCheck, LoopCheck, LoopReadCheck}
    ensures h in After(s, events).ctl
    ensures var c, c' := s.ctl[h], After(s, events).ctl[h];
            c'.pc != c.pc ==>
              && c'.pc in {Cancelling, ClearingContext, Unnaming, Releasing, Unregistering, Done}
              && (c'.pc == Cancelling || c'.cancelRaised
                  || (c.pc in {AwaitReadCheck, LoopReadCheck}
                      && exists e :: e in events && e.ThreadStep? && e.h == h && e.action.Fail?))
  {
    CancelledThreadGoesOn(s, events, h);
  }

  /** At a check it raises the cancellation exactly when its event is set. */
  lemma CheckSeesTheEvent(s: State, h: Thread)
    requires WellFormed(s) && Enabled(s, ThreadStep(h, Check))
    ensures h in Step(s, ThreadStep(h, Check)).ctl
    ensures Step(s, ThreadStep(h, Check)).ctl[h].pc == Cancelling <==> s.sh.requests[h].cancelSet
  {
  }

  /** Once its event is set it handles one message at most, and none unless it is waiting for one or handling one. */
  lemma OneMessageAtMost(s: State, events: seq<Event>, h: Thread)
    requires Legal(s, events) && h in s.ctl && s.sh.requests[h].cancelSet
    ensures MessagesOf(events, h) <=
            if s.ctl[h].pc in {AwaitSelect, AwaitHandling, LoopSelect, LoopHandling} then 1 else 0
  {
    CancelledThreadGoesOn(s, events, h);
  }

  /** A cancellation is raised only for a request whose own full key was cancelled by a call of the run. */
  lemma RaisedOnlyIfAsked(events: seq<Event>, h: Thread)
    requires Legal(INITIAL, events) && WellFormed(After(INITIAL, events))
    requires Enabled(After(INITIAL, events), ThreadStep(h, RaiseCancelled))
    ensures exists e :: e in events && e.CancelArrives? && e.key == After(INITIAL, events).sh.requests[h].key
  {
    var s := After(INITIAL, events);
    InvAlways(INITIAL, events);
    assert CauseOk(s.everCancelled, s.sh.requests[h], s.ctl[h]);
    OnlyCancelCallsAreRecorded(INITIAL, events, s.sh.requests[h].key);
  }

  /** What each step does to the turn contexts: registering, clearing, forgetting all, or nothing. */
  lemma ContextsAfter(s: State, h: Thread, action: Action)
    requires WellFormed(s) && Enabled(s, ThreadStep(h, action))
    ensures var before, after := s.sh.contexts, Step(s, ThreadStep(h, action)).sh.contexts;
            && (action in {RaiseCancelled, Fail(true), Initialised(true)} ==> after == map[])
            && (action in {ContextRegistered, ContextCleared} ==>
                  && OwnTurn(s.sh.requests[h]).Some?
                  && var own := OwnTurn(s.sh.requests[h]).value;
                     after == if action == ContextRegistered then before[own := h] else before - {own})
            && (action !in {RaiseCancelled, Fail(true), Initialised(true), ContextRegistered, ContextCleared} ==>
                  after == before)
  {
    StepContexts(s, ThreadStep(h, action));
  }

  /** Once its event is set it takes at most nine more steps over every run, seven if it still waits for the lock. */
  lemma CancelledThreadEndsSoon(s: State, events: seq<Event>, h: Thread)
    requires Legal(s, events) && h in s.ctl && s.sh.requests[h].cancelSet
    ensures StepsOf(events, h) <= 9
    ensures s.ctl[h].pc == WaitingForLock ==> StepsOf(events, h) <= 7
  {
    CancelledThreadGoesOn(s, events, h);
  }

  /** The recorded keys are those of the cancel calls of the run, no others. */
  lemma {:induction false} OnlyCancelCallsAreRecorded(s: State, events: seq<Event>, key: CancelKey)
    requires Legal(s, events)
    ensures key in After(s, events).everCancelled <==>
            key in s.everCancelled || exists e :: e in events && e.CancelArrives? && e.key == key
    decreases |events|
  {
    if events != [] {
      OnlyCancelCallsAreRecorded(Step(s, events[0]), events[1..], key);
      assert events == [events[0]] + events[1..];
      if events[0].CancelArrives? && events[0].key == key {
        assert events[0] in events;
      }
    }
  }

  // ---- Request ids ----

  /** Every arrival uses an id that is not active, which a caller can ensure by fresh ids. */
  predicate FreshIds(s: State, events: seq<Event>)
    requires Legal(s, events)
    decreases |events|
  {
    events != [] ==>
      && (events[0].Arrive? ==> events[0].key.requestId !in s.sh.active)
      && FreshIds(Step(s, events[0]), events[1..])
  }

  /** The thread is the active request under its own id. */
  predicate Registered(s: State, h: Thread)
    requires WellFormed(s) && h in s.ctl
  {
    s.sh.requests[h].key.requestId in s.sh.active && s.sh.active[s.sh.requests[h].key.requestId] == h
  }

  /** A cancel under a thread's own key reaches it exactly when the thread is registered. */
  lemma CancelReachesRegistered(s: State, h: Thread, reason: Option<string>)
    requires WellFormed(s) && h in s.ctl
    ensures var t := Step(s, CancelArrives(s.sh.requests[h].key, reason));
            t.sh.requests.Keys == s.sh.requests.Keys
            && (t.sh.requests[h].cancelSet <==> s.sh.requests[h].cancelSet || Registered(s, h))
  {
  }

  /** The event takes the entry of the id away from whoever holds it: a new holder arrives, or any holder leaves. */
  predicate Displaces(s: State, e: Event, requestId: string)
    requires WellFormed(s) && Enabled(s, e)
  {
    match e
    case Arrive(_, key) => key.requestId == requestId
    case CancelArrives(_, _) => false
    case ThreadStep(h, action) => action.UnregisterSelf? && s.sh.requests[h].key.requestId == requestId
  }

  predicate EverDisplaced(s: State, events: seq<Event>, requestId: string)
    requires Legal(s, events)
    decreases |events|
  {
    events != [] && (Displaces(s, events[0], requestId) || EverDisplaced(Step(s, events[0]), events[1..], requestId))
  }

  lemma RegisteredAfterStep(s: State, e: Event, h: Thread)
    requires WellFormed(s) && Enabled(s, e) && h in s.ctl
    ensures WellFormed(Step(s, e)) && h in Step(s, e).ctl
    ensures Step(s, e).sh.requests[h].key == s.sh.requests[h].key
    ensures Registered(Step(s, e), h) <==> Registered(s, h) && !Displaces(s, e, s.sh.requests[h].key.requestId)
  {
    StepWellFormed(s, e);
    StepKeepsThreads(s, e, h);
    hide Step;
    StepControl(s, e, h);
    StepActive(s, e);
  }

  /** A thread stays registered exactly as long as no event displaces its id. */
  lemma {:induction false} RegisteredUnlessDisplaced(s: State, events: seq<Event>, h: Thread)
    requires Legal(s, events) && h in s.ctl
    ensures h in After(s, events).ctl && WellFormed(After(s, events))
    ensures After(s, events).sh.requests[h].key == s.sh.requests[h].key
    ensures Registered(After(s, events), h) <==>
            Registered(s, h) && !EverDisplaced(s, events, s.sh.requests[h].key.requestId)
    decreases |events|
  {
    if events != [] {
      hide Displaces, Registered, Step;
      RegisteredAfterStep(s, events[0], h);
      RegisteredUnlessDisplaced(Step(s, events[0]), events[1..], h);
    }
  }

  /**
   * For every run of a thread from its arrival: a cancel under its own key sets its event, unless it is set, exactly
   * when since then no other request arrived with its id and no holder of the id has left.
   */
  lemma CancelReachesUnlessDisplaced(s: State, h: Thread, key: CancelKey, events: seq<Event>, reason: Option<string>)
    requires WellFormed(s) && h !in s.ctl && Legal(Step(s, Arrive(h, key)), events)
    ensures var t := After(Step(s, Arrive(h, key)), events);
            && WellFormed(t) && h in t.ctl && t.sh.requests[h].key == key
            && h in Step(t, CancelArrives(key, reason)).sh.requests
            && (Step(t, CancelArrives(key, reason)).sh.requests[h].cancelSet <==>
                t.sh.requests[h].cancelSet || !EverDisplaced(Step(s, Arrive(h, key)), events, key.requestId))
  {
    hide EverDisplaced;
    var arrived := Step(s, Arrive(h, key));
    StepWellFormed(s, Arrive(h, key));
    assert arrived.sh.requests[h].key == key && Registered(arrived, h);
    RegisteredUnlessDisplaced(arrived, events, h);
    CancelReachesRegistered(After(arrived, events), h, reason);
  }

  /** Every thread that has not unregistered is the active request under its own id. */
  predicate AllRegistered(s: State)
    requires WellFormed(s)
  {
    forall h :: h in s.ctl && !s.ctl[h].pc.Done? ==> Registered(s, h)
  }

  /** With fresh ids only a thread's own end displaces it. */
  lemma RegisteredStep(s: State, e: Event)
    requires WellFormed(s) && AllRegistered(s) && Enabled(s, e)
    requires e.Arrive? ==> e.key.requestId !in s.sh.active
    ensures WellFormed(Step(s, e)) && AllRegistered(Step(s, e))
  {
    hide Step;
    StepWellFormed(s, e);
    var t := Step(s, e);
    forall h | h in t.ctl && !t.ctl[h].pc.Done?
      ensures Registered(t, h)
    {
      StepControl(s, e, h);
      if h in s.ctl {
        RegisteredAfterStep(s, e, h);
        if e.ThreadStep? && e.action.UnregisterSelf? {
          assert Registered(s, e.h);
        }
      } else {
        StepActive(s, e);
      }
    }
  }

  /** How a step changes the table of active requests. */
  lemma StepActive(s: State, e: Event)
    requires WellFormed(s) && Enabled(s, e)
    ensures Step(s, e).sh.active ==
            match e
            case Arrive(h, key) => s.sh.active[key.requestId := h]
            case CancelArrives(_, _) => s.sh.active
            case ThreadStep(h, action) =>
              if action.UnregisterSelf? then s.sh.active - {s.sh.requests[h].key.requestId} else s.sh.active
  {
  }

  lemma {:induction false} FreshIdsKeepRegistered(s: State, events: seq<Event>)
    requires WellFormed(s) && AllRegistered(s) && Legal(s, events) && FreshIds(s, events)
    ensures WellFormed(After(s, events)) && AllRegistered(After(s, events))
    decreases |events|
  {
    if events != [] {
      hide Step, AllRegistered;
      RegisteredStep(s, events[0]);
      FreshIdsKeepRegistered(Step(s, events[0]), events[1..]);
    }
  }

  /**
   * With fresh request ids every thread still planning is registered, so that every cancel under its key reaches it,
   * and its event is set exactly when its full key is recorded as cancelled.
   */
  lemma FreshIdsMakeCancelReliable(s: State, events: seq<Event>, h: Thread)
    requires Inv(s) && AllRegistered(s) && Legal(s, events) && FreshIds(s, events)
    requires h in After(s, events).ctl && !After(s, events).ctl[h].pc.Done?
    ensures WellFormed(After(s, events)) && Registered(After(s, events), h)
    ensures var r := After(s, events).sh.requests[h];
            r.cancelSet <==> r.key in After(s, events).sh.cancelled
  {
    FreshIdsKeepRegistered(s, events);
    InvAlways(s, events);
    assert ActiveOk(After(s, events).sh, After(s, events).sh.requests[h].key.requestId);
  }

  /** The thread still waits to run, its key is recorded as cancelled, and yet its event is not set. */
  predicate LostCancel(events: seq<Event>, h: Thread)
    requires Legal(INITIAL, events)
  {
    var s := After(INITIAL, events);
    && h in s.ctl && h in s.sh.requests && s.ctl[h].pc.WaitingForLock?
    && s.sh.requests[h].key in s.sh.cancelled && !s.sh.requests[h].cancelSet
  }

  /** When two calls share a request id, the first can no longer be cancelled. */
  lemma ReusedIdLosesCancel()
    ensures exists events: seq<Event>, h: Thread ::
              Legal(INITIAL, events) && !FreshIds(INITIAL, events) && LostCancel(events, h)
  {
    var first := CancelKey("r", "a", "i", "c", "1");
    var second := CancelKey("r", "a", "i", "c", "2");
    var events := [Arrive(0, first), Arrive(1, second), CancelArrives(first, None)];
    var s1 := Step(INITIAL, events[0]);
    var s2 := Step(s1, events[1]);
    var s3 := Step(s2, events[2]);
    assert events[1..][0] == events[1] && events[1..][1..] == events[2..];
    assert events[2..][0] == events[2] && events[2..][1..] == [];
    assert first.turnId[0] != second.turnId[0];
    assert s2.sh.requests[1].key == second && s2.sh.active["r"] == 1;
    assert Legal(s3, []) && After(s3, []) == s3;
    assert Legal(s2, events[2..]) && After(s2, events[2..]) == s3;
    assert Legal(s1, events[1..]) && After(s1, events[1..]) == s3;
    assert Legal(INITIAL, events) && After(INITIAL, events) == s3;
    assert s1.sh.active["r"] == 0 && !FreshIds(s1, events[1..]);
    assert LostCancel(events, 0);
  }

  /** A leaving thread takes the entry of its id with it, whoever holds it, and that holder's recorded cancel. */
  lemma LeavingTakesTheEntry(s: State, h: Thread)
    requires WellFormed(s) && Enabled(s, ThreadStep(h, UnregisterSelf))
    requires s.sh.requests[h].key.requestId in s.sh.active
    ensures var holder, t := s.sh.active[s.sh.requests[h].key.requestId], Step(s, ThreadStep(h, UnregisterSelf));
            && s.sh.requests[h].key.requestId !in t.sh.active
            && holder in s.sh.requests && s.sh.requests[holder].key !in t.sh.cancelled
  {
    assert s.sh.active[s.sh.requests[h].key.requestId] in s.sh.active.Values;
  }

  lemma Prepend(s: State, e: Event, events: seq<Event>)
    requires WellFormed(s) && Enabled(s, e) && Legal(Step(s, e), events)
    ensures Legal(s, [e] + events) && After(s, [e] + events) == After(Step(s, e), events)
  {
    assert ([e] + events)[1..] == events;
  }

  lemma {:induction false} AfterThen(s: State, a: seq<Event>, b: seq<Event>)
    requires Legal(s, a) && Legal(After(s, a), b)
    ensures Legal(s, a + b) && After(s, a + b) == After(After(s, a), b)
    decreases |a|
  {
    hide Step, Enabled;
    if a == [] {
      assert a + b == b;
    } else {
      AfterThen(Step(s, a[0]), a[1..], b);
      assert (a + b)[1..] == a[1..] + b;
    }
  }

  /** The same state but for where one thread stands, and the lock. */
  predicate MovedTo(s: State, t: State, h: Thread, pc: Pc, lock: Option<Thread>) {
    && WellFormed(t) && t.sh == s.sh && t.lock == lock
    && h in t.ctl && t.ctl[h].pc == pc
    && forall k :: k in s.ctl && k != h ==> k in t.ctl && t.ctl[k] == s.ctl[k]
  }

  /** One more step of a run that only moves the thread itself. */
  lemma Onward(s: State, events: seq<Event>, h: Thread, action: Action) returns (longer: seq<Event>, t: State)
    requires Legal(s, events) && WellFormed(After(s, events)) && Enabled(After(s, events), ThreadStep(h, action))
    requires action.Acquire? || action.Check? || action == Fail(false) || action.Release?
    ensures Legal(s, longer) && After(s, longer) == t
    ensures var r := After(s, events);
            MovedTo(r, t, h, NextPc(r.sh.requests[h], r.ctl[h].pc, action), NextLock(r.lock, h, action))
  {
    var r, e := After(s, events), ThreadStep(h, action);
    t := Step(r, e);
    assert r.sh.requests[h := r.sh.requests[h]] == r.sh.requests;
    hide Enabled;
    Prepend(r, e, []);
    longer := events + ([e] + []);
    AfterThen(s, events, [e] + []);
  }

  /** A thread takes the lock and finds that it is not cancelled. */
  lemma Starts(s: State, h: Thread) returns (events: seq<Event>, t: State)
    requires WellFormed(s) && h in s.ctl && s.ctl[h].pc.WaitingForLock? && s.lock.None? && !s.sh.requests[h].cancelSet
    ensures Legal(s, events) && After(s, events) == t && MovedTo(s, t, h, Initialising, Some(h))
  {
    hide Step, Legal, After;
    Nothing(s);
    events, t := Onward(s, [], h, Acquire);
    events, t := Onward(s, events, h, Check);
  }

  /** The start of the server process fails, and the thread gives up the lock. */
  lemma Fails(s: State, events: seq<Event>, h: Thread) returns (longer: seq<Event>, t: State)
    requires Legal(s, events) && WellFormed(After(s, events)) && h in After(s, events).ctl
    requires After(s, events).ctl[h].pc.Initialising? && After(s, events).sh.requests[h].codexTurnId.None?
    ensures Legal(s, longer) && After(s, longer) == t && MovedTo(After(s, events), t, h, Unregistering, None)
  {
    hide Step, Legal, After;
    longer, t := Onward(s, events, h, Fail(false));
    longer, t := Onward(s, longer, h, Release);
  }

  /** The way of a thread that fails before its first message, from waiting to having left. */
  lemma FailingThread(s: State, h: Thread) returns (events: seq<Event>, t: State)
    requires WellFormed(s) && h in s.ctl && s.ctl[h].pc.WaitingForLock? && s.lock.None?
    requires !s.sh.requests[h].cancelSet && s.sh.requests[h].codexTurnId.None?
    ensures Legal(s, events) && After(s, events) == t && WellFormed(t)
    ensures t.sh == Unregister(s.sh, s.sh.requests[h].key.requestId)
    ensures forall k :: k in s.ctl && k != h ==> k in t.ctl && t.ctl[k] == s.ctl[k]
  {
    hide Step, Legal, After, Unregister;
    events, t := Starts(s, h);
    events, t := Fails(s, events, h);
    events, t := Leaves(s, events, h);
  }

  lemma Nothing(s: State)
    requires WellFormed(s)
    ensures Legal(s, []) && After(s, []) == s
  {
  }

  lemma Leaves(s: State, events: seq<Event>, h: Thread) returns (longer: seq<Event>, t: State)
    requires Legal(s, events) && WellFormed(After(s, events))
    requires Enabled(After(s, events), ThreadStep(h, UnregisterSelf))
    ensures Legal(s, longer) && After(s, longer) == t && WellFormed(t)
    ensures var r := After(s, events);
            && t.sh == Unregister(r.sh, r.sh.requests[h].key.requestId)
            && forall k :: k in r.ctl && k != h ==> k in t.ctl && t.ctl[k] == r.ctl[k]
  {
    var r, e := After(s, events), ThreadStep(h, UnregisterSelf);
    t := Step(r, e);
    StepWellFormed(r, e);
    assert r.sh.requests[h := r.sh.requests[h]] == r.sh.requests;
    hide Enabled;
    Prepend(r, e, []);
    longer := events + ([e] + []);
    AfterThen(s, events, [e] + []);
  }

  /** The second victim of a shared id: once the first holder leaves, the later one can no longer be cancelled. */
  lemma LeavingHolderLosesCancel()
    ensures exists events: seq<Event> :: Legal(INITIAL, events) && LostCancel(events, 1)
  {
    var first := CancelKey("r", "a", "i", "c", "1");
    var second := CancelKey("r", "a", "i", "c", "2");
    var s1 := Step(INITIAL, Arrive(0, first));
    var s2 := Step(s1, Arrive(1, second));
    assert first.turnId[0] != second.turnId[0];
    var leaving, s3 := FailingThread(s2, 0);
    var cancel := CancelArrives(second, None);
    var s4 := Step(s3, cancel);
    assert WellFormed(s3) && s3.sh.requests[1] == s2.sh.requests[1] && s3.ctl[1] == s2.ctl[1];
    assert Legal(s3, [cancel]) && After(s3, [cancel]) == s4 by {
      Prepend(s3, cancel, []);
      assert [cancel] + [] == [cancel];
    }
    assert second in s4.sh.cancelled && s4.sh.requests[1] == s2.sh.requests[1] && s4.ctl[1] == s2.ctl[1];
    AfterThen(s2, leaving, [cancel]);
    var events := leaving + [cancel];
    Prepend(s1, Arrive(1, second), events);
    Prepend(INITIAL, Arrive(0, first), [Arrive(1, second)] + events);
    assert LostCancel([Arrive(0, first)] + ([Arrive(1, second)] + events), 1);
  }
}
