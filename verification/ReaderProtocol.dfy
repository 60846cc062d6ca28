/** The MySQL reader as a transition system; runs are arbitrary sequences of enabled actions. */
module ReaderProtocol {
  import opened Wrappers

  datatype Op = Open | Fetch | Close

  /** A queued call; a cancelled one is dropped when the worker reaches it. */
  datatype Job = Job(op: Op, cancelled: bool)

  /** The driver calls of `_open`, in order. */
  datatype OpenStep = Connect | MakeCursor | ValidateCursor | Execute | ValidateResult | ReadDescription

  /** What the worker thread is doing; `abandoned` when nobody waits for the result any more. */
  datatype Worker =
    | Idle
    | Opening(at: OpenStep, abandoned: bool)
    | Fetching(abandoned: bool)
    | Detaching
    | Closing(held: Option<nat>)

  datatype Reply = Opened | Batch | Exhausted | OperationFailed | CloseFinished

  /** Where `stream_query` is suspended. */
  datatype Phase = Unstarted | AwaitOpen | AwaitFetch | Yielding | AwaitClose | Ended

  /** `connection` and `lifecycle` are the reader's fields; `attempts[c]` counts how often closing
      connection `c` was attempted, for every connection ever created. */
  datatype State = State(
    phase: Phase,
    queue: seq<Job>,
    worker: Worker,
    mail: Option<Reply>,
    connection: Option<nat>,
    lifecycle: bool,
    attempts: seq<nat>,
    closeSubmitted: bool,
    closeFinished: bool,
    shutDown: bool)

  const INITIAL := State(Unstarted, [], Idle, None, None, false, [], false, false, false)

  datatype Action =
    | Pull            // the consumer asks for a batch
    | Cancel          // the task awaiting the stream is cancelled
    | EarlyClose      // the generator is closed, or raises, between two batches
    | Deliver         // the event loop hands a finished call to the coroutine
    | CloseAgain      // the reader is closed once more, or for the first time after an unstarted stream
    | RunShutdown     // the done callback of the close future
    | WorkerTake      // the worker takes the oldest job
    | WorkerStep(ok: bool, more: bool)  // one driver call: it fails or succeeds, with rows left or not

  // ----- the coroutine -------------------------------------------------------------

  function Submit(s: State, op: Op): State {
    s.(queue := s.queue + [Job(op, false)])
  }

  /** `TaskThread.close` submits its operation once. */
  function SubmitClose(s: State): State {
    if s.closeSubmitted then s else Submit(s, Close).(closeSubmitted := true)
  }

  function CancelQueued(queue: seq<Job>): seq<Job> {
    seq(|queue|, i requires 0 <= i < |queue| => queue[i].(cancelled := true))
  }

  /** Cancelling the awaited call: a queued one will be dropped, a running one goes on unobserved,
      a finished one is forgotten. */
  function Abandon(s: State): State {
    s.(queue := CancelQueued(s.queue),
       worker := if s.worker.Opening? then s.worker.(abandoned := true)
                 else if s.worker.Fetching? then s.worker.(abandoned := true)
                 else s.worker,
       mail := None)
  }

  function OnReply(s: State, reply: Reply): State {
    match s.phase
    case AwaitOpen => if reply.Opened? then Submit(s, Fetch).(phase := AwaitFetch)
      else SubmitClose(s).(phase := AwaitClose)
    case AwaitFetch => if reply.Batch? then s.(phase := Yielding) else SubmitClose(s).(phase := AwaitClose)
    case AwaitClose => s.(phase := Ended)
    case _ => s
  }

  // ----- the worker -------------------------------------------------------------------

  function Take(s: State): State
    requires s.queue != []
  {
    var rest := s.(queue := s.queue[1..]);
    if s.queue[0].cancelled then rest
    else match s.queue[0].op
      case Open => rest.(worker := Opening(Connect, false))
      case Fetch => rest.(worker := Fetching(false))
      case Close => rest.(worker := Detaching)
  }

  function Finish(s: State, abandoned: bool, reply: Reply): State {
    s.(worker := Idle, mail := if abandoned then s.mail else Some(reply))
  }

  /** One driver call of `_open`; the connection is stored as soon as it exists, the lifecycle as
      soon as there is a cursor. */
  function OpenCall(s: State, ok: bool): State
    requires s.worker.Opening?
  {
    var gone := s.worker.abandoned;
    if !ok then Finish(s, gone, OperationFailed)
    else match s.worker.at
      case Connect =>
        s.(connection := Some(|s.attempts|), attempts := s.attempts + [0], worker := Opening(MakeCursor, gone))
      case MakeCursor => s.(lifecycle := true, worker := Opening(ValidateCursor, gone))
      case ValidateCursor => s.(worker := Opening(Execute, gone))
      case Execute => s.(worker := Opening(ValidateResult, gone))
      case ValidateResult => s.(worker := Opening(ReadDescription, gone))
      case ReadDescription => Finish(s, gone, Opened)
  }

  function FetchCall(s: State, ok: bool, more: bool): State
    requires s.worker.Fetching?
  {
    Finish(s, s.worker.abandoned, if !ok then OperationFailed else if more then Batch else Exhausted)
  }

  /** `_close` first takes the fields, then closes what they held; a failing close is an attempt. */
  function CloseCall(s: State): State
    requires s.worker.Detaching? || s.worker.Closing?
    requires s.worker.Closing? && s.worker.held.Some? ==> s.worker.held.value < |s.attempts|
  {
    if s.worker.Detaching? then s.(worker := Closing(s.connection), connection := None, lifecycle := false)
    else
      var closed := if s.worker.held.Some? then s.attempts[s.worker.held.value := s.attempts[s.worker.held.value] + 1]
        else s.attempts;
      s.(worker := Idle, attempts := closed, closeFinished := true,
         mail := if s.phase.AwaitClose? then Some(CloseFinished) else s.mail)
  }

  // ----- actions ------------------------------------------------------------------------

  predicate Enabled(s: State, a: Action) {
    match a
    case Pull => s.phase.Unstarted? || s.phase.Yielding?
    case Cancel => s.phase.AwaitOpen? || s.phase.AwaitFetch? || s.phase.AwaitClose?
    case EarlyClose => s.phase.Unstarted? || s.phase.Yielding?
    case Deliver => s.mail.Some?
    case CloseAgain => s.phase.AwaitClose? || s.phase.Ended?
    case RunShutdown => s.closeFinished && !s.shutDown
    case WorkerTake => s.worker.Idle? && s.queue != []
    case WorkerStep(_, _) =>
      && !s.worker.Idle?
      && (s.worker.Closing? && s.worker.held.Some? ==> s.worker.held.value < |s.attempts|)
  }

  function Next(s: State, a: Action): State
    requires Enabled(s, a)
  {
    match a
    case Pull =>
      if s.phase.Unstarted? then Submit(s, Open).(phase := AwaitOpen) else Submit(s, Fetch).(phase := AwaitFetch)
    case Cancel =>
      if s.phase.AwaitClose? then s.(phase := Ended, mail := None)
      else SubmitClose(Abandon(s)).(phase := AwaitClose)
    case EarlyClose =>
      if s.phase.Unstarted? then s.(phase := Ended) else SubmitClose(s).(phase := AwaitClose)
    case Deliver => OnReply(s.(mail := None), s.mail.value)
    case CloseAgain => SubmitClose(s)
    case RunShutdown => s.(shutDown := true)
    case WorkerTake => Take(s)
    case WorkerStep(ok, more) =>
      if s.worker.Opening? then OpenCall(s, ok)
      else if s.worker.Fetching? then FetchCall(s, ok, more)
      else CloseCall(s)
  }

  // ----- runs -------------------------------------------------------------------------------

  /** The states of a run: every action is enabled where it happens. */
  ghost predicate Run(states: seq<State>, actions: seq<Action>) {
    && |states| == |actions| + 1 && states[0] == INITIAL
    && forall i | 0 <= i < |actions| :: Enabled(states[i], actions[i]) && states[i + 1] == Next(states[i], actions[i])
  }

  ghost predicate Quiescent(s: State) {
    s.queue == [] && s.worker.Idle?
  }

  // ----- invariant ----------------------------------------------------------------------------

  ghost predicate Answers(op: Op, reply: Reply) {
    match op
    case Open => reply.Opened? || reply.OperationFailed?
    case Fetch => reply.Batch? || reply.Exhausted? || reply.OperationFailed?
    case Close => reply.CloseFinished?
  }

  /** The call the coroutine waits for, if it is not the close. */
  ghost predicate Pending(s: State, op: Op) {
    || (s.queue == [Job(op, false)] && s.worker.Idle? && s.mail.None?)
    || (s.queue == [] && s.mail.None? && op.Open? && s.worker.Opening? && !s.worker.abandoned)
    || (s.queue == [] && s.mail.None? && op.Fetch? && s.worker.Fetching? && !s.worker.abandoned)
    || (s.queue == [] && s.worker.Idle? && s.mail.Some? && Answers(op, s.mail.value))
  }

  /** A close was submitted: what is left of the abandoned call comes before it. */
  ghost predicate Winding(s: State) {
    || (s.queue == [Job(Close, false)]
      && (s.worker.Idle? || (s.worker.Opening? && s.worker.abandoned) || (s.worker.Fetching? && s.worker.abandoned)))
    || (|s.queue| == 2 && s.worker.Idle? && s.queue[0].cancelled && !s.queue[0].op.Close?
      && s.queue[1] == Job(Close, false))
    || (s.queue == [] && (s.worker.Detaching? || s.worker.Closing?))
    || (s.queue == [] && s.worker.Idle? && s.closeFinished)
  }

  /** The phase of the coroutine fits the queue, the worker and the pending reply. */
  ghost predicate Protocol(s: State) {
    && (s.closeSubmitted <==> s.phase.AwaitClose? || (s.phase.Ended? && s.closeSubmitted))
    && (match s.phase
        case Unstarted => s.queue == [] && s.worker.Idle? && s.mail.None?
        case AwaitOpen => Pending(s, Open)
        case AwaitFetch => Pending(s, Fetch)
        case Yielding => s.queue == [] && s.worker.Idle? && s.mail.None?
        case AwaitClose =>
          s.closeSubmitted && Winding(s) && s.mail == if s.closeFinished then Some(CloseFinished) else None
        case Ended => s.mail.None? && if s.closeSubmitted then Winding(s) else Quiescent(s))
    && (s.closeFinished ==> s.closeSubmitted && s.queue == [] && s.worker.Idle?)
    && (s.shutDown ==> s.closeFinished)
  }

  /** `_open` has not connected yet. */
  ghost predicate BeforeConnect(s: State) {
    || s.phase.Unstarted?
    || (s.queue != [] && s.queue[0].op.Open?)
    || (s.worker.Opening? && s.worker.at.Connect?)
  }

  /** At most one connection exists, and until closing it was attempted it is in the reader's field
      or in the hands of the closing worker. */
  ghost predicate Ownership(s: State) {
    && |s.attempts| <= 1
    && (s.connection.Some? ==> s.connection == Some(0) && s.attempts == [0])
    && (s.connection.None? && |s.attempts| == 1 ==> s.attempts == [if s.worker == Closing(Some(0)) then 0 else 1])
    && (s.worker.Closing? ==>
      s.connection.None?
      && (s.worker.held.Some? ==> s.worker.held == Some(0) && s.attempts == [0]))
    && (s.worker.Opening? && !s.worker.at.Connect? ==> s.connection.Some?)
    && (BeforeConnect(s) ==> s.attempts == [])
    && (s.closeFinished ==> s.connection.None?)
    && (s.phase.Ended? && !s.closeSubmitted ==> s.attempts == [])
    && (s.lifecycle ==> s.connection.Some?)
  }

  ghost predicate Inv(s: State) {
    Protocol(s) && Ownership(s)
  }

  lemma OpenCallKeepsProtocol(s: State, ok: bool)
    requires Inv(s) && s.worker.Opening?
    ensures Protocol(OpenCall(s, ok))
  {
  }

  lemma OpenCallKeepsOwnership(s: State, ok: bool)
    requires Inv(s) && s.worker.Opening?
    ensures Ownership(OpenCall(s, ok))
  {
  }

  lemma FetchCallKeepsInvariant(s: State, ok: bool, more: bool)
    requires Inv(s) && s.worker.Fetching?
    ensures Inv(FetchCall(s, ok, more))
  {
  }

  lemma CloseCallKeepsProtocol(s: State)
    requires Inv(s) && (s.worker.Detaching? || s.worker.Closing?)
    ensures Protocol(CloseCall(s))
  {
  }

  lemma CloseCallKeepsOwnership(s: State)
    requires Inv(s) && (s.worker.Detaching? || s.worker.Closing?)
    ensures Ownership(CloseCall(s))
  {
  }

  lemma TakeKeepsInvariant(s: State)
    requires Inv(s) && Enabled(s, WorkerTake)
    ensures Inv(Take(s))
  {
  }

  lemma PullKeepsInvariant(s: State)
    requires Inv(s) && Enabled(s, Pull)
    ensures Inv(Next(s, Pull))
  {
  }

  lemma CancelKeepsProtocol(s: State)
    requires Inv(s) && Enabled(s, Cancel)
    ensures Protocol(Next(s, Cancel))
  {
  }

  lemma CancelKeepsOwnership(s: State)
    requires Inv(s) && Enabled(s, Cancel)
    ensures Ownership(Next(s, Cancel))
  {
  }

  lemma DeliverKeepsInvariant(s: State)
    requires Inv(s) && Enabled(s, Deliver)
    ensures Inv(Next(s, Deliver))
  {
  }

  lemma ClosingKeepsInvariant(s: State, a: Action)
    requires Inv(s) && Enabled(s, a) && (a.EarlyClose? || a.CloseAgain? || a.RunShutdown?)
    ensures Inv(Next(s, a))
  {
  }

  lemma NextKeepsInvariant(s: State, a: Action)
    requires Inv(s) && Enabled(s, a)
    ensures Inv(Next(s, a))
  {
    match a
    case Pull => PullKeepsInvariant(s);
    case Cancel => CancelKeepsProtocol(s); CancelKeepsOwnership(s);
    case Deliver => DeliverKeepsInvariant(s);
    case WorkerTake => TakeKeepsInvariant(s);
    case WorkerStep(ok, more) =>
      match s.worker {
        case Opening(_, _) => OpenCallKeepsProtocol(s, ok); OpenCallKeepsOwnership(s, ok);
        case Fetching(_) => FetchCallKeepsInvariant(s, ok, more);
        case _ => CloseCallKeepsProtocol(s); CloseCallKeepsOwnership(s);
      }
    case _ => ClosingKeepsInvariant(s, a);
  }

  lemma {:induction false} RunKeepsInvariant(states: seq<State>, actions: seq<Action>, i: nat)
    requires Run(states, actions) && i < |states|
    ensures Inv(states[i])
  {
    if i > 0 {
      RunKeepsInvariant(states, actions, i - 1);
      NextKeepsInvariant(states[i - 1], actions[i - 1]);
      assert states[(i - 1) + 1] == Next(states[i - 1], actions[i - 1]);
    }
  }

  // ----- what every run guarantees ------------------------------------------------------------

  /** No connection is ever closed twice, and once the stream has ended and the worker has nothing
      left to do, closing every connection was attempted exactly once and none is held. */
  lemma ConnectionsClosedOnce(states: seq<State>, actions: seq<Action>, i: nat)
    requires Run(states, actions) && i < |states|
    ensures forall c | 0 <= c < |states[i].attempts| :: states[i].attempts[c] <= 1
    ensures states[i].phase.Ended? && Quiescent(states[i]) ==>
              && states[i].connection.None?
              && forall c | 0 <= c < |states[i].attempts| :: states[i].attempts[c] == 1
  {
    RunKeepsInvariant(states, actions, i);
  }

  /** The close operation has been reached and nothing else is left for the worker. */
  ghost predicate OnlyClosing(s: State) {
    s.queue == [] && (s.worker.Detaching? || s.worker.Closing? || (s.worker.Idle? && s.closeFinished))
  }

  lemma OnlyClosingIsStable(s: State, a: Action)
    requires Inv(s) && OnlyClosing(s) && Enabled(s, a)
    ensures OnlyClosing(Next(s, a))
  {
  }

  lemma {:induction false} OnlyClosingForever(states: seq<State>, actions: seq<Action>, i: nat, j: nat)
    requires Run(states, actions) && i <= j < |states| && OnlyClosing(states[i])
    ensures OnlyClosing(states[j])
    decreases j - i
  {
    if i < j {
      RunKeepsInvariant(states, actions, i);
      assert Enabled(states[i], actions[i]) && states[i + 1] == Next(states[i], actions[i]);
      OnlyClosingIsStable(states[i], actions[i]);
      OnlyClosingForever(states, actions, i + 1, j);
    }
  }

  /** A close is attempted only by the worker, for a connection it took out of the reader, when no
      open or fetch is queued or running; and none is queued or runs at any later time. */
  lemma CloseComesLast(states: seq<State>, actions: seq<Action>, i: nat, j: nat)
    requires Run(states, actions) && i < j < |states| && states[i].attempts != states[i + 1].attempts
    ensures actions[i].WorkerStep?
    ensures |states[i].attempts| == |states[i + 1].attempts| ==>
              && states[i].worker == Closing(Some(0)) && states[i].queue == []
              && states[j].queue == [] && !states[j].worker.Opening? && !states[j].worker.Fetching?
  {
    RunKeepsInvariant(states, actions, i);
    assert Enabled(states[i], actions[i]) && states[i + 1] == Next(states[i], actions[i]);
    if |states[i].attempts| == |states[i + 1].attempts| {
      OnlyClosingForever(states, actions, i, j);
    }
  }

  /** Once the close was submitted no job is submitted any more, neither a second close nor a call to
      the executor after its shutdown, which would raise. */
  lemma NothingSubmittedAfterClose(states: seq<State>, actions: seq<Action>, i: nat)
    requires Run(states, actions) && i < |actions| && states[i].closeSubmitted
    ensures states[i + 1].closeSubmitted && |states[i + 1].queue| <= |states[i].queue|
    ensures states[i].shutDown ==> states[i + 1].shutDown && Quiescent(states[i]) && Quiescent(states[i + 1])
  {
    RunKeepsInvariant(states, actions, i);
    RunKeepsInvariant(states, actions, i + 1);
    assert Enabled(states[i], actions[i]) && states[i + 1] == Next(states[i], actions[i]);
  }

  // ----- what the consumer receives -------------------------------------------------------------

  /** A fetch that somebody waits for comes back with rows. */
  predicate FetchesBatch(s: State, a: Action) {
    s.worker.Fetching? && !s.worker.abandoned && a == WorkerStep(true, true)
  }

  /** An open that fails, or a fetch that fails or finds no more rows, for somebody who waits. */
  predicate EndsStream(s: State, a: Action) {
    && a.WorkerStep?
    && ((s.worker.Opening? && !s.worker.abandoned && !a.ok)
        || (s.worker.Fetching? && !s.worker.abandoned && !(a.ok && a.more)))
  }

  /** How many batches were fetched in the first `n` actions. */
  ghost function Fetched(states: seq<State>, actions: seq<Action>, n: nat): nat
    requires n <= |actions| && n <= |states|
  {
    if n == 0 then 0
    else Fetched(states, actions, n - 1) + if FetchesBatch(states[n - 1], actions[n - 1]) then 1 else 0
  }

  /** How often the stream came to yield a batch in the first `n` actions. */
  ghost function Yielded(states: seq<State>, n: nat): nat
    requires n < |states|
  {
    if n == 0 then 0
    else Yielded(states, n - 1) + if states[n].phase.Yielding? && !states[n - 1].phase.Yielding? then 1 else 0
  }

  ghost predicate Without(actions: seq<Action>, n: nat, a: Action)
    requires n <= |actions|
  {
    forall i | 0 <= i < n :: actions[i] != a
  }

  ghost function Waiting(s: State): nat {
    if s.mail == Some(Batch) then 1 else 0
  }

  lemma BatchStep(s: State, a: Action)
    requires Inv(s) && Enabled(s, a)
    ensures var t := Next(s, a);
            var fetched := if FetchesBatch(s, a) then 1 else 0;
            var yielded := if t.phase.Yielding? && !s.phase.Yielding? then 1 else 0;
            && yielded + Waiting(t) <= fetched + Waiting(s)
            && (a != Cancel ==> yielded + Waiting(t) == fetched + Waiting(s))
            && (a == Cancel ==> t.phase.AwaitClose? || t.phase.Ended?)
  {
  }

  /** Past its own close the stream neither fetches nor yields. */
  lemma ClosingStep(s: State, a: Action)
    requires Inv(s) && Enabled(s, a) && (s.phase.AwaitClose? || s.phase.Ended?)
    ensures var t := Next(s, a);
            !FetchesBatch(s, a) && Waiting(s) == 0 && (t.phase.AwaitClose? || t.phase.Ended?) && !EndsStream(s, a)
  {
  }

  lemma {:induction false} BatchAccount(states: seq<State>, actions: seq<Action>, n: nat)
    requires Run(states, actions) && n <= |actions|
    ensures Yielded(states, n) + Waiting(states[n]) <= Fetched(states, actions, n)
    ensures Without(actions, n, Cancel) ==> Yielded(states, n) + Waiting(states[n]) == Fetched(states, actions, n)
    ensures Fetched(states, actions, n) <=
            Yielded(states, n) + Waiting(states[n]) +
            if states[n].phase.AwaitClose? || states[n].phase.Ended? then 1 else 0
  {
    if n > 0 {
      BatchAccount(states, actions, n - 1);
      RunKeepsInvariant(states, actions, n - 1);
      var s, a := states[n - 1], actions[n - 1];
      assert Enabled(s, a) && states[(n - 1) + 1] == Next(s, a);
      BatchStep(s, a);
      WaitsForOne(s);
      if s.phase.AwaitClose? || s.phase.Ended? {
        ClosingStep(s, a);
      }
    }
  }

  lemma WaitsForOne(s: State)
    requires Inv(s)
    ensures Waiting(s) == 1 ==> s.phase.AwaitFetch? || s.phase.AwaitOpen?
  {
  }

  /** Every batch that is fetched for the consumer is yielded, once: the two counts agree whenever no
      reply is under way, unless the stream is cancelled, and then at most the last batch is lost. */
  lemma EveryBatchIsYielded(states: seq<State>, actions: seq<Action>, n: nat)
    requires Run(states, actions) && n <= |actions|
    ensures Yielded(states, n) <= Fetched(states, actions, n) <= Yielded(states, n) + 1
    ensures Without(actions, n, Cancel) && states[n].mail.None? ==> Yielded(states, n) == Fetched(states, actions, n)
  {
    BatchAccount(states, actions, n);
    RunKeepsInvariant(states, actions, n);
    WaitsForOne(states[n]);
  }

  /** The stream is about to close, closing or closed. */
  ghost predicate Ending(s: State) {
    || s.phase.AwaitClose?
    || s.phase.Ended?
    || ((s.phase.AwaitOpen? || s.phase.AwaitFetch?) && (s.mail == Some(OperationFailed) || s.mail == Some(Exhausted)))
  }

  lemma EndingStep(s: State, a: Action)
    requires Inv(s) && Enabled(s, a) && (Ending(s) || EndsStream(s, a))
    ensures Ending(Next(s, a))
  {
  }

  lemma {:induction false} EndingForever(states: seq<State>, actions: seq<Action>, j: nat, i: nat)
    requires Run(states, actions) && j < i < |states| && EndsStream(states[j], actions[j])
    ensures Ending(states[i])
    decreases i
  {
    hide Ending, EndsStream, Inv, Next, Enabled;
    RunKeepsInvariant(states, actions, i - 1);
    assert Enabled(states[i - 1], actions[i - 1]) && states[(i - 1) + 1] == Next(states[i - 1], actions[i - 1]);
    if i > j + 1 {
      EndingForever(states, actions, j, i - 1);
    }
    EndingStep(states[i - 1], actions[i - 1]);
  }

  /** After a failed open, a failed fetch or the end of the rows nothing is yielded any more, and as
      soon as the reply is delivered the stream closes. */
  lemma EndOfStreamCloses(states: seq<State>, actions: seq<Action>, j: nat, i: nat)
    requires Run(states, actions) && j < i < |states| && EndsStream(states[j], actions[j])
    ensures !states[i].phase.Yielding? && !states[i].phase.Unstarted?
    ensures states[i].mail.None? ==> states[i].phase.AwaitClose? || states[i].phase.Ended?
    ensures i < |actions| && actions[i] == Deliver ==> states[i + 1].phase.AwaitClose? || states[i + 1].phase.Ended?
  {
    EndingForever(states, actions, j, i);
    if i < |actions| && actions[i] == Deliver {
      RunKeepsInvariant(states, actions, i);
      assert Enabled(states[i], actions[i]) && states[i + 1] == Next(states[i], actions[i]);
    }
  }

  lemma ReasonStep(s: State, a: Action)
    requires Inv(s) && Enabled(s, a) && !Ending(s) && Ending(Next(s, a))
    ensures a == Cancel || a == EarlyClose || EndsStream(s, a)
  {
  }

  /** Conversely the stream closes only for a reason: it was cancelled, closed early, could not open or
      fetch, or ran out of rows. */
  lemma {:induction false} ClosesForAReason(states: seq<State>, actions: seq<Action>, n: nat) returns (j: nat)
    requires Run(states, actions) && n <= |actions| && (states[n].phase.AwaitClose? || states[n].phase.Ended?)
    ensures j < n && (actions[j] == Cancel || actions[j] == EarlyClose || EndsStream(states[j], actions[j]))
  {
    j := EndingReason(states, actions, n);
  }

  lemma {:induction false} EndingReason(states: seq<State>, actions: seq<Action>, n: nat) returns (j: nat)
    requires Run(states, actions) && n <= |actions| && Ending(states[n])
    ensures j < n && (actions[j] == Cancel || actions[j] == EarlyClose || EndsStream(states[j], actions[j]))
  {
    RunKeepsInvariant(states, actions, n - 1);
    assert Enabled(states[n - 1], actions[n - 1]) && states[(n - 1) + 1] == Next(states[n - 1], actions[n - 1]);
    if Ending(states[n - 1]) {
      j := EndingReason(states, actions, n - 1);
    } else {
      ReasonStep(states[n - 1], actions[n - 1]);
      j := n - 1;
    }
  }

  /** Whoever waits is not stuck: the worker can go on or a reply is there. */
  lemma WaitingProgresses(states: seq<State>, actions: seq<Action>, n: nat)
    requires Run(states, actions) && n < |states|
    requires states[n].phase.AwaitOpen? || states[n].phase.AwaitFetch? || states[n].phase.AwaitClose?
    ensures Enabled(states[n], Deliver) || Enabled(states[n], WorkerTake) || Enabled(states[n], WorkerStep(true, true))
  {
    RunKeepsInvariant(states, actions, n);
  }

  // ----- opening ------------------------------------------------------------------------------------

  /** The driver calls of a complete open. */
  const OPENING: seq<OpenStep> := [Connect, MakeCursor, ValidateCursor, Execute, ValidateResult, ReadDescription]

  /** The driver calls of `_open` that succeeded in the first `n` actions. */
  ghost function OpenLog(states: seq<State>, actions: seq<Action>, n: nat): seq<OpenStep>
    requires n <= |actions| && n <= |states|
  {
    if n == 0 then [] else OpenLog(states, actions, n - 1) + OpenedBy(states[n - 1], actions[n - 1])
  }

  ghost function OpenedBy(s: State, a: Action): seq<OpenStep> {
    if s.worker.Opening? && a.WorkerStep? && a.ok then [s.worker.at] else []
  }

  /** The log is the part of a complete open before the next call, and all of it once the open is over. */
  ghost predicate LogFits(s: State, log: seq<OpenStep>) {
    && log <= OPENING
    && (s.worker.Opening? ==> |log| < 6 && s.worker.at == OPENING[|log|])
    && (s.phase.Unstarted? || (s.queue != [] && s.queue[0].op.Open?) ==> log == [])
    && (s.mail == Some(Opened) || s.phase.AwaitFetch? || s.phase.Yielding? ==> log == OPENING)
  }

  lemma LogStep(s: State, a: Action, log: seq<OpenStep>)
    requires Inv(s) && Enabled(s, a) && LogFits(s, log)
    ensures LogFits(Next(s, a), log + OpenedBy(s, a))
  {
    hide LogFits, Inv, Enabled;
    if s.worker.Opening? && a.WorkerStep? {
      LogOpenCall(s, a.ok, log);
    } else {
      assert log + [] == log;
      if a.WorkerStep? || a.WorkerTake? {
        LogWorker(s, a, log);
      } else {
        LogCoroutine(s, a, log);
      }
    }
    assert log + [] == log;
  }

  lemma LogOpenCall(s: State, ok: bool, log: seq<OpenStep>)
    requires Inv(s) && LogFits(s, log) && s.worker.Opening?
    ensures LogFits(OpenCall(s, ok), if ok then log + [s.worker.at] else log)
  {
    assert log + [OPENING[|log|]] == OPENING[..|log| + 1];
  }

  lemma LogWorker(s: State, a: Action, log: seq<OpenStep>)
    requires Inv(s) && Enabled(s, a) && LogFits(s, log)
    requires a.WorkerTake? || (a.WorkerStep? && !s.worker.Opening?)
    ensures LogFits(Next(s, a), log)
  {
  }

  lemma LogCoroutine(s: State, a: Action, log: seq<OpenStep>)
    requires Inv(s) && Enabled(s, a) && LogFits(s, log) && !a.WorkerStep? && !a.WorkerTake?
    ensures LogFits(Next(s, a), log)
  {
  }

  lemma {:induction false} RunKeepsLog(states: seq<State>, actions: seq<Action>, n: nat)
    requires Run(states, actions) && n <= |actions|
    ensures LogFits(states[n], OpenLog(states, actions, n))
  {
    hide LogFits, OpenedBy, Inv, Next, Enabled;
    if n == 0 {
      LogStart();
    } else {
      RunKeepsLog(states, actions, n - 1);
      RunKeepsInvariant(states, actions, n - 1);
      assert Enabled(states[n - 1], actions[n - 1]) && states[(n - 1) + 1] == Next(states[n - 1], actions[n - 1]);
      LogStep(states[n - 1], actions[n - 1], OpenLog(states, actions, n - 1));
    }
  }

  lemma LogStart()
    ensures LogFits(INITIAL, [])
  {
  }

  /** `_open` makes its calls in order and each at most once, and the first fetch comes after all of them:
      cursor and result are validated before rows are read. */
  lemma OpenMakesAllCalls(states: seq<State>, actions: seq<Action>, n: nat)
    requires Run(states, actions) && n <= |actions|
    ensures OpenLog(states, actions, n) <= OPENING
    ensures states[n].phase.AwaitFetch? || states[n].phase.Yielding? ==> OpenLog(states, actions, n) == OPENING
    ensures Yielded(states, n) > 0 ==> OpenLog(states, actions, n) == OPENING
  {
    RunKeepsLog(states, actions, n);
    if Yielded(states, n) > 0 {
      YieldedOpened(states, actions, n);
    }
  }

  lemma {:induction false} YieldedOpened(states: seq<State>, actions: seq<Action>, n: nat)
    requires Run(states, actions) && n <= |actions| && Yielded(states, n) > 0
    ensures OpenLog(states, actions, n) == OPENING
  {
    RunKeepsLog(states, actions, n);
    if !states[n].phase.Yielding? {
      YieldedOpened(states, actions, n - 1);
      assert OPENING <= OpenLog(states, actions, n) <= OPENING;
    }
  }

  // ----- the worker after the end --------------------------------------------------------------------

  /** Driver calls the worker still has to make, counted generously. */
  function JobWork(job: Job): nat {
    if job.cancelled then 1 else match job.op case Open => 7 case Fetch => 2 case Close => 3
  }

  function QueueWork(queue: seq<Job>): nat {
    if queue == [] then 0 else JobWork(queue[0]) + QueueWork(queue[1..])
  }

  function WorkerWork(w: Worker): nat {
    match w
    case Idle => 0
    case Opening(at, _) =>
      (match at case Connect => 6 case MakeCursor => 5 case ValidateCursor => 4 case Execute => 3
                case ValidateResult => 2 case ReadDescription => 1)
    case Fetching(_) => 1
    case Detaching => 2
    case Closing(_) => 1
  }

  /** A close that was not submitted yet counts as well. */
  function Work(s: State): nat {
    QueueWork(s.queue) + WorkerWork(s.worker) + if s.closeSubmitted then 0 else JobWork(Job(Close, false))
  }

  /** After the end the worker can always go on until nothing is left, and each of its steps brings
      it nearer; nothing else gives it more to do. */
  lemma EndedStep(s: State, a: Action)
    requires Inv(s) && s.phase.Ended? && Enabled(s, a)
    ensures Next(s, a).phase.Ended?
    ensures Work(Next(s, a)) + (if a.WorkerTake? || a.WorkerStep? then 1 else 0) <= Work(s)
  {
    if a.CloseAgain? && !s.closeSubmitted {
      assert s.queue + [Job(Close, false)] == [Job(Close, false)];
      assert [Job(Close, false)][1..] == [];
    }
  }

  lemma EndedProgress(s: State)
    requires Inv(s) && s.phase.Ended? && !Quiescent(s)
    ensures Enabled(s, WorkerTake) || forall ok, more :: Enabled(s, WorkerStep(ok, more))
  {
  }

  function WorkerActions(actions: seq<Action>): nat {
    if actions == [] then 0
    else (if actions[0].WorkerTake? || actions[0].WorkerStep? then 1 else 0) + WorkerActions(actions[1..])
  }

  lemma {:induction false} EndedRunBound(states: seq<State>, actions: seq<Action>, i: nat)
    requires Run(states, actions) && i < |states| && states[i].phase.Ended?
    ensures WorkerActions(actions[i..]) + Work(states[|actions|]) <= Work(states[i])
    ensures states[|actions|].phase.Ended?
    decreases |states| - i
  {
    if i < |actions| {
      RunKeepsInvariant(states, actions, i);
      assert Enabled(states[i], actions[i]) && states[i + 1] == Next(states[i], actions[i]);
      EndedStep(states[i], actions[i]);
      EndedRunBound(states, actions, i + 1);
      assert actions[i..][1..] == actions[i + 1..];
    }
  }

  lemma EndedWorkBound(s: State)
    requires Inv(s) && s.phase.Ended?
    ensures Work(s) <= 9
  {
    assert QueueWork([Job(Close, false)]) == 3 by {
      assert [Job(Close, false)][1..] == [];
    }
    if |s.queue| == 1 {
      assert s.queue[1..] == [];
    } else if |s.queue| == 2 {
      assert s.queue[1..] == [Job(Close, false)];
    }
  }

  /** Once the stream has ended the worker takes at most nine more steps, and when it can take none
      every connection that was opened has been closed exactly once: cancelling again while the
      close is awaited never leaks a connection. */
  lemma EndedStreamLeavesNothingOpen(states: seq<State>, actions: seq<Action>, i: nat)
    requires Run(states, actions) && i < |states| && states[i].phase.Ended?
    ensures WorkerActions(actions[i..]) <= 9
    ensures var last := states[|actions|];
            !Enabled(last, WorkerTake) && !Enabled(last, WorkerStep(true, true)) ==>
              Quiescent(last) && last.connection.None? && forall c | 0 <= c < |last.attempts| :: last.attempts[c] == 1
  {
    RunKeepsInvariant(states, actions, i);
    EndedWorkBound(states[i]);
    EndedRunBound(states, actions, i);
    RunKeepsInvariant(states, actions, |actions|);
    var last := states[|actions|];
    if !Quiescent(last) {
      EndedProgress(last);
    }
  }
}
