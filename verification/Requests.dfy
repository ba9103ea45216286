/** Requests and the slots of the command pool: what becomes of every request the
    dispatcher takes, in any interleaving of the dispatcher, the reply tasks and the
    pool's threads (`_dispatch_message`, `_execute_and_reply`, and the openings of the
    stream handlers). */
module Requests {
  import opened Session
  import opened Text

  datatype Outcome = Returned | Raised | RaisedTimeout

  /** A submitted command: running, ended with its completion callback still queued on
      the event loop, or with that callback run. */
  datatype Work = NoSlot | Running | Ended(outcome: Outcome) | Freed(outcome: Outcome)

  datatype Message = Invalid | Busy | Result | Failed | TimedOut | Opened | StreamClosed

  /** Where the task answering a request is. */
  datatype Task = Awaiting | Opening | Sending(message: Message) | Streaming | Over

  /** `delivered` is what the control plane was sent for this request. */
  datatype Request = Request(work: Work, task: Task, delivered: seq<Message>)

  /** `pending` is `pending_commands`; requests are numbered as they arrive. */
  datatype State = State(pending: nat, requests: seq<Request>)

  const START := State(0, [])

  /** What a request asks for: parameters that are no object, a stream id that cannot
      be claimed, a PTY or a tunnel, or a command the pool takes or refuses. */
  datatype Asked = BadParams | BadStream | Stream | Command(submits: bool)

  /** Steps on request `i`. `sent` says whether a send went through; a send that raises
      delivers nothing, one that is cancelled may. */
  datatype Action =
    | Receive(asked: Asked, sent: bool)
    | WorkEnds(i: nat, outcome: Outcome)
    | Callback(i: nat)
    | Collect(i: nat)
    | Timeout(i: nat)
    | Opens(i: nat, ok: bool)
    | SendEnds(i: nat, sent: bool, timedOut: bool)
    | StreamEnds(i: nat)
    | Cancel(i: nat, sent: bool)

  function Refusal(message: Message, sent: bool): Request
  {
    Request(NoSlot, Over, if sent then [message] else [])
  }

  function Received(s: State, asked: Asked, sent: bool): State
  {
    match asked
    case BadParams => s.(requests := s.requests + [Refusal(Invalid, sent)])
    case BadStream => s.(requests := s.requests + [Refusal(Invalid, sent)])
    case Stream => s.(requests := s.requests + [Request(NoSlot, Opening, [])])
    case Command(submits) =>
      if s.pending >= MAX_COMMANDS then s.(requests := s.requests + [Refusal(Busy, sent)])
      else if submits then State(s.pending + 1, s.requests + [Request(Running, Awaiting, [])])
      else s.(requests := s.requests + [Refusal(Busy, false)])
  }

  function AnswerTo(outcome: Outcome): Message
  {
    match outcome
    case Returned => Result
    case Raised => Failed
    case RaisedTimeout => TimedOut
  }

  /** A result that could not be sent is followed by an attempt to send the error. */
  function AfterSend(r: Request, sent: bool, timedOut: bool): Request
    requires r.task.Sending?
  {
    var m := r.task.message;
    if sent then r.(task := if m.Opened? then Streaming else Over, delivered := r.delivered + [m])
    else if m.Result? then r.(task := Sending(if timedOut then TimedOut else Failed))
    else r.(task := Over)
  }

  function Step(r: Request, a: Action): Request
    requires !a.Receive?
  {
    match a
    case WorkEnds(_, outcome) => if r.work.Running? then r.(work := Ended(outcome)) else r
    case Callback(_) => if r.work.Ended? then r.(work := Freed(r.work.outcome)) else r
    case Collect(_) =>
      if r.task.Awaiting? && (r.work.Ended? || r.work.Freed?) then r.(task := Sending(AnswerTo(r.work.outcome))) else r
    case Timeout(_) => if r.task.Awaiting? then r.(task := Sending(TimedOut)) else r
    case Opens(_, ok) => if r.task.Opening? then r.(task := Sending(if ok then Opened else Failed)) else r
    case SendEnds(_, sent, timedOut) => if r.task.Sending? then AfterSend(r, sent, timedOut) else r
    case StreamEnds(_) => if r.task.Streaming? then r.(task := Sending(StreamClosed)) else r
    case Cancel(_, sent) =>
      (match r.task
       case Streaming => r.(task := Sending(StreamClosed))
       case Sending(m) => r.(task := Over, delivered := r.delivered + if sent then [m] else [])
       case _ => r.(task := Over))
  }

  function Next(s: State, a: Action): State
  {
    if a.Receive? then Received(s, a.asked, a.sent)
    else if a.i >= |s.requests| then s
    else
      var r := s.requests[a.i];
      State(if a.Callback? && r.work.Ended? then Decremented(s.pending) else s.pending,
            s.requests[a.i := Step(r, a)])
  }

  function After(actions: seq<Action>): State
  {
    if actions == [] then START else Next(After(actions[..|actions| - 1]), actions[|actions| - 1])
  }

  /** Submitted, and the completion callback has not run. */
  predicate Holds(r: Request)
  {
    r.work.Running? || r.work.Ended?
  }

  function Holding(requests: seq<Request>): nat
  {
    if requests == [] then 0
    else Holding(requests[..|requests| - 1]) + if Holds(requests[|requests| - 1]) then 1 else 0
  }

  lemma HoldingOneMore(requests: seq<Request>, r: Request)
    ensures Holding(requests + [r]) == Holding(requests) + if Holds(r) then 1 else 0
  {
    assert (requests + [r])[..|requests|] == requests;
  }

  lemma {:induction false} HoldingChanged(requests: seq<Request>, i: nat, r: Request)
    requires i < |requests|
    ensures Holding(requests[i := r])
         == Holding(requests) + (if Holds(r) then 1 else 0) - (if Holds(requests[i]) then 1 else 0)
    decreases |requests|
  {
    var last := |requests| - 1;
    if i == last {
      assert requests[i := r][..last] == requests[..last];
    } else {
      HoldingChanged(requests[..last], i, r);
      assert requests[i := r][..last] == requests[..last][i := r];
    }
  }

  lemma {:induction false} HoldingNone(requests: seq<Request>)
    ensures Holding(requests) == 0 <==> forall r | r in requests :: !Holds(r)
    decreases |requests|
  {
    if requests == [] {
    } else {
      var init, last := requests[..|requests| - 1], requests[|requests| - 1];
      HoldingNone(init);
      assert requests == init + [last];
    }
  }

  predicate IsResponse(m: Message)
  {
    !m.StreamClosed?
  }

  /** Nothing, one response, or an ok and then the stream's close. */
  predicate WellAnswered(delivered: seq<Message>)
  {
    || delivered == []
    || (|delivered| == 1 && IsResponse(delivered[0]))
    || delivered == [Opened, StreamClosed]
  }

  /** What is still to be said never comes on top of a response already given, and a
      result is only what a command that returned has earned. */
  ghost predicate Consistent(r: Request)
  {
    && WellAnswered(r.delivered)
    && (r.task.Awaiting? || r.task.Opening? ==> r.delivered == [])
    && (r.task.Streaming? ==> r.delivered == [Opened])
    && (r.task.Sending? ==> r.delivered == if r.task.message.StreamClosed? then [Opened] else [])
    && (r.task.Sending? && r.task.message.Result? ==> HasReturned(r.work))
    && (Result in r.delivered ==> HasReturned(r.work))
    && (r.work.NoSlot? ==> !r.task.Awaiting?)
  }

  predicate HasReturned(work: Work)
  {
    (work.Ended? || work.Freed?) && work.outcome.Returned?
  }

  ghost predicate Invariant(s: State)
  {
    && s.pending == Holding(s.requests) <= MAX_COMMANDS
    && forall r | r in s.requests :: Consistent(r)
  }

  lemma StepConsistent(r: Request, a: Action)
    requires Consistent(r) && !a.Receive?
    ensures Consistent(Step(r, a))
  {
    if a.SendEnds? && r.task.Sending? {
      var m := r.task.message;
      assert r.delivered + [m] == if m.StreamClosed? then [Opened, StreamClosed] else [m];
    } else if a.Cancel? && r.task.Sending? {
      var m := r.task.message;
      assert r.delivered + [m] == if m.StreamClosed? then [Opened, StreamClosed] else [m];
      assert r.delivered + [] == r.delivered;
    }
  }

  lemma ReceivedInvariant(s: State, asked: Asked, sent: bool)
    requires Invariant(s)
    ensures Invariant(Received(s, asked, sent))
  {
    hide Holding;
    var s' := Received(s, asked, sent);
    var r := s'.requests[|s.requests|];
    assert s'.requests == s.requests + [r];
    HoldingOneMore(s.requests, r);
    assert Consistent(r);
  }

  lemma NextInvariant(s: State, a: Action)
    requires Invariant(s)
    ensures Invariant(Next(s, a))
  {
    hide Holding, Consistent, Received;
    if a.Receive? {
      ReceivedInvariant(s, a.asked, a.sent);
    } else if a.i < |s.requests| {
      var r := s.requests[a.i];
      HoldingChanged(s.requests, a.i, Step(r, a));
      HoldsAtLeastOne(s.requests, a.i);
      StepConsistent(r, a);
    }
  }

  lemma {:induction false} HoldsAtLeastOne(requests: seq<Request>, i: nat)
    requires i < |requests|
    ensures Holds(requests[i]) ==> Holding(requests) >= 1
  {
    HoldingNone(requests);
    assert requests[i] in requests;
  }

  lemma {:induction false} RunInvariant(actions: seq<Action>)
    ensures Invariant(After(actions))
    decreases |actions|
  {
    hide Next, Consistent;
    if actions == [] {
    } else {
      RunInvariant(actions[..|actions| - 1]);
      NextInvariant(After(actions[..|actions| - 1]), actions[|actions| - 1]);
    }
  }

  /** In every interleaving the count is the number of submitted commands whose
      completion callback has not run, and never above the limit. */
  lemma PendingIsHolding(actions: seq<Action>)
    ensures After(actions).pending == Holding(After(actions).requests) <= MAX_COMMANDS
  {
    RunInvariant(actions);
  }

  /** The count is back at 0 exactly when every submitted command's callback has run. */
  lemma PendingDrains(actions: seq<Action>)
    ensures After(actions).pending == 0 <==> forall r | r in After(actions).requests :: !Holds(r)
  {
    RunInvariant(actions);
    HoldingNone(After(actions).requests);
  }

  /** Only its own callback frees a command's slot: no reply, timeout, failed send or
      cancelled task does, and the clamp at 0 never acts. */
  lemma OnlyTheCallbackFrees(actions: seq<Action>, a: Action)
    ensures var s, s' := After(actions), Next(After(actions), a);
            && (s'.pending < s.pending <==> a.Callback? && a.i < |s.requests| && s.requests[a.i].work.Ended?)
            && (s'.pending < s.pending ==> s'.pending == s.pending - 1)
            && (forall j | 0 <= j < |s.requests| :: Holds(s.requests[j]) && !Holds(s'.requests[j]) <==>
                  a.Callback? && a.i == j && s.requests[j].work.Ended?)
  {
    RunInvariant(actions);
    var s := After(actions);
    hide Holding, Consistent, After;
    if a.Callback? && a.i < |s.requests| {
      HoldsAtLeastOne(s.requests, a.i);
    }
  }

  /** A command is turned away as too many exactly while the limit's worth of earlier
      ones still hold their slots. */
  lemma BusyWhenFull(actions: seq<Action>)
    ensures var s := After(actions);
            var s' := Next(s, Receive(Command(true), true));
            s'.requests[|s.requests|].delivered == [Busy] <==> Holding(s.requests) == MAX_COMMANDS
  {
    RunInvariant(actions);
  }

  /** What a request is answered at once, or that it gets a slot. */
  lemma ReceiptExactly(actions: seq<Action>, asked: Asked, sent: bool)
    ensures var s := After(actions);
            var r := Next(s, Receive(asked, sent)).requests[|s.requests|];
            var full := Holding(s.requests) == MAX_COMMANDS;
            match asked
            case Stream => r.task.Opening? && r.delivered == []
            case Command(submits) =>
              if full then r.work.NoSlot? && r.delivered == if sent then [Busy] else []
              else if submits then r == Request(Running, Awaiting, [])
              else r.work.NoSlot? && r.delivered == []
            case _ => r.work.NoSlot? && r.delivered == if sent then [Invalid] else []
  {
    RunInvariant(actions);
  }

  /** What each outcome is reported as. */
  function Report(outcome: Outcome): Message
  {
    if outcome == Returned then Result else if outcome == RaisedTimeout then TimedOut else Failed
  }

  lemma Last(actions: seq<Action>, a: Action)
    ensures After(actions + [a]) == Next(After(actions), a)
  {
    assert (actions + [a])[..|actions|] == actions;
  }

  /** The request of this number after a run. */
  function Become(actions: seq<Action>, i: nat): Option<Request>
  {
    var requests := After(actions).requests;
    if i < |requests| then Some(requests[i]) else None
  }

  lemma BecomeNext(actions: seq<Action>, i: nat, a: Action)
    requires !a.Receive? && a.i == i && Become(actions, i).Some?
    ensures Become(actions + [a], i) == Some(Step(Become(actions, i).value, a))
  {
    Last(actions, a);
    hide Step;
  }

  /** A command still running ends, its task runs and its send goes through: it is reported
      as it ended, and so is one that had ended already. */
  lemma EndedIsReported(actions: seq<Action>, i: nat, outcome: Outcome)
    requires Become(actions, i).Some? && Become(actions, i).value.task.Awaiting?
    requires var work := Become(actions, i).value.work;
             work.Running? || ((work.Ended? || work.Freed?) && work.outcome == outcome)
    ensures var more := [WorkEnds(i, outcome)] + [Collect(i)] + [SendEnds(i, true, false)];
            var r' := Become(actions + more, i);
            r'.Some? && r'.value.task.Over? && r'.value.delivered == [Report(outcome)]
  {
    hide After, Become, Step;
    AwaitingUnanswered(actions, i);
    BecomeNext(actions, i, WorkEnds(i, outcome));
    var a1 := actions + [WorkEnds(i, outcome)];
    BecomeNext(a1, i, Collect(i));
    BecomeNext(a1 + [Collect(i)], i, SendEnds(i, true, false));
    assert actions + ([WorkEnds(i, outcome)] + [Collect(i)] + [SendEnds(i, true, false)])
        == a1 + [Collect(i)] + [SendEnds(i, true, false)];
    ThreeSteps(Become(actions, i).value, i, outcome);
  }

  lemma ThreeSteps(r: Request, i: nat, outcome: Outcome)
    requires r.task.Awaiting? && r.delivered == []
    requires r.work.Running? || ((r.work.Ended? || r.work.Freed?) && r.work.outcome == outcome)
    ensures var r' := Step(Step(Step(r, WorkEnds(i, outcome)), Collect(i)), SendEnds(i, true, false));
            r'.task.Over? && r'.delivered == [Report(outcome)]
  {}

  /** A command that takes too long is reported so, whatever becomes of it. */
  lemma TimeoutIsReported(actions: seq<Action>, i: nat)
    requires Become(actions, i).Some? && Become(actions, i).value.task.Awaiting?
    ensures var r' := Become(actions + [Timeout(i)] + [SendEnds(i, true, false)], i);
            r'.Some? && r'.value.task.Over? && r'.value.delivered == [TimedOut]
  {
    hide After, Become;
    AwaitingUnanswered(actions, i);
    BecomeNext(actions, i, Timeout(i));
    BecomeNext(actions + [Timeout(i)], i, SendEnds(i, true, false));
  }

  /** A stream that opens is told so, and its end, be it its own or its task cancelled, is
      told too; one that does not open gets an error. */
  lemma StreamIsAnswered(actions: seq<Action>, i: nat, ok: bool, cancelled: bool)
    requires Become(actions, i).Some? && Become(actions, i).value.task.Opening?
    ensures var told := actions + [Opens(i, ok)] + [SendEnds(i, true, false)];
            var over := told + [if cancelled then Cancel(i, true) else StreamEnds(i)] + [SendEnds(i, true, false)];
            && Become(told, i).Some? && Become(told, i).value.delivered == [if ok then Opened else Failed]
            && (ok ==> Become(over, i).Some? && Become(over, i).value.delivered == [Opened, StreamClosed]
                       && Become(over, i).value.task.Over?)
  {
    hide After, Become, Step;
    OpeningUnanswered(actions, i);
    var end := if cancelled then Cancel(i, true) else StreamEnds(i);
    BecomeNext(actions, i, Opens(i, ok));
    var a1 := actions + [Opens(i, ok)];
    BecomeNext(a1, i, SendEnds(i, true, false));
    var a2 := a1 + [SendEnds(i, true, false)];
    BecomeNext(a2, i, end);
    BecomeNext(a2 + [end], i, SendEnds(i, true, false));
    FourSteps(Become(actions, i).value, i, ok, end);
  }

  lemma FourSteps(r: Request, i: nat, ok: bool, end: Action)
    requires r.task.Opening? && r.delivered == [] && (end == StreamEnds(i) || end == Cancel(i, true))
    ensures var r2 := Step(Step(r, Opens(i, ok)), SendEnds(i, true, false));
            && r2.delivered == [if ok then Opened else Failed]
            && (ok ==> Step(Step(r2, end), SendEnds(i, true, false)).delivered == [Opened, StreamClosed]
                       && Step(Step(r2, end), SendEnds(i, true, false)).task.Over?)
  {}

  lemma OpeningUnanswered(actions: seq<Action>, i: nat)
    requires Become(actions, i).Some? && Become(actions, i).value.task.Opening?
    ensures Become(actions, i).value.delivered == []
  {
    RunInvariant(actions);
    assert After(actions).requests[i] in After(actions).requests;
  }

  /** A send that raises delivers nothing and is the last attempt, save that a result is
      followed by an attempt at an error; a cancelled one may have delivered. */
  lemma SendsExactly(actions: seq<Action>, i: nat, sent: bool, timedOut: bool)
    requires Become(actions, i).Some? && Become(actions, i).value.task.Sending?
    ensures var r, m := Become(actions, i).value, Become(actions, i).value.task.message;
            var r', c := Become(actions + [SendEnds(i, sent, timedOut)], i), Become(actions + [Cancel(i, sent)], i);
            && r'.Some? && r'.value.delivered == r.delivered + (if sent then [m] else [])
            && (!sent ==> r'.value.task == if m.Result? then Sending(if timedOut then TimedOut else Failed) else Over)
            && c.Some? && c.value.delivered == r.delivered + (if sent then [m] else []) && c.value.task.Over?
  {
    hide After, Become;
    BecomeNext(actions, i, SendEnds(i, sent, timedOut));
    BecomeNext(actions, i, Cancel(i, sent));
    assert Become(actions, i).value.delivered + [] == Become(actions, i).value.delivered;
  }

  lemma AwaitingUnanswered(actions: seq<Action>, i: nat)
    requires Become(actions, i).Some? && Become(actions, i).value.task.Awaiting?
    ensures Become(actions, i).value.delivered == []
  {
    RunInvariant(actions);
    assert After(actions).requests[i] in After(actions).requests;
  }

  /** The step of number `k` was a send of request `i`'s result that did not go through. */
  ghost predicate ResultLost(actions: seq<Action>, i: nat, k: int)
  {
    && 0 <= k < |actions| && actions[k].SendEnds? && actions[k].i == i && !actions[k].sent
    && i < |After(actions[..k]).requests| && After(actions[..k]).requests[i].task == Sending(Result)
  }

  ghost predicate TimedOutAt(actions: seq<Action>, i: nat, k: int)
  {
    0 <= k < |actions| && actions[k] == Timeout(i)
  }

  ghost predicate Lost(actions: seq<Action>, i: nat)
  {
    exists k :: ResultLost(actions, i, k)
  }

  ghost predicate Late(actions: seq<Action>, i: nat)
  {
    exists k :: TimedOutAt(actions, i, k)
  }

  /** What a command's error is owed to: it raised, its result could not be sent, or, for a
      timeout, it took too long. */
  predicate Earned(r: Request, m: Message, lost: bool, late: bool)
  {
    var ended := r.work.Ended? || r.work.Freed?;
    match m
    case Result => ended && r.work.outcome.Returned?
    case Failed => (ended && r.work.outcome.Raised?) || lost
    case TimedOut => (ended && r.work.outcome.RaisedTimeout?) || lost || late
    case _ => false
  }

  ghost predicate AllEarned(r: Request, lost: bool, late: bool)
  {
    !r.work.NoSlot? ==>
      && (r.task.Sending? ==> Earned(r, r.task.message, lost, late))
      && (forall m | m in r.delivered :: Earned(r, m, lost, late))
      && !r.task.Opening? && !r.task.Streaming?
  }

  lemma StepEarns(r: Request, a: Action, lost: bool, late: bool, lost': bool, late': bool)
    requires AllEarned(r, lost, late) && !a.Receive?
    requires (lost ==> lost') && (late ==> late')
    requires a.SendEnds? && !a.sent && r.task == Sending(Result) ==> lost'
    requires a.Timeout? ==> late'
    ensures AllEarned(Step(r, a), lost', late')
  {
    NothingElseDelivered(r, a);
  }

  lemma NothingElseDelivered(r: Request, a: Action)
    requires !a.Receive?
    ensures forall m | m in Step(r, a).delivered :: m in r.delivered || (r.task.Sending? && m == r.task.message)
  {}

  /** A command is answered only with what it has earned: its result if it returned, an
      error if it raised, took too long, or its result was lost on the way. */
  lemma {:induction false} AnswersAreEarned(actions: seq<Action>, i: nat)
    requires i < |After(actions).requests|
    ensures AllEarned(After(actions).requests[i], Lost(actions, i), Late(actions, i))
    decreases |actions|
  {
    hide Received, AllEarned, Lost, Late, Step;
    if actions != [] {
      var n := |actions| - 1;
      var init, a := actions[..n], actions[n];
      assert actions == init + [a];
      if i >= |After(init).requests| {
        EarnedAtFirst(After(init), a, i, Lost(actions, i), Late(actions, i));
      } else {
        AnswersAreEarned(init, i);
        CauseStays(init, a, i);
        CauseNow(init, a, i);
        NextOf(After(init), a, i);
        if a.Receive? || a.i != i {
          MoreEarned(After(init).requests[i], Lost(init, i), Late(init, i), Lost(actions, i), Late(actions, i));
        } else {
          StepEarns(After(init).requests[i], a, Lost(init, i), Late(init, i), Lost(actions, i), Late(actions, i));
        }
      }
    }
  }

  lemma MoreEarned(r: Request, lost: bool, late: bool, lost': bool, late': bool)
    requires AllEarned(r, lost, late) && (lost ==> lost') && (late ==> late')
    ensures AllEarned(r, lost', late')
  {}

  lemma NextOf(s: State, a: Action, i: nat)
    requires i < |s.requests|
    ensures var s' := Next(s, a);
            && i < |s'.requests|
            && s'.requests[i] == if a.Receive? || a.i != i then s.requests[i] else Step(s.requests[i], a)
  {
    hide Step;
  }

  lemma EarnedAtFirst(s: State, a: Action, i: nat, lost: bool, late: bool)
    requires |s.requests| <= i < |Next(s, a).requests|
    ensures AllEarned(Next(s, a).requests[i], lost, late)
  {}

  lemma CauseStays(init: seq<Action>, a: Action, i: nat)
    ensures (Lost(init, i) ==> Lost(init + [a], i)) && (Late(init, i) ==> Late(init + [a], i))
  {
    var all := init + [a];
    if Lost(init, i) {
      var k :| ResultLost(init, i, k);
      assert all[..k] == init[..k];
      assert ResultLost(all, i, k);
    }
    if Late(init, i) {
      var k :| TimedOutAt(init, i, k);
      assert TimedOutAt(all, i, k);
    }
  }

  lemma CauseNow(init: seq<Action>, a: Action, i: nat)
    requires i < |After(init).requests|
    ensures a.SendEnds? && a.i == i && !a.sent && After(init).requests[i].task == Sending(Result) ==>
              Lost(init + [a], i)
    ensures a.Timeout? && a.i == i ==> Late(init + [a], i)
  {
    var all := init + [a];
    assert all[..|init|] == init;
    assert ResultLost(all, i, |init|) || !(a.SendEnds? && a.i == i && !a.sent
                                           && After(init).requests[i].task == Sending(Result));
    assert TimedOutAt(all, i, |init|) || !(a.Timeout? && a.i == i);
  }

  /** However its task is interleaved, raced by a timeout or cut short, a request gets
      at most one response; a `stream_closed` only follows that stream's ok; and a
      result is only reported for a command that returned. */
  lemma AnsweredOnce(actions: seq<Action>, i: nat)
    requires i < |After(actions).requests|
    ensures var r := After(actions).requests[i];
            WellAnswered(r.delivered) && (Result in r.delivered ==> HasReturned(r.work))
  {
    RunInvariant(actions);
    assert After(actions).requests[i] in After(actions).requests;
  }
}
