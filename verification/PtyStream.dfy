/** A PTY's input: frames queue for the bridge task, which offers them to the bounded
    thread queue the worker drains (`_stream_ctrl`, `_offer`, `_bridge`,
    `run_pty_blocking`). The worker is a thread: it runs between any two steps. */
module PtyStream {
  import opened Session

  const QUEUE_SIZE: nat := 256

  /** An accepted item with its place in the order of acceptance. */
  datatype Tagged = Tagged(n: nat, item: Item)

  /** How far `_offer` has come: first put, then, for a close that found the queue
      full, take one out and put again. */
  datatype Stage = Put | MakeRoom | PutAgain

  datatype Bridge = Unstarted | Getting | Offering(x: Tagged, stage: Stage) | Over

  datatype Worker = Idle | Handling(x: Tagged) | Exited

  /** `cut`: the bridge was cancelled; if it had started it now offers a close of its
      own, if not it never will (its task starts only after the ack, and a worker that
      is already done leaves it no time). `callbacks`
      are drained sizes reported by the worker, not yet processed; `evicted` is what
      was taken out to make room. */
  datatype State = State(
    ctrl: seq<Tagged>, counted: nat, closing: bool, bridge: Bridge, cut: bool,
    thread: seq<Tagged>, worker: Worker, callbacks: seq<nat>, evicted: nat,
    accepted: seq<Item>, taken: seq<Tagged>)

  const START := State([], 0, false, Unstarted, false, [], Idle, [], 0, [], [])

  datatype Action =
    | Frame(item: Item, others: nat)
    | BridgeStart
    | BridgeGet
    | BridgeOffer
    | BridgeCancel
    | WorkerGet
    | WorkerDone(ok: bool)
    | WorkerStop
    | Callback

  function Accept(s: State, item: Item): State
  {
    s.(ctrl := s.ctrl + [Tagged(|s.accepted|, item)], accepted := s.accepted + [item])
  }

  function AfterOffer(x: Tagged): Bridge
  {
    if x.item.Close? then Over else Getting
  }

  function Offer(s: State, x: Tagged, stage: Stage): State
  {
    var room := |s.thread| < QUEUE_SIZE;
    match stage
    case Put =>
      if room then s.(thread := s.thread + [x], bridge := AfterOffer(x))
      else if x.item.Close? then s.(bridge := Offering(x, MakeRoom))
      else s.(bridge := Getting, counted := s.counted - Drained(s.counted, SizeOf(x.item)))
    case MakeRoom =>
      if s.thread == [] then s.(bridge := Offering(x, PutAgain))
      else s.(thread := s.thread[1..], evicted := s.evicted + SizeOf(s.thread[0].item), bridge := Offering(x, PutAgain))
    case PutAgain =>
      if room then s.(thread := s.thread + [x], bridge := Over) else s.(bridge := Over)
  }

  function Next(s: State, a: Action): State
  {
    match a
    case Frame(item, others) =>
      (match Admit(s.closing, |s.ctrl|, QUEUE_SIZE, s.counted, s.counted + others, item)
       case Accepted => Accept(s, item).(counted := s.counted + SizeOf(item))
       case Refused => (if |s.ctrl| < QUEUE_SIZE then Accept(s, Close) else s).(closing := true)
       case _ => s)
    case BridgeStart =>
      if s.bridge.Unstarted? && !s.cut then s.(bridge := Getting) else s
    case BridgeGet =>
      if s.bridge.Getting? && s.ctrl != [] then s.(bridge := Offering(s.ctrl[0], Put), ctrl := s.ctrl[1..]) else s
    case BridgeOffer =>
      if s.bridge.Offering? then Offer(s, s.bridge.x, s.bridge.stage) else s
    case BridgeCancel =>
      if s.bridge.Getting?
      then s.(bridge := Offering(Tagged(|s.accepted|, Close), Put), cut := true, accepted := s.accepted + [Close])
      else if s.bridge.Unstarted? then s.(cut := true)
      else s
    case WorkerGet =>
      if s.worker.Idle? && s.thread != []
      then s.(worker := Handling(s.thread[0]), thread := s.thread[1..], taken := s.taken + [s.thread[0]])
      else s
    case WorkerDone(ok) =>
      if !s.worker.Handling? then s
      else
        var item := s.worker.x.item;
        s.(worker := if item.Close? || (item.Data? && !ok) then Exited else Idle,
           callbacks := s.callbacks + if item.Data? then [SizeOf(item)] else [])
    case WorkerStop =>
      if s.worker.Idle? then s.(worker := Exited) else s
    case Callback =>
      if s.callbacks == [] then s
      else s.(callbacks := s.callbacks[1..], counted := s.counted - Drained(s.counted, s.callbacks[0]))
  }

  function Size(items: seq<Tagged>): nat
  {
    if items == [] then 0 else SizeOf(items[0].item) + Size(items[1..])
  }

  function Total(counts: seq<nat>): nat
  {
    if counts == [] then 0 else counts[0] + Total(counts[1..])
  }

  lemma {:induction false} SizeConcat(a: seq<Tagged>, b: seq<Tagged>)
    ensures Size(a + b) == Size(a) + Size(b)
    decreases |a|
  {
    if a == [] {
      assert a + b == b;
    } else {
      assert (a + b)[1..] == a[1..] + b;
      SizeConcat(a[1..], b);
    }
  }

  lemma SizeOne(a: seq<Tagged>, x: Tagged)
    ensures Size(a + [x]) == Size(a) + SizeOf(x.item)
  {
    SizeConcat(a, [x]);
    assert [x][1..] == [];
  }

  lemma {:induction false} TotalConcat(a: seq<nat>, n: nat)
    ensures Total(a + [n]) == Total(a) + n
    decreases |a|
  {
    if a == [] {
      assert a + [n] == [n] && [n][1..] == [];
    } else {
      assert (a + [n])[1..] == a[1..] + [n];
      TotalConcat(a[1..], n);
    }
  }

  /** Bytes in both queues, in the bridge and in the worker. */
  function Held(s: State): nat
  {
    Size(s.ctrl) + (if s.bridge.Offering? then SizeOf(s.bridge.x.item) else 0)
    + Size(s.thread) + (if s.worker.Handling? then SizeOf(s.worker.x.item) else 0)
  }

  /** The count is what is held, what was drained but not yet reported, and what was
      evicted to make room for a close. */
  ghost predicate Counted(s: State)
  {
    s.counted == Held(s) + Total(s.callbacks) + s.evicted
  }

  /** Control items the bridge has yet to get; none once it is cancelled or over. */
  function Waiting(s: State): seq<Tagged>
  {
    if s.bridge.Over? || (s.cut && s.bridge.Offering?) then [] else s.ctrl
  }

  /** Items on their way to the worker, the ones it took first. */
  function Chain(s: State): seq<Tagged>
  {
    s.taken + s.thread
    + (if s.bridge.Offering? then [s.bridge.x] else [])
    + Waiting(s)
  }

  /** Items appear in the order of their acceptance, each the item accepted. */
  ghost predicate InOrder(chain: seq<Tagged>, accepted: seq<Item>)
  {
    && (forall i, j | 0 <= i < j < |chain| :: chain[i].n < chain[j].n)
    && (forall i | 0 <= i < |chain| :: chain[i].n < |accepted| && accepted[chain[i].n] == chain[i].item)
  }

  /** The second put of a close always finds room, since nobody else puts; a
      cancelled bridge only offers its own close. */
  ghost predicate Staged(s: State)
  {
    && |s.thread| <= QUEUE_SIZE
    && (s.bridge.Offering? && !s.bridge.stage.Put? ==> s.bridge.x.item.Close?)
    && (s.bridge.Offering? && s.bridge.stage.PutAgain? ==> |s.thread| < QUEUE_SIZE)
    && (s.cut ==> !s.bridge.Getting? && (s.bridge.Offering? ==> s.bridge.x.item.Close?))
  }

  /** Once the bridge is over, the last thing it put is a close, and the worker has
      not yet taken it or took nothing after it. */
  ghost predicate Ended(s: State)
  {
    s.bridge.Over? ==> var put := s.taken + s.thread; put != [] && put[|put| - 1].item.Close?
  }

  ghost predicate Invariant(s: State)
  {
    Counted(s) && Staged(s) && Ended(s) && InOrder(Chain(s), s.accepted)
  }

  lemma FrameCounted(s: State, item: Item, others: nat)
    requires Counted(s)
    ensures Counted(Next(s, Frame(item, others)))
  {
    hide Size, Total;
    var s' := Next(s, Frame(item, others));
    if s'.ctrl != s.ctrl {
      var x := Tagged(|s.accepted|, s'.accepted[|s.accepted|]);
      assert s' == s.(ctrl := s.ctrl + [x], accepted := s'.accepted, counted := s'.counted, closing := s'.closing);
      assert s'.counted == s.counted + SizeOf(x.item);
      SizeOne(s.ctrl, x);
    }
  }

  lemma EvictCounted(s: State)
    requires Counted(s) && s.bridge.Offering? && s.bridge.stage.MakeRoom?
    ensures Counted(Next(s, BridgeOffer))
  {
    assert s.thread != [] ==> Size(s.thread) == SizeOf(s.thread[0].item) + Size(s.thread[1..]);
    hide Size, Total;
  }

  lemma PutCounted(s: State)
    requires Counted(s) && Staged(s) && s.bridge.Offering? && !s.bridge.stage.MakeRoom?
    ensures Counted(Next(s, BridgeOffer))
  {
    hide Size, Total;
    SizeOne(s.thread, s.bridge.x);
  }

  lemma WorkerDoneCounted(s: State, ok: bool)
    requires Counted(s)
    ensures Counted(Next(s, WorkerDone(ok)))
  {
    if s.worker.Handling? {
      TotalConcat(s.callbacks, SizeOf(s.worker.x.item));
      assert s.callbacks + [] == s.callbacks;
    }
  }

  lemma NextCounted(s: State, a: Action)
    requires Counted(s) && Staged(s)
    ensures Counted(Next(s, a))
  {
    match a
    case Frame(item, others) => FrameCounted(s, item, others);
    case BridgeOffer =>
      if s.bridge.Offering? {
        if s.bridge.stage.MakeRoom? {
          EvictCounted(s);
        } else {
          PutCounted(s);
        }
      }
    case WorkerDone(ok) => WorkerDoneCounted(s, ok);
    case _ =>
  }

  lemma NextStaged(s: State, a: Action)
    requires Staged(s)
    ensures Staged(Next(s, a))
  {}

  lemma NextEnded(s: State, a: Action)
    requires Staged(s) && Ended(s)
    ensures Ended(Next(s, a))
  {
    var s' := Next(s, a);
    if a.BridgeOffer? {
      OfferEnded(s);
    } else {
      assert s'.bridge.Over? ==> s.bridge.Over?;
      if a.WorkerGet? && s.thread != [] {
        assert s.taken + [s.thread[0]] + s.thread[1..] == s.taken + s.thread;
      }
      assert s'.taken + s'.thread == s.taken + s.thread;
    }
  }

  lemma OfferEnded(s: State)
    requires Staged(s) && Ended(s)
    ensures Ended(Next(s, BridgeOffer))
  {
    var s' := Next(s, BridgeOffer);
    if s.bridge.Offering? && s'.bridge.Over? {
      assert s'.thread == s.thread + [s.bridge.x] && s'.taken == s.taken;
      assert (s'.taken + s'.thread)[|s'.taken + s'.thread| - 1] == s.bridge.x;
    }
  }

  /** A subsequence of items in order is in order. */
  lemma Without(a: seq<Tagged>, b: seq<Tagged>, c: seq<Tagged>, accepted: seq<Item>)
    requires InOrder(a + b + c, accepted)
    ensures InOrder(a + c, accepted)
  {
    var whole, part := a + b + c, a + c;
    forall i | 0 <= i < |part| ensures part[i] == whole[if i < |a| then i else i + |b|] {}
  }

  /** A newly accepted item comes after all others. */
  lemma AtTheEnd(chain: seq<Tagged>, accepted: seq<Item>, item: Item)
    requires InOrder(chain, accepted)
    ensures InOrder(chain, accepted + [item])
    ensures InOrder(chain + [Tagged(|accepted|, item)], accepted + [item])
  {}

  lemma FrameInOrder(s: State, item: Item, others: nat)
    requires InOrder(Chain(s), s.accepted)
    ensures var s' := Next(s, Frame(item, others)); InOrder(Chain(s'), s'.accepted)
  {
    var s' := Next(s, Frame(item, others));
    if s'.accepted != s.accepted {
      var added := s'.accepted[|s.accepted|];
      assert s'.accepted == s.accepted + [added];
      AtTheEnd(Chain(s), s.accepted, added);
      assert Chain(s') == Chain(s) || Chain(s') == Chain(s) + [Tagged(|s.accepted|, added)];
    } else {
      assert Chain(s') == Chain(s);
    }
  }

  lemma CancelInOrder(s: State)
    requires InOrder(Chain(s), s.accepted) && s.bridge.Getting?
    ensures var s' := Next(s, BridgeCancel); InOrder(Chain(s'), s'.accepted)
  {
    var s' := Next(s, BridgeCancel);
    var kept := s.taken + s.thread;
    assert Chain(s) == kept + s.ctrl + [];
    Without(kept, s.ctrl, [], s.accepted);
    assert kept + [] == kept;
    AtTheEnd(kept, s.accepted, Close);
    assert Chain(s') == kept + [Tagged(|s.accepted|, Close)];
  }

  /** An offered item put on the thread queue keeps its place. */
  lemma PutInOrder(s: State)
    requires InOrder(Chain(s), s.accepted) && s.bridge.Offering? && Staged(s)
    requires var s' := Next(s, BridgeOffer); s'.thread == s.thread + [s.bridge.x]
    ensures var s' := Next(s, BridgeOffer); InOrder(Chain(s'), s'.accepted)
  {
    hide InOrder;
    var s' := Next(s, BridgeOffer);
    var rest := Waiting(s);
    var put := s.taken + s.thread + [s.bridge.x];
    assert s.taken + (s.thread + [s.bridge.x]) == put;
    if s'.bridge.Over? {
      assert Chain(s) == put + rest + [];
      Without(put, rest, [], s.accepted);
      assert Chain(s') == put + [];
    } else {
      assert Chain(s') == put + [] + rest == put + rest == Chain(s);
    }
  }

  /** An item dropped leaves the others in order. */
  lemma DropInOrder(s: State)
    requires InOrder(Chain(s), s.accepted) && s.bridge.Offering? && !s.cut
    requires Next(s, BridgeOffer).bridge.Getting? && Next(s, BridgeOffer).thread == s.thread
    ensures var s' := Next(s, BridgeOffer); InOrder(Chain(s'), s'.accepted)
  {
    hide InOrder;
    assert Chain(s) == (s.taken + s.thread) + [s.bridge.x] + s.ctrl;
    Without(s.taken + s.thread, [s.bridge.x], s.ctrl, s.accepted);
    assert Chain(Next(s, BridgeOffer)) == (s.taken + s.thread) + s.ctrl;
  }

  /** One taken out to make room does too. */
  lemma EvictInOrder(s: State)
    requires InOrder(Chain(s), s.accepted) && s.bridge.Offering? && s.bridge.stage.MakeRoom?
    ensures var s' := Next(s, BridgeOffer); InOrder(Chain(s'), s'.accepted)
  {
    hide InOrder;
    var s' := Next(s, BridgeOffer);
    if s.thread == [] {
      assert Chain(s') == Chain(s);
    } else {
      var after := s.thread[1..] + [s.bridge.x] + Waiting(s);
      assert s.thread == [s.thread[0]] + s.thread[1..];
      assert Chain(s) == s.taken + [s.thread[0]] + after;
      Without(s.taken, [s.thread[0]], after, s.accepted);
      assert Chain(s') == s.taken + after;
    }
  }

  lemma OfferInOrder(s: State)
    requires InOrder(Chain(s), s.accepted) && s.bridge.Offering? && Staged(s)
    ensures var s' := Next(s, BridgeOffer); InOrder(Chain(s'), s'.accepted)
  {
    hide InOrder;
    var s' := Next(s, BridgeOffer);
    if s.bridge.stage.MakeRoom? {
      EvictInOrder(s);
    } else if s'.thread == s.thread + [s.bridge.x] {
      PutInOrder(s);
    } else if s'.bridge.Getting? {
      DropInOrder(s);
    } else {
      assert Chain(s') == Chain(s);
    }
  }

  /** Every other step leaves the chain as it is. */
  lemma ChainKept(s: State, a: Action)
    requires Staged(s) && !a.Frame? && !a.BridgeOffer? && !(a.BridgeCancel? && s.bridge.Getting?)
    ensures Chain(Next(s, a)) == Chain(s) && Next(s, a).accepted == s.accepted
  {
    if a.BridgeGet? && s.bridge.Getting? && s.ctrl != [] {
      assert s.ctrl == [s.ctrl[0]] + s.ctrl[1..];
      assert s.taken + s.thread + [] + s.ctrl == s.taken + s.thread + [s.ctrl[0]] + s.ctrl[1..];
    } else if a.WorkerGet? && s.worker.Idle? && s.thread != [] {
      assert s.taken + [s.thread[0]] + s.thread[1..] == s.taken + s.thread;
    }
  }

  lemma NextInOrder(s: State, a: Action)
    requires InOrder(Chain(s), s.accepted) && Staged(s)
    ensures InOrder(Chain(Next(s, a)), Next(s, a).accepted)
  {
    hide InOrder, Chain, Offer, Accept, Admit;
    if a.Frame? {
      FrameInOrder(s, a.item, a.others);
    } else if a.BridgeOffer? {
      if s.bridge.Offering? {
        OfferInOrder(s);
      }
    } else if a.BridgeCancel? && s.bridge.Getting? {
      CancelInOrder(s);
    } else {
      ChainKept(s, a);
    }
  }

  function After(actions: seq<Action>): State
  {
    if actions == [] then START else Next(After(actions[..|actions| - 1]), actions[|actions| - 1])
  }

  lemma {:induction false} RunInvariant(actions: seq<Action>)
    ensures Invariant(After(actions))
    decreases |actions|
  {
    hide Next, Counted, Staged, Ended, InOrder, Chain;
    if actions == [] {
      StartInvariant();
    } else {
      var s, a := After(actions[..|actions| - 1]), actions[|actions| - 1];
      RunInvariant(actions[..|actions| - 1]);
      NextCounted(s, a);
      NextStaged(s, a);
      NextEnded(s, a);
      NextInOrder(s, a);
    }
  }

  lemma StartInvariant()
    ensures Invariant(START)
  {
    Untouched(START);
  }

  lemma Untouched(s: State)
    requires s.ctrl == [] && s.thread == [] && s.taken == [] && s.callbacks == []
    requires s.bridge.Unstarted? && s.worker.Idle? && !s.cut && s.counted == 0 && s.evicted == 0
    ensures Invariant(s)
  {
    assert Chain(s) == [];
  }

  /** In every interleaving the items the worker takes are, in order, a subsequence
      of the items accepted. */
  lemma WorkerTakesInOrder(actions: seq<Action>)
    ensures InOrder(After(actions).taken, After(actions).accepted)
  {
    hide Next, Counted, Staged, InOrder, After;
    RunInvariant(actions);
    TakenInOrder(After(actions));
  }

  lemma TakenInOrder(s: State)
    requires InOrder(Chain(s), s.accepted)
    ensures InOrder(s.taken, s.accepted)
  {
    hide InOrder;
    var rest := Chain(s)[|s.taken|..];
    assert Chain(s) == s.taken + rest + [];
    Without(s.taken, rest, [], s.accepted);
    assert s.taken + [] == s.taken;
  }

  /** In every interleaving the counted bytes are those held in both queues, the
      bridge and the worker, plus those drained but not yet reported, plus those
      evicted by a close: never less than what is held. */
  lemma CountedIsHeld(actions: seq<Action>)
    ensures var s := After(actions);
            s.counted == Held(s) + Total(s.callbacks) + s.evicted
  {
    RunInvariant(actions);
  }

  /** However the worker interleaves, a bridge that ended left a close for it: queued
      last, or already taken. */
  lemma CloseIsQueued(actions: seq<Action>)
    ensures var s := After(actions);
            s.bridge.Over? ==> var put := s.taken + s.thread; put != [] && put[|put| - 1].item.Close?
  {
    hide Counted, Staged, InOrder, Chain;
    RunInvariant(actions);
  }

  /** A frame for an open stream is queued exactly when its bytes fit and the control queue
      has room; what does not fit ends the stream. */
  lemma FrameTaken(s: State, item: Item, others: nat)
    ensures var s' := Next(s, Frame(item, others));
            var fits := item.Data? ==> Fits(s.counted, s.counted + others, item);
            && (!s.closing && fits && |s.ctrl| < QUEUE_SIZE <==>
                  s'.ctrl == s.ctrl + [Tagged(|s.accepted|, item)] && s'.accepted == s.accepted + [item]
                  && s'.closing == s.closing && !s.closing)
            && (s'.closing <==> s.closing || !fits)
            && (s'.closing && !s.closing ==>
                  s'.ctrl == s.ctrl + if |s.ctrl| < QUEUE_SIZE then [Tagged(|s.accepted|, Close)] else [])
  {
    AdmitExactly(s.closing, |s.ctrl|, QUEUE_SIZE, s.counted, s.counted + others, item);
    assert s.ctrl == s.ctrl + [] != s.ctrl + [Tagged(|s.accepted|, item)];
  }

  /** A cancelled bridge offers a close, with nothing else left to do; one that has not
      started never will. */
  lemma CancelOffersClose(actions: seq<Action>)
    ensures var s, s' := After(actions), After(actions + [BridgeCancel]);
            && (s.bridge.Getting? ==>
                  s'.cut && s'.bridge.Offering? && s'.bridge.x.item.Close? && s'.bridge.stage.Put?)
            && (s.bridge.Unstarted? ==> s'.cut && Next(s', BridgeStart) == s')
  {
    Last(actions, BridgeCancel);
  }

  /** An item offered while the thread queue has room goes on it; without room a close
      makes some, and anything else is dropped and taken off the count. */
  lemma OfferedIsPut(actions: seq<Action>)
    requires After(actions).bridge.Offering? && After(actions).bridge.stage.Put?
    ensures var s, s' := After(actions), After(actions + [BridgeOffer]);
            var x := s.bridge.x;
            if |s.thread| < QUEUE_SIZE then
              s'.thread == s.thread + [x] && s'.counted == s.counted && s'.bridge == AfterOffer(x)
            else
              && s'.thread == s.thread
              && if x.item.Close? then s'.bridge == Offering(x, MakeRoom)
                 else s'.bridge.Getting? && s'.counted == s.counted - SizeOf(x.item)
  {
    Last(actions, BridgeOffer);
    RunInvariant(actions);
  }

  /** What the worker does with an item: it ends for a close and for data it cannot write,
      and reports data of either kind as drained, and nothing else. */
  lemma WorkerDoneExactly(actions: seq<Action>, ok: bool)
    requires After(actions).worker.Handling?
    ensures var s, s' := After(actions), After(actions + [WorkerDone(ok)]);
            var item := s.worker.x.item;
            && (s'.worker.Exited? <==> item.Close? || (item.Data? && !ok)) && (s'.worker.Exited? || s'.worker.Idle?)
            && s'.callbacks == s.callbacks + if item.Data? then [|item.bytes|] else []
    ensures After(actions).worker.Handling? ==> After(actions + [WorkerStop]) == After(actions)
  {
    Last(actions, WorkerDone(ok));
    Last(actions, WorkerStop);
  }

  /** An idle worker that is stopped is gone. */
  lemma StoppedIsGone(actions: seq<Action>)
    requires After(actions).worker.Idle?
    ensures After(actions + [WorkerStop]).worker.Exited?
    ensures After(actions + [WorkerStop] + [WorkerGet]).taken == After(actions).taken
  {
    Last(actions, WorkerStop);
    Last(actions + [WorkerStop], WorkerGet);
  }

  ghost predicate Roomy(s: State, a: Action)
  {
    a.BridgeOffer? && s.bridge.Offering? ==> |s.thread| < QUEUE_SIZE
  }

  /** Until it is cut or over, everything accepted is somewhere on its way. */
  ghost predicate Complete(s: State)
  {
    !s.cut && !s.bridge.Over? ==> |Chain(s)| == |s.accepted| && (s.bridge.Offering? ==> s.bridge.stage.Put?)
  }

  lemma NextComplete(s: State, a: Action)
    requires Complete(s) && Roomy(s, a)
    ensures Complete(Next(s, a))
  {}

  lemma {:induction false} RunComplete(actions: seq<Action>)
    requires forall k | 0 <= k < |actions| :: Roomy(After(actions[..k]), actions[k])
    ensures Complete(After(actions))
    decreases |actions|
  {
    hide Next, Complete, Roomy;
    if actions == [] {
      StartComplete();
    } else {
      var n := |actions| - 1;
      forall k | 0 <= k < n ensures Roomy(After(actions[..n][..k]), actions[..n][k]) {
        assert actions[..n][..k] == actions[..k];
      }
      RunComplete(actions[..n]);
      NextComplete(After(actions[..n]), actions[n]);
    }
  }

  lemma StartComplete()
    ensures Complete(START)
  {
    assert Chain(START) == [];
  }

  lemma {:induction false} FullChain(chain: seq<Tagged>, accepted: seq<Item>)
    requires InOrder(chain, accepted) && |chain| == |accepted|
    ensures forall i | 0 <= i < |chain| :: chain[i] == Tagged(i, accepted[i])
  {
    forall i | 0 <= i < |chain| ensures chain[i].n == i {
      AtLeast(chain, accepted, i);
      AtMost(chain, accepted, i);
    }
  }

  lemma {:induction false} AtLeast(chain: seq<Tagged>, accepted: seq<Item>, i: nat)
    requires InOrder(chain, accepted) && i < |chain|
    ensures chain[i].n >= i
  {
    if i > 0 {
      AtLeast(chain, accepted, i - 1);
    }
  }

  lemma {:induction false} AtMost(chain: seq<Tagged>, accepted: seq<Item>, i: nat)
    requires InOrder(chain, accepted) && i < |chain| == |accepted|
    ensures chain[i].n <= i
    decreases |chain| - i
  {
    if i + 1 < |chain| {
      AtMost(chain, accepted, i + 1);
    }
  }

  /** As long as the worker keeps the thread queue from filling up nothing is lost: taken,
      on the thread queue, offered and still to come, in this order, are the frames
      accepted. */
  lemma NothingLost(actions: seq<Action>)
    requires forall k | 0 <= k < |actions| :: Roomy(After(actions[..k]), actions[k])
    ensures var s := After(actions);
            !s.cut && !s.bridge.Over? ==>
              && |Chain(s)| == |s.accepted|
              && forall i | 0 <= i < |Chain(s)| :: Chain(s)[i] == Tagged(i, s.accepted[i])
  {
    hide After, InOrder, Chain, Counted, Staged, Ended, Roomy;
    RunInvariant(actions);
    RunComplete(actions);
    var s := After(actions);
    if !s.cut && !s.bridge.Over? {
      FullChain(Chain(s), s.accepted);
    }
  }

  /** What is done next of what can be. */
  function Busy(s: State): Action
  {
    if s.callbacks != [] then Callback
    else if s.worker.Handling? then WorkerDone(true)
    else if s.worker.Idle? && s.thread != [] then WorkerGet
    else if s.bridge.Offering? then BridgeOffer
    else if s.bridge.Unstarted? then BridgeStart
    else BridgeGet
  }

  /** Nothing is left to do: all queues are empty, save what came after the end of the
      bridge or of the worker. */
  ghost predicate Settled(s: State)
  {
    && s.callbacks == [] && !s.worker.Handling? && (s.thread == [] || s.worker.Exited?)
    && !s.bridge.Offering? && (s.bridge.Unstarted? ==> s.cut) && (s.bridge.Getting? ==> s.ctrl == [])
  }

  function WorkLeft(s: State): nat
  {
    20 * |s.ctrl| + 5 * |s.thread| + |s.callbacks| + (if s.worker.Handling? then 3 else 0)
    + match s.bridge
      case Unstarted => 1
      case Offering(_, stage) => (match stage case Put => 12 case MakeRoom => 10 case PutAgain => 8)
      case _ => 0
  }

  lemma BusyMoves(s: State)
    requires !Settled(s)
    ensures WorkLeft(Next(s, Busy(s))) < WorkLeft(s) && Next(s, Busy(s)).accepted == s.accepted
  {}

  /** Whatever has happened, it can all be worked off; and then, with bridge and worker
      alive, nothing stays counted but what a close evicted. */
  lemma {:induction false} CanDrain(actions: seq<Action>) returns (more: seq<Action>)
    ensures var s := After(actions + more);
            && Settled(s) && s.accepted == After(actions).accepted
            && (s.bridge.Getting? && !s.worker.Exited? ==> s.counted == s.evicted)
    decreases WorkLeft(After(actions))
  {
    hide After, Next, Busy, Settled, WorkLeft;
    if Settled(After(actions)) {
      more := [];
      assert actions + [] == actions;
      if After(actions).bridge.Getting? && !After(actions).worker.Exited? {
        SettledCount(actions);
      }
    } else {
      var a := Busy(After(actions));
      Last(actions, a);
      BusyMoves(After(actions));
      var rest := CanDrain(actions + [a]);
      more := [a] + rest;
      assert actions + more == actions + [a] + rest;
    }
  }

  lemma SettledCount(actions: seq<Action>)
    requires Settled(After(actions)) && After(actions).bridge.Getting? && !After(actions).worker.Exited?
    ensures After(actions).counted == After(actions).evicted
  {
    hide After;
    CountedIsHeld(actions);
  }

  function StepsLeft(b: Bridge): nat
  {
    match b
    case Unstarted => 5
    case Getting => 4
    case Offering(_, stage) => (match stage case Put => 3 case MakeRoom => 2 case PutAgain => 1)
    case Over => 0
  }

  lemma CloseAdvances(s: State)
    requires Staged(s) && s.bridge.Offering? && s.bridge.x.item.Close?
    ensures var b, b' := s.bridge, Next(s, BridgeOffer).bridge;
            b'.Over? || (b'.Offering? && b'.x == b.x && StepsLeft(b') < StepsLeft(b))
  {}

  /** An offered close is queued within three steps of the bridge, whatever happens
      between them. */
  lemma CloseTakesThreeSteps(actions: seq<Action>, more: seq<Action>, more': seq<Action>)
    requires After(actions).bridge.Offering? && After(actions).bridge.x.item.Close?
    requires Elsewhere(more) && Elsewhere(more')
    ensures After(actions + [BridgeOffer] + more + [BridgeOffer] + more' + [BridgeOffer]).bridge.Over?
  {
    hide Next, Counted, Staged, Ended, InOrder, Chain;
    var first := actions + [BridgeOffer];
    var second := first + more + [BridgeOffer];
    OfferOnce(actions);
    BridgeWaits(first, more);
    OfferOnce(first + more);
    BridgeWaits(second, more');
    OfferOnce(second + more');
  }

  lemma OfferOnce(actions: seq<Action>)
    ensures var b, b' := After(actions).bridge, After(actions + [BridgeOffer]).bridge;
            && (b.Offering? && b.x.item.Close? ==>
                  b'.Over? || (b'.Offering? && b'.x == b.x && StepsLeft(b') < StepsLeft(b)))
            && (b.Over? ==> b'.Over?)
  {
    Last(actions, BridgeOffer);
    RunInvariant(actions);
    if After(actions).bridge.Offering? && After(actions).bridge.x.item.Close? {
      CloseAdvances(After(actions));
    }
  }

  /** Steps other than the bridge's own. */
  ghost predicate Elsewhere(actions: seq<Action>)
  {
    forall i | 0 <= i < |actions| :: !actions[i].BridgeOffer?
  }

  lemma Last(actions: seq<Action>, a: Action)
    ensures After(actions + [a]) == Next(After(actions), a)
  {
    assert (actions + [a])[..|actions|] == actions;
  }

  lemma OthersKeepBridge(s: State, a: Action)
    requires (s.bridge.Offering? || s.bridge.Over?) && !a.BridgeOffer?
    ensures Next(s, a).bridge == s.bridge
  {}

  /** While it offers, or once it is over, only its own steps move the bridge. */
  lemma {:induction false} BridgeWaits(actions: seq<Action>, more: seq<Action>)
    requires After(actions).bridge.Offering? || After(actions).bridge.Over?
    requires Elsewhere(more)
    ensures After(actions + more).bridge == After(actions).bridge
    decreases |more|
  {
    hide Next, After;
    if more == [] {
      assert actions + more == actions;
    } else {
      var init, a := more[..|more| - 1], more[|more| - 1];
      BridgeWaits(actions, init);
      assert actions + more == actions + init + [a];
      Last(actions + init, a);
      OthersKeepBridge(After(actions + init), a);
    }
  }

  /** Making room for a close throws away the oldest item of the full thread queue, and
      when that is data its bytes are no longer held but stay counted. */
  lemma EvictedStaysCounted(s: State)
    requires s.bridge.Offering? && s.bridge.stage.MakeRoom? && s.thread != []
    ensures var s' := Next(s, BridgeOffer);
            && s'.thread == s.thread[1..] && s'.counted == s.counted
            && Held(s') == Held(s) - SizeOf(s.thread[0].item)
            && s'.evicted == s.evicted + SizeOf(s.thread[0].item)
  {
    assert Size(s.thread) == SizeOf(s.thread[0].item) + Size(s.thread[1..]);
  }

  /** A bridge that has put `n` frames of one byte on the queue of an idle worker. */
  function Filling(n: nat): seq<Action>
  {
    if n == 0 then [BridgeStart] else Filling(n - 1) + [Frame(Data([0]), 0)] + [BridgeGet] + [BridgeOffer]
  }

  ghost predicate Filled(s: State, n: nat)
  {
    && s.bridge.Getting? && !s.cut && !s.closing && s.ctrl == [] && s.evicted == 0
    && |s.thread| == n && s.counted == n && (n > 0 ==> s.thread[0].item == Data([0]))
  }

  lemma PutOneByte(s: State, n: nat)
    requires Filled(s, n) && n < QUEUE_SIZE
    ensures Filled(Next(Next(Next(s, Frame(Data([0]), 0)), BridgeGet), BridgeOffer), n + 1)
  {
    var x := Tagged(|s.accepted|, Data([0]));
    FrameQueued(s, n);
    GetAndOffer(Next(s, Frame(Data([0]), 0)), x);
    hide Next;
  }

  lemma FrameQueued(s: State, n: nat)
    requires Filled(s, n) && n < QUEUE_SIZE
    ensures Next(s, Frame(Data([0]), 0))
         == s.(ctrl := [Tagged(|s.accepted|, Data([0]))], accepted := s.accepted + [Data([0])], counted := n + 1)
  {}

  lemma GetAndOffer(s: State, x: Tagged)
    requires s.bridge.Getting? && s.ctrl == [x] && x.item == Data([0]) && |s.thread| < QUEUE_SIZE
    ensures Next(Next(s, BridgeGet), BridgeOffer) == s.(ctrl := [], thread := s.thread + [x])
  {
    assert Next(s, BridgeGet) == s.(ctrl := [], bridge := Offering(x, Put));
  }

  lemma {:induction false} FillingFills(n: nat)
    requires n <= QUEUE_SIZE
    ensures Filled(After(Filling(n)), n)
    decreases n
  {
    hide Next, Filled;
    if n == 0 {
      FirstStep();
    } else {
      var before := Filling(n - 1);
      FillingFills(n - 1);
      Last(before, Frame(Data([0]), 0));
      Last(before + [Frame(Data([0]), 0)], BridgeGet);
      Last(before + [Frame(Data([0]), 0)] + [BridgeGet], BridgeOffer);
      PutOneByte(After(before), n - 1);
    }
  }

  lemma FirstStep()
    ensures Filled(After([BridgeStart]), 0)
  {
    assert [BridgeStart][..0] == [];
  }

  lemma CloseEvicts(s: State)
    requires Filled(s, QUEUE_SIZE)
    ensures Next(Next(Next(Next(s, Frame(Close, 0)), BridgeGet), BridgeOffer), BridgeOffer).evicted == 1
  {
    var x := Tagged(|s.accepted|, Close);
    var s1 := Next(s, Frame(Close, 0));
    assert s1.ctrl == [x];
    var s2 := Next(s1, BridgeGet);
    assert s2.bridge == Offering(x, Put) && s2.thread == s.thread;
    assert Next(s2, BridgeOffer).bridge == Offering(x, MakeRoom);
  }

  /** It does happen: behind 256 queued frames of one byte each, a close leaves a count
      that the worker can never drain. */
  lemma EvictionHappens()
    ensures After(Filling(QUEUE_SIZE) + [Frame(Close, 0)] + [BridgeGet] + [BridgeOffer] + [BridgeOffer]).evicted == 1
  {
    hide Next, Filled, Filling;
    var full := Filling(QUEUE_SIZE);
    FillingFills(QUEUE_SIZE);
    Last(full, Frame(Close, 0));
    Last(full + [Frame(Close, 0)], BridgeGet);
    Last(full + [Frame(Close, 0)] + [BridgeGet], BridgeOffer);
    Last(full + [Frame(Close, 0)] + [BridgeGet] + [BridgeOffer], BridgeOffer);
    CloseEvicts(After(full));
  }
}
