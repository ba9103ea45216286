/** A TCP tunnel, gateway to target: frames are queued by the dispatcher and written
    by one consumer task, in any interleaving (`_stream_ctrl`, `_consume_ctrl`). */
module TunnelInbound {
  import opened ByteStrings
  import opened Session

  /** Where the consumer task is suspended. */
  datatype Consumer = Waiting | Writing(bytes: Bytes) | Finished

  /** `received`, `accepted` and `handed` record, in order, the decoded frames that
      came in on this claim, the items put on its queue, and the bytes given to the
      target's transport. */
  datatype State = State(
    queue: seq<Item>, counted: nat, closing: bool, consumer: Consumer,
    received: seq<Item>, accepted: seq<Item>, handed: seq<Bytes>)

  const START := State([], 0, false, Waiting, [], [], [])

  /** One stretch between awaits. Frames come with what the session counts for its
      other streams; Take fails when the transport's write raises, Drained when its
      drain does; Cancel is the other direction ending first. */
  datatype Action = Frame(item: Item, others: nat) | Take(writeOk: bool) | WriteDone(ok: bool) | Cancel

  function Next(s: State, a: Action): State
  {
    match a
    case Frame(item, others) =>
      var seen := s.(received := s.received + [item]);
      (match Admit(s.closing, |s.queue|, 0, s.counted, s.counted + others, item)
       case Accepted => seen.(queue := s.queue + [item], accepted := s.accepted + [item],
             counted := s.counted + SizeOf(item))
       case Refused => seen.(queue := s.queue + [Close], accepted := s.accepted + [Close], closing := true)
       case _ => seen)
    case Take(writeOk) =>
      if !s.consumer.Waiting? || s.queue == [] then s
      else
        var rest := s.(queue := s.queue[1..]);
        (match s.queue[0]
         case Data(bytes) =>
           if writeOk then rest.(consumer := Writing(bytes), handed := s.handed + [bytes])
           else rest.(consumer := Finished, counted := s.counted - Drained(s.counted, |bytes|))
         case Close => rest.(consumer := Finished)
         case _ => rest)
    case WriteDone(ok) =>
      if s.consumer.Writing?
      then s.(consumer := if ok then Waiting else Finished, counted := s.counted - Drained(s.counted,
            |s.consumer.bytes|))
      else s
    case Cancel =>
      s.(consumer := Finished,
         counted := s.counted - if s.consumer.Writing? then Drained(s.counted, |s.consumer.bytes|) else 0)
  }

  /** The data among a list of items. */
  function DataOf(items: seq<Item>): seq<Bytes>
  {
    if items == [] then []
    else DataOf(items[..|items| - 1]) + if items[|items| - 1].Data? then [items[|items| - 1].bytes] else []
  }

  function Size(items: seq<Item>): nat
  {
    if items == [] then 0 else SizeOf(items[0]) + Size(items[1..])
  }

  lemma {:induction false} SizeConcat(a: seq<Item>, b: seq<Item>)
    ensures Size(a + b) == Size(a) + Size(b)
    decreases |a|
  {
    if a == [] {
      assert a + b == b;
    } else {
      assert (a + b)[1..] == a[1..] + b;
      SizeConcat(a[1..], b);
    }
  }

  lemma {:induction false} DataOfConcat(a: seq<Item>, b: seq<Item>)
    ensures DataOf(a + b) == DataOf(a) + DataOf(b)
    decreases |b|
  {
    if b == [] {
      assert a + b == a;
    } else {
      assert (a + b)[..|a + b| - 1] == a + b[..|b| - 1];
      DataOfConcat(a, b[..|b| - 1]);
    }
  }

  lemma DataOfOne(item: Item)
    ensures DataOf([item]) == if item.Data? then [item.bytes] else []
    ensures Size([item]) == SizeOf(item)
  {
    assert [item][..0] == [] && [item][1..] == [];
  }

  /** The count is the data queued plus the item being written. */
  ghost predicate Counted(s: State)
  {
    s.counted == Size(s.queue) + if s.consumer.Writing? then |s.consumer.bytes| else 0
  }

  /** The queue is what is left of the accepted items. Until a frame is refused for
      size every frame is accepted; from then on none, and the close stands last. */
  ghost predicate Ordered(s: State)
  {
    && |s.queue| <= |s.accepted| && s.queue == s.accepted[|s.accepted| - |s.queue|..]
    && (!s.closing ==> s.accepted == s.received)
    && (s.closing ==> exists k :: ClosedAt(s.accepted, s.received, k))
  }

  /** The frame received as number `k` was the one refused for size. */
  ghost predicate ClosedAt(accepted: seq<Item>, received: seq<Item>, k: int)
  {
    0 <= k < |received| && received[k].Data? && accepted == received[..k] + [Close]
  }

  /** The target was handed the data of the items taken, short of at most one item
      whose write raised. */
  ghost predicate Handed(s: State)
    requires |s.queue| <= |s.accepted|
  {
    var taken := DataOf(s.accepted[..|s.accepted| - |s.queue|]);
    && s.handed <= taken
    && (!s.consumer.Finished? ==> s.handed == taken)
  }

  ghost predicate Invariant(s: State)
  {
    Counted(s) && Ordered(s) && Handed(s)
  }

  lemma FrameCounted(s: State, item: Item, others: nat)
    requires Counted(s)
    ensures Counted(Next(s, Frame(item, others)))
  {
    SizeConcat(s.queue, [item]);
    SizeConcat(s.queue, [Close]);
    DataOfOne(item);
    DataOfOne(Close);
  }

  lemma ClosedStays(accepted: seq<Item>, received: seq<Item>, k: int, item: Item)
    requires ClosedAt(accepted, received, k)
    ensures ClosedAt(accepted, received + [item], k)
  {
    assert (received + [item])[..k] == received[..k];
  }

  lemma QueueGrows(s: State, item: Item)
    requires |s.queue| <= |s.accepted| && s.queue == s.accepted[|s.accepted| - |s.queue|..]
    ensures s.queue + [item] == (s.accepted + [item])[|s.accepted| - |s.queue|..]
  {}

  lemma FrameOrdered(s: State, item: Item, others: nat)
    requires Ordered(s)
    ensures Ordered(Next(s, Frame(item, others)))
  {
    hide ClosedAt;
    var s' := Next(s, Frame(item, others));
    QueueGrows(s, item);
    QueueGrows(s, Close);
    if s.closing {
      var k :| ClosedAt(s.accepted, s.received, k);
      ClosedStays(s.accepted, s.received, k, item);
      assert ClosedAt(s'.accepted, s'.received, k);
    } else if s'.closing {
      RefusedNow(s.received, item);
      assert ClosedAt(s'.accepted, s'.received, |s.received|);
    }
  }

  lemma RefusedNow(received: seq<Item>, item: Item)
    requires item.Data?
    ensures ClosedAt(received + [Close], received + [item], |received|)
  {
    assert (received + [item])[..|received|] == received;
  }

  lemma FrameHanded(s: State, item: Item, others: nat)
    requires Ordered(s) && Handed(s)
    ensures var s' := Next(s, Frame(item, others)); |s'.queue| <= |s'.accepted| && Handed(s')
  {
    var s' := Next(s, Frame(item, others));
    assert s'.accepted[..|s'.accepted| - |s'.queue|] == s.accepted[..|s.accepted| - |s.queue|];
  }

  lemma TakeCounted(s: State, writeOk: bool)
    requires Counted(s) && s.consumer.Waiting? && s.queue != []
    ensures Counted(Next(s, Take(writeOk)))
  {
    assert Size(s.queue) == SizeOf(s.queue[0]) + Size(s.queue[1..]);
  }

  lemma TakeOrdered(s: State, writeOk: bool)
    requires Ordered(s) && s.consumer.Waiting? && s.queue != []
    ensures Ordered(Next(s, Take(writeOk)))
  {
    hide ClosedAt;
    var n := |s.accepted| - |s.queue|;
    assert s.accepted[n + 1..] == s.accepted[n..][1..];
  }

  lemma TakeHanded(s: State, writeOk: bool)
    requires Ordered(s) && Handed(s) && s.consumer.Waiting? && s.queue != []
    ensures var s' := Next(s, Take(writeOk)); |s'.queue| <= |s'.accepted| && Handed(s')
  {
    hide DataOf;
    var n := |s.accepted| - |s.queue|;
    var head := s.queue[0];
    assert s.accepted[n] == head;
    assert s.accepted[..n + 1] == s.accepted[..n] + [head];
    DataOfConcat(s.accepted[..n], [head]);
    DataOfOne(head);
  }

  lemma NextKeepsInvariant(s: State, a: Action)
    requires Invariant(s)
    ensures Invariant(Next(s, a))
  {
    match a
    case Frame(item, others) =>
      FrameCounted(s, item, others);
      FrameOrdered(s, item, others);
      FrameHanded(s, item, others);
    case Take(writeOk) =>
      if s.consumer.Waiting? && s.queue != [] {
        TakeCounted(s, writeOk);
        TakeOrdered(s, writeOk);
        TakeHanded(s, writeOk);
      }
    case WriteDone(_) =>
    case Cancel =>
  }

  /** The state after a run of actions in any order. */
  function After(actions: seq<Action>): State
  {
    if actions == [] then START else Next(After(actions[..|actions| - 1]), actions[|actions| - 1])
  }

  lemma {:induction false} RunInvariant(actions: seq<Action>)
    ensures Invariant(After(actions))
    decreases |actions|
  {
    hide Invariant, Next;
    if actions == [] {
      StartInvariant();
    } else {
      RunInvariant(actions[..|actions| - 1]);
      NextKeepsInvariant(After(actions[..|actions| - 1]), actions[|actions| - 1]);
    }
  }

  lemma StartInvariant()
    ensures Invariant(START)
  {}

  lemma PrefixFlatten(a: seq<Bytes>, b: seq<Bytes>)
    requires a <= b
    ensures Flatten(a) <= Flatten(b)
  {
    assert b == a + b[|a|..];
    FlattenConcat(a, b[|a|..]);
  }

  lemma AcceptedWithinReceived(s: State)
    requires Ordered(s)
    ensures DataOf(s.accepted) <= DataOf(s.received)
  {
    hide DataOf;
    if s.closing {
      var k :| 0 <= k < |s.received| && s.received[k].Data? && s.accepted == s.received[..k] + [Close];
      DataOfConcat(s.received[..k], [Close]);
      DataOfOne(Close);
      assert s.received == s.received[..k] + s.received[k..];
      DataOfConcat(s.received[..k], s.received[k..]);
    }
  }

  lemma HandedWithinReceived(s: State)
    requires Ordered(s) && Handed(s)
    ensures s.handed <= DataOf(s.received)
  {
    hide DataOf;
    var n := |s.accepted| - |s.queue|;
    AcceptedWithinReceived(s);
    assert s.accepted == s.accepted[..n] + s.accepted[n..];
    DataOfConcat(s.accepted[..n], s.accepted[n..]);
  }

  /** In every interleaving, at every step: the counted bytes are exactly the data
      queued plus the item being written; the bytes handed to the target are a
      prefix of those received; and after a refusal the accepted items are those
      received before the refused frame, then a close. */
  lemma ExactAndInOrder(actions: seq<Action>)
    ensures var s := After(actions);
            && s.counted == Size(s.queue) + (if s.consumer.Writing? then |s.consumer.bytes| else 0)
            && Flatten(s.handed) <= Flatten(DataOf(s.received))
            && (if s.closing
                then exists k :: 0 <= k < |s.received| && s.received[k].Data? && s.accepted == s.received[..k] + [Close]
                else s.accepted == s.received)
  {
    hide After, Handed, DataOf, Flatten, Size;
    RunInvariant(actions);
    HandedWithinReceived(After(actions));
    PrefixFlatten(After(actions).handed, DataOf(After(actions).received));
  }

  /** Nothing is withheld: with the consumer waiting on an empty queue the target has been
      handed all that was accepted. */
  lemma AllHanded(actions: seq<Action>)
    ensures var s := After(actions);
            s.consumer.Waiting? && s.queue == [] ==> s.handed == DataOf(s.accepted)
  {
    hide DataOf;
    RunInvariant(actions);
    var s := After(actions);
    assert s.accepted[..|s.accepted|] == s.accepted;
  }

  /** The action of number `k` is the data frame refused: it came on an open stream and,
      on top of what was counted then, breaks a ceiling. */
  ghost predicate RefusedAt(actions: seq<Action>, k: int)
  {
    && 0 <= k < |actions| && actions[k].Frame? && actions[k].item.Data?
    && var s := After(actions[..k]);
       && !s.closing && !Fits(s.counted, s.counted + actions[k].others, actions[k].item)
  }

  /** A stream is closed for size exactly when some frame did not fit. */
  lemma {:induction false} ClosedForSize(actions: seq<Action>)
    ensures After(actions).closing <==> exists k :: RefusedAt(actions, k)
    decreases |actions|
  {
    hide Fits;
    if actions != [] {
      var n := |actions| - 1;
      var init, a := actions[..n], actions[n];
      ClosedForSize(init);
      forall k | 0 <= k < n ensures RefusedAt(actions, k) <==> RefusedAt(init, k) {
        assert actions[..k] == init[..k];
      }
      ClosesNow(After(init), a);
      assert RefusedAt(actions, n) <==>
               a.Frame? && a.item.Data? && !After(init).closing
               && !Fits(After(init).counted, After(init).counted + a.others, a.item);
      if After(init).closing {
        var k :| RefusedAt(init, k);
        assert RefusedAt(actions, k);
      }
    }
  }

  lemma ClosesNow(s: State, a: Action)
    ensures Next(s, a).closing <==>
              s.closing || (a.Frame? && a.item.Data? && !Fits(s.counted, s.counted + a.others, a.item))
  {
    if a.Frame? {
      AdmitExactly(s.closing, |s.queue|, 0, s.counted, s.counted + a.others, a.item);
    }
  }

  /** So a run whose counts never would exceed a ceiling accepts every frame. */
  lemma AllFit(actions: seq<Action>)
    requires forall k | 0 <= k < |actions| && actions[k].Frame? ::
               Fits(After(actions[..k]).counted, After(actions[..k]).counted + actions[k].others, actions[k].item)
    ensures After(actions).accepted == After(actions).received
  {
    hide After, Next, Fits;
    ClosedForSize(actions);
    RunInvariant(actions);
  }

  /** Why the consumer is over: it took a close, a write or a drain failed, or the other
      direction ended first. */
  ghost predicate Finishes(s: State, a: Action)
  {
    || a.Cancel?
    || (a == WriteDone(false) && s.consumer.Writing?)
    || (a.Take? && s.consumer.Waiting? && s.queue != []
        && (s.queue[0].Close? || (s.queue[0].Data? && !a.writeOk)))
  }

  ghost predicate FinishedAt(actions: seq<Action>, k: int)
  {
    0 <= k < |actions| && Finishes(After(actions[..k]), actions[k])
  }

  lemma {:induction false} FinishedFor(actions: seq<Action>)
    ensures After(actions).consumer.Finished? <==> exists k :: FinishedAt(actions, k)
    decreases |actions|
  {
    hide Finishes, Next;
    if actions != [] {
      var n := |actions| - 1;
      var init := actions[..n];
      FinishedFor(init);
      FinishesNow(After(init), actions[n]);
      forall k | 0 <= k < n ensures FinishedAt(actions, k) <==> FinishedAt(init, k) {
        assert actions[..k] == init[..k];
      }
      assert FinishedAt(actions, n) <==> Finishes(After(init), actions[n]);
      if After(init).consumer.Finished? {
        var k :| FinishedAt(init, k);
        assert FinishedAt(actions, k);
      }
    }
  }

  lemma FinishesNow(s: State, a: Action)
    ensures Next(s, a).consumer.Finished? <==> s.consumer.Finished? || Finishes(s, a)
  {}

  /** What a consumer whose writes work does next. */
  function Busy(s: State): Action
  {
    if s.consumer.Writing? then WriteDone(true) else Take(true)
  }

  /** It can always go on to the end: some way of going on hands the target everything
      accepted, or everything before the first close. */
  lemma {:induction false} CanFinish(actions: seq<Action>) returns (more: seq<Action>)
    requires !After(actions).consumer.Finished?
    ensures After(actions + more).accepted == After(actions).accepted && Delivered(After(actions + more))
    decreases WorkLeft(After(actions))
  {
    hide After, Next, Invariant, Delivered, TookClose, WorkLeft, Busy;
    var s := After(actions);
    RunInvariant(actions);
    if s.consumer.Waiting? && s.queue == [] {
      more := [];
      assert actions + [] == actions;
      NothingLeft(actions);
    } else {
      var a := Busy(s);
      Last(actions, a);
      BusyMoves(s);
      if Next(s, a).consumer.Finished? {
        more := [a];
      } else {
        var rest := CanFinish(actions + [a]);
        more := [a] + rest;
        assert actions + more == actions + [a] + rest;
      }
    }
  }

  lemma Last(actions: seq<Action>, a: Action)
    ensures After(actions + [a]) == Next(After(actions), a)
  {
    assert (actions + [a])[..|actions|] == actions;
  }

  lemma NothingLeft(actions: seq<Action>)
    requires After(actions).consumer.Waiting? && After(actions).queue == []
    ensures Delivered(After(actions))
  {
    hide After, DataOf;
    AllHanded(actions);
  }

  /** All the target is to get it has: everything accepted, or everything before a close. */
  ghost predicate Delivered(s: State)
  {
    if s.consumer.Finished? then TookClose(s) else s.queue == [] && s.handed == DataOf(s.accepted)
  }

  ghost predicate TookClose(s: State)
  {
    var n := |s.accepted| - |s.queue|;
    0 < n <= |s.accepted| && s.accepted[n - 1].Close? && s.handed == DataOf(s.accepted[..n])
  }

  function WorkLeft(s: State): nat
  {
    2 * |s.queue| + if s.consumer.Writing? then 1 else 0
  }

  lemma BusyMoves(s: State)
    requires Invariant(s) && !s.consumer.Finished? && (s.consumer.Writing? || s.queue != [])
    ensures var s' := Next(s, Busy(s));
            && WorkLeft(s') < WorkLeft(s) && s'.accepted == s.accepted
            && (s'.consumer.Finished? ==> Delivered(s'))
  {
    if s.consumer.Waiting? && s.queue[0].Close? {
      var n := |s.accepted| - |s.queue|;
      assert s.accepted[n] == s.queue[0];
      assert s.accepted[..n + 1] == s.accepted[..n] + [Close];
      DataOfConcat(s.accepted[..n], [Close]);
      DataOfOne(Close);
    }
  }

  /** Once a frame is refused for size nothing more is ever accepted, and the close
      queued for it stands behind all accepted data. */
  lemma {:induction false} ClosedForGood(before: seq<Action>, after: seq<Action>)
    requires After(before).closing
    ensures After(before + after).closing
    ensures After(before + after).accepted == After(before).accepted
    ensures var accepted := After(before).accepted; accepted != [] && accepted[|accepted| - 1] == Close
    decreases |after|
  {
    RunInvariant(before);
    if after == [] {
      assert before + after == before;
    } else {
      var init := after[..|after| - 1];
      ClosedForGood(before, init);
      assert (before + after)[..|before + after| - 1] == before + init;
    }
  }
}
