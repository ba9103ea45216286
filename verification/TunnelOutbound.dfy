/** A TCP tunnel, target to gateway: one reader task relays chunks, held back while
    the gateway has paused the stream, and the handler opens and closes the stream
    (`_read_target_to_ws`, `_handle_tcp_tunnel_session`). */
module TunnelOutbound {
  import opened ByteStrings

  const MAX_CHUNK: nat := 65536

  /** Where the reader task is: about to wait on the resume event, suspended in that
      wait (woken once a resume has resolved it, whatever comes next), reading, in
      `ws.send`, or over. A chunk is held between the read and the send. */
  datatype Reader =
    | Gate(chunk: Bytes)
    | Blocked(chunk: Bytes, woken: bool)
    | Reading
    | Sending(chunk: Bytes)
    | Over(chunk: Bytes)

  datatype Message = OpenError | OpenOk | StreamData(bytes: Bytes) | StreamClosed

  datatype Phase = Opening | Relaying | Closing | Ended

  /** `produced` is what the target sent so far; `sends` counts the chunks given to
      `ws.send` since the stream was last paused or resumed; `latched` says whether
      that pause found a chunk already woken. A pause while paused changes nothing. */
  datatype State = State(
    phase: Phase, reader: Reader, notPaused: bool,
    produced: Bytes, messages: seq<Message>, sends: nat, latched: bool)

  const START := State(Opening, Gate([]), true, [], [], 0, false)

  datatype Action =
    | OpenFails(sent: bool)
    | OpenWorks(sent: bool)
    | PauseFrame
    | ResumeFrame
    | Wait
    | Wake
    | ReadSome(bytes: Bytes)
    | ReadEnds
    | SendDone(sent: bool)
    | ConsumerEnds(sent: bool)
    | Teardown(sent: bool)

  /** Past the resume event: read the next chunk, or send the one held. */
  function PassGate(s: State, chunk: Bytes): State
  {
    if chunk == [] then s.(reader := Reading)
    else s.(reader := Sending(chunk), sends := s.sends + 1)
  }

  function HeldBy(reader: Reader): Bytes
  {
    if reader.Reading? then [] else reader.chunk
  }

  function Stop(s: State): State
  {
    s.(phase := Closing, reader := Over(HeldBy(s.reader)))
  }

  function Sent(s: State): State
    requires s.reader.Sending?
  {
    s.(reader := Gate([]), messages := s.messages + [StreamData(s.reader.chunk)])
  }

  function Next(s: State, a: Action): State
  {
    match a
    case OpenFails(sent) =>
      if s.phase.Opening? then s.(phase := Ended, messages := if sent then [OpenError] else []) else s
    case OpenWorks(sent) =>
      if !s.phase.Opening? then s
      else if sent then s.(phase := Relaying, messages := [OpenOk])
      else s.(phase := Ended)
    case PauseFrame =>
      if s.phase.Relaying? && s.notPaused
      then s.(notPaused := false, sends := 0, latched := s.reader.Blocked? && s.reader.woken && s.reader.chunk != [])
      else s
    case ResumeFrame =>
      if s.phase.Relaying?
      then s.(notPaused := true, sends := 0, reader := if s.reader.Blocked? then s.reader.(woken := true) else s.reader)
      else s
    case Wait =>
      if s.phase.Relaying? && s.reader.Gate?
      then if s.notPaused then PassGate(s, s.reader.chunk) else s.(reader := Blocked(s.reader.chunk, false))
      else s
    case Wake =>
      if s.phase.Relaying? && s.reader.Blocked? && s.reader.woken then PassGate(s, s.reader.chunk) else s
    case ReadSome(bytes) =>
      if s.phase.Relaying? && s.reader.Reading? && 0 < |bytes| <= MAX_CHUNK
      then s.(reader := Gate(bytes), produced := s.produced + bytes)
      else s
    case ReadEnds =>
      if s.phase.Relaying? && s.reader.Reading? then Stop(s) else s
    case SendDone(sent) =>
      if !(s.phase.Relaying? && s.reader.Sending?) then s else if sent then Sent(s) else Stop(s)
    case ConsumerEnds(sent) =>
      if !s.phase.Relaying? then s else if sent && s.reader.Sending? then Stop(Sent(s)) else Stop(s)
    case Teardown(sent) =>
      if s.phase.Closing? then s.(phase := Ended, messages := s.messages + if sent then [StreamClosed] else []) else s
  }

  function SentBytes(messages: seq<Message>): Bytes
  {
    if messages == [] then []
    else
      var last := messages[|messages| - 1];
      SentBytes(messages[..|messages| - 1]) + if last.StreamData? then last.bytes else []
  }

  lemma SentMore(messages: seq<Message>, m: Message)
    ensures SentBytes(messages + [m]) == SentBytes(messages) + if m.StreamData? then m.bytes else []
  {
    assert (messages + [m])[..|messages|] == messages;
  }

  /** An ok, then data only. */
  predicate OkThenData(messages: seq<Message>)
  {
    && messages != [] && messages[0].OpenOk?
    && forall i | 0 < i < |messages| :: messages[i].StreamData?
  }

  /** Sent plus held is what the target produced, and at most one chunk is held. */
  ghost predicate Conserved(s: State)
  {
    s.produced == SentBytes(s.messages) + HeldBy(s.reader) && |HeldBy(s.reader)| <= MAX_CHUNK
  }

  /** While paused, at most one chunk is or can still be sent, and one only if the
      pause found it already woken. */
  ghost predicate Throttled(s: State)
  {
    !s.notPaused && s.phase.Relaying? ==>
      && (s.reader.Blocked? && s.reader.woken && s.reader.chunk != [] ==> s.sends == 0 && s.latched)
      && s.sends <= 1
      && (s.sends == 1 ==> s.latched)
  }

  ghost predicate WellSpoken(s: State)
  {
    match s.phase
    case Opening => s.messages == []
    case Relaying => OkThenData(s.messages)
    case Closing => OkThenData(s.messages)
    case Ended =>
      s.messages == [] || s.messages == [OpenError] || OkThenData(s.messages)
      || (s.messages[|s.messages| - 1].StreamClosed? && OkThenData(s.messages[..|s.messages| - 1]))
  }

  /** A reader held back while not paused has been woken, and one told to send has
      something to send. */
  ghost predicate Roused(s: State)
  {
    && (s.notPaused && s.reader.Blocked? ==> s.reader.woken)
    && (s.reader.Sending? ==> s.reader.chunk != [])
    && (s.phase.Relaying? ==> !s.reader.Over?)
  }

  ghost predicate Invariant(s: State)
  {
    Conserved(s) && Throttled(s) && WellSpoken(s) && Roused(s) && (s.phase.Opening? ==> s == START)
  }

  lemma SentConserves(s: State)
    requires Conserved(s) && s.reader.Sending?
    ensures Conserved(Sent(s))
  {
    SentMore(s.messages, StreamData(s.reader.chunk));
    hide SentBytes;
    assert SentBytes(s.messages) + s.reader.chunk + [] == SentBytes(s.messages) + s.reader.chunk;
  }

  lemma TeardownConserves(s: State, sent: bool)
    requires Conserved(s)
    ensures Conserved(Next(s, Teardown(sent)))
  {
    SentMore(s.messages, StreamClosed);
    hide SentBytes;
    assert s.messages + [] == s.messages && SentBytes(s.messages) + [] == SentBytes(s.messages);
  }

  lemma OpeningConserves(s: State, a: Action)
    requires Conserved(s) && (s.phase.Opening? ==> s == START) && (a.OpenFails? || a.OpenWorks?)
    ensures Conserved(Next(s, a))
  {
    NoneSent();
    hide SentBytes;
  }

  lemma ReadConserves(s: State, bytes: Bytes)
    requires Conserved(s)
    ensures Conserved(Next(s, ReadSome(bytes)))
  {
    hide SentBytes;
    assert SentBytes(s.messages) + [] == SentBytes(s.messages);
  }

  lemma StopConserves(s: State)
    requires Conserved(s)
    ensures Conserved(Stop(s)) && (s.reader.Sending? ==> Conserved(Stop(Sent(s))))
  {
    if s.reader.Sending? {
      SentConserves(s);
    }
    hide SentBytes, Sent;
  }

  lemma RelayConserves(s: State, a: Action)
    requires Conserved(s) && (a.SendDone? || a.ConsumerEnds?)
    ensures Conserved(Next(s, a))
  {
    hide Conserved, Sent, Stop;
    StopConserves(s);
    if s.reader.Sending? {
      SentConserves(s);
    }
  }

  /** Every other step moves no bytes. */
  lemma NothingMoves(s: State, a: Action)
    requires a.PauseFrame? || a.ResumeFrame? || a.Wait? || a.Wake? || a.ReadEnds?
    ensures var s' := Next(s, a);
            s'.produced == s.produced && s'.messages == s.messages && HeldBy(s'.reader) == HeldBy(s.reader)
  {}

  lemma NextConserves(s: State, a: Action)
    requires Conserved(s) && (s.phase.Opening? ==> s == START)
    ensures Conserved(Next(s, a))
  {
    hide Next, SentBytes, HeldBy;
    match a
    case OpenFails(_) => OpeningConserves(s, a);
    case OpenWorks(_) => OpeningConserves(s, a);
    case ReadSome(bytes) => ReadConserves(s, bytes);
    case SendDone(_) => RelayConserves(s, a);
    case ConsumerEnds(_) => RelayConserves(s, a);
    case Teardown(sent) => TeardownConserves(s, sent);
    case _ => NothingMoves(s, a);
  }

  lemma NextThrottles(s: State, a: Action)
    requires Throttled(s) && (s.phase.Opening? ==> s == START)
    ensures Throttled(Next(s, a))
  {}

  lemma NextSpeaksWell(s: State, a: Action)
    requires WellSpoken(s)
    ensures WellSpoken(Next(s, a))
  {
    if a.Teardown? && s.phase.Closing? {
      assert (s.messages + [StreamClosed])[..|s.messages|] == s.messages;
      assert s.messages + [] == s.messages;
    }
  }

  lemma NextRouses(s: State, a: Action)
    requires Roused(s) && (s.phase.Opening? ==> s == START)
    ensures Roused(Next(s, a))
  {}

  lemma OpeningOnlyAtStart(s: State, a: Action)
    requires s.phase.Opening? ==> s == START
    ensures Next(s, a).phase.Opening? ==> Next(s, a) == START
  {}

  lemma NextKeepsInvariant(s: State, a: Action)
    requires Invariant(s)
    ensures Invariant(Next(s, a))
  {
    hide Next, Conserved, Throttled, WellSpoken, Roused;
    NextConserves(s, a);
    NextThrottles(s, a);
    NextSpeaksWell(s, a);
    NextRouses(s, a);
    OpeningOnlyAtStart(s, a);
  }

  lemma NoneSent()
    ensures SentBytes([]) == [] && SentBytes([OpenError]) == [] && SentBytes([OpenOk]) == []
  {
    SentMore([], OpenError);
    SentMore([], OpenOk);
    assert [] + [OpenError] == [OpenError] && [] + [OpenOk] == [OpenOk];
  }

  function After(actions: seq<Action>): State
  {
    if actions == [] then START else Next(After(actions[..|actions| - 1]), actions[|actions| - 1])
  }

  lemma {:induction false} RunInvariant(actions: seq<Action>)
    ensures Invariant(After(actions))
    decreases |actions|
  {
    hide Invariant, Next;
    if actions == [] {
      StartInvariant();
    } else {
      RunInvariant(actions[..|actions| - 1]);
      NextKeepsInvariant(After(actions[..|actions| - 1]), actions[|actions| - 1]);
    }
  }

  lemma StartInvariant()
    ensures Invariant(START)
  {}

  /** In every interleaving, at every step: the data sent plus the one held chunk is
      what the target produced, so what was sent is a prefix of it. */
  lemma NothingLostInOrder(actions: seq<Action>)
    ensures var s := After(actions);
            && s.produced == SentBytes(s.messages) + HeldBy(s.reader)
            && |HeldBy(s.reader)| <= MAX_CHUNK
            && SentBytes(s.messages) <= s.produced
  {
    RunInvariant(actions);
  }

  /** From a processed pause to the next resume at most one more chunk is given to
      `ws.send`, and one only if a resume just before had already woken it. */
  lemma PauseHolds(actions: seq<Action>)
    ensures var s := After(actions);
            s.phase.Relaying? && !s.notPaused ==> s.sends <= 1 && (s.sends == 1 ==> s.latched)
  {
    RunInvariant(actions);
  }

  /** The gateway hears one error; or an ok, then data, then at most one close. */
  lemma MessagesInOrder(actions: seq<Action>)
    ensures var m := After(actions).messages;
            m == [] || m == [OpenError] || OkThenData(m)
            || (m[|m| - 1].StreamClosed? && OkThenData(m[..|m| - 1]))
  {
    RunInvariant(actions);
  }

  /** An opening is answered: by an error if it failed, by an ok if it worked. */
  lemma OpeningAnswered(sent: bool)
    ensures After([OpenFails(sent)]).messages == if sent then [OpenError] else []
    ensures After([OpenWorks(sent)]).messages == if sent then [OpenOk] else []
    ensures After([OpenFails(sent)]).phase.Ended?
    ensures After([OpenWorks(sent)]).phase == if sent then Relaying else Ended
  {
    assert [OpenFails(sent)][..0] == [] && [OpenWorks(sent)][..0] == [];
  }

  /** A relay goes on until the target has nothing more, a send fails, or the other
      direction is over; a chunk sent is no reason to stop. */
  lemma RelayEndsFor(actions: seq<Action>, a: Action)
    requires After(actions).phase.Relaying?
    ensures var reader := After(actions).reader;
            After(actions + [a]).phase.Relaying? <==>
              && !(a.ReadEnds? && reader.Reading?)
              && !(a == SendDone(false) && reader.Sending?)
              && !a.ConsumerEnds?
    ensures a == SendDone(true) && After(actions).reader.Sending? ==>
              After(actions + [a]).reader == Gate([])
  {
    Last(actions, a);
  }

  lemma Last(actions: seq<Action>, a: Action)
    ensures After(actions + [a]) == Next(After(actions), a)
  {
    assert (actions + [a])[..|actions|] == actions;
  }

  /** What a reader does next, as long as its sends work. */
  function Onward(s: State): Action
  {
    match s.reader
    case Gate(_) => Wait
    case Blocked(_, _) => Wake
    case _ => SendDone(true)
  }

  /** While the stream is not paused nothing keeps the reader: within two steps of its own
      a chunk it holds is sent, and one that holds none is reading again. */
  lemma HeldIsSent(actions: seq<Action>)
    requires After(actions).phase.Relaying? && After(actions).notPaused
    requires !After(actions).reader.Reading?
    ensures var s := After(actions);
            var s1 := Next(s, Onward(s));
            var s2 := if s1.reader.Sending? then Next(s1, Onward(s1)) else s1;
            if HeldBy(s.reader) == [] then s1 == s.(reader := Reading)
            else
              && (if s.reader.Sending? then s1 else s2).messages == s.messages + [StreamData(HeldBy(s.reader))]
              && (if s.reader.Sending? then s1 else s2).reader == Gate([])
  {
    RunInvariant(actions);
  }

  /** The end is told: once the relay is over, a teardown whose send goes through says so
      last. */
  lemma CloseIsTold(actions: seq<Action>, sent: bool)
    requires After(actions).phase.Closing?
    ensures var s' := After(actions + [Teardown(sent)]);
            s'.phase.Ended? && s'.messages == After(actions).messages + if sent then [StreamClosed] else []
  {
    Last(actions, Teardown(sent));
  }

  /** A pause holds the reader back at its next gate, and a resume lets it go. */
  lemma PauseBlocks(actions: seq<Action>)
    requires After(actions).phase.Relaying? && After(actions).reader.Gate?
    ensures var s := After(actions);
            Next(Next(s, PauseFrame), Wait).reader == Blocked(s.reader.chunk, false)
    ensures After(actions).notPaused || Next(After(actions), ResumeFrame).notPaused
  {}

  /** The one send after a pause can happen: a resume wakes the held chunk, and the
      pause behind it comes too late. */
  lemma LatchedSendHappens()
    ensures var s := After([OpenWorks(true), Wait, ReadSome([0]), PauseFrame, Wait, ResumeFrame, PauseFrame, Wake]);
            !s.notPaused && s.sends == 1
  {
    var a := [OpenWorks(true), Wait, ReadSome([0]), PauseFrame, Wait, ResumeFrame, PauseFrame, Wake];
    assert After(a[..0]) == START;
    assert a[..1][..0] == a[..0] && After(a[..1]) == Next(START, a[0]);
    assert a[..2][..1] == a[..1] && After(a[..2]).reader == Reading;
    assert a[..3][..2] == a[..2] && After(a[..3]).reader == Gate([0]);
    assert a[..4][..3] == a[..3] && !After(a[..4]).notPaused;
    assert a[..5][..4] == a[..4] && After(a[..5]).reader == Blocked([0], false);
    assert a[..6][..5] == a[..5] && After(a[..6]).reader == Blocked([0], true);
    assert a[..7][..6] == a[..6] && !After(a[..7]).notPaused;
    assert a[..8][..7] == a[..7] && a[..8] == a;
  }
}
