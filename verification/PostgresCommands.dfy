/** One Postgres mutation as the agent runs it: stop, rename, run, wait, then commit
    or roll back, against a deadline (`PostgresCommands`). */
module PostgresCommands {
  import opened Text
  import opened Docker
  import opened PostgresProtocol
  import opened PgCommand

  const COMMIT_DEADLINE := 300.0
  const FINALIZE_RESERVE := 65.0
  const READY_TIMEOUT := 120.0

  datatype Error = Busy | DeadlineExceeded | StopFailed | RenameFailed | CreateFailed | NotReady | NoMargin
                 | ImageUnavailable | ReloadFailed | RollbackFailed

  datatype PitrStatus = AlreadyEnabled | Enabled
  datatype BootStatus = AlreadyRunning | Restarted | Started

  /** `tick` is when the thread got there. */
  datatype Moment = Moment(daemon: Daemon, at: Point, tick: nat)

  /** A thread's own course through the protocol. */
  ghost predicate Course(trace: seq<Moment>)
  {
    && trace != []
    && forall i | 0 < i < |trace| :: Step(trace[i - 1].daemon, trace[i - 1].at, trace[i].daemon, trace[i].at)
  }

  lemma {:induction false} CourseKeepsSafe(trace: seq<Moment>)
    requires Course(trace) && Safe(trace[0].daemon) && Holds(trace[0].daemon, trace[0].at)
    ensures Safe(trace[|trace| - 1].daemon) && Holds(trace[|trace| - 1].daemon, trace[|trace| - 1].at)
    decreases |trace|
  {
    hide Step, Safe, Holds;
    if |trace| > 1 {
      var init := trace[..|trace| - 1];
      assert Course(init);
      CourseKeepsSafe(init);
      var a, b := trace[|trace| - 2], trace[|trace| - 1];
      StepKeepsSafe(a.daemon, a.at, b.daemon, b.at);
    }
  }

  /** The container `run` asks for. */
  function Wanted(image: string, walArchiving: bool, extra: seq<string>): Container
  {
    Container(PG_NAME, true, ContainerCommand(image, walArchiving, extra),
              {PG_DATA, "_pg_scratch"} + if walArchiving then {"_pg_wal_archive"} else {})
  }

  /** The named container runs on the data directory, its WAL archive mounted exactly when
      it is to archive. */
  ghost predicate UpWith(d: Daemon, walArchiving: bool)
  {
    exists id :: Named(d, id) && MountsFor(d[id], walArchiving)
  }

  ghost predicate MountsFor(c: Container, walArchiving: bool)
  {
    && c.running && PG_DATA in c.mounts && "_pg_scratch" in c.mounts
    && ("_pg_wal_archive" in c.mounts <==> walArchiving)
  }

  lemma WantedIsUp(d: Daemon, id: nat, image: string, walArchiving: bool, extra: seq<string>)
    requires id in d && d[id] == Wanted(image, walArchiving, extra)
    ensures UpWith(d, walArchiving)
  {
    hide ContainerCommand;
    assert |"_pg_wal_archive"| != |"_pg_scratch"| && |"_pg_wal_archive"| != |PG_DATA|;
    assert Named(d, id) && MountsFor(d[id], walArchiving);
  }

  /** The replacement runs; the old container is gone, or stopped under another name. */
  ghost predicate Replaced(d: Daemon, id: nat, wanted: Container, d': Daemon)
    requires id in d
  {
    exists new_, shortId ::
      && new_ !in d
      && (d' == (d - {id})[new_ := wanted]
          || d' == d[id := d[id].(name := RollbackName(shortId), running := false)][new_ := wanted])
  }

  /** The daemon with the existing container stopped under its rollback name. */
  function Aside(d: Daemon, id: nat, shortId: string): Daemon
    requires id in d
  {
    d[id := d[id].(name := RollbackName(shortId), running := false)]
  }

  lemma SameNames(d: Daemon, id: nat, running: bool, name: string)
    ensures NameFree(WithRunning(d, id, running), name) <==> NameFree(d, name)
  {
    var d' := WithRunning(d, id, running);
    assert forall i | i in d :: i in d' && d'[i].name == d[i].name;
    assert forall i | i in d' :: i in d;
  }

  lemma AsideNameFree(d: Daemon, id: nat, shortId: string)
    requires UniqueNames(d) && Named(d, id)
    ensures NameFree(Aside(d, id, shortId), PG_NAME)
  {
    RollbackNameDiffers(shortId);
  }

  lemma AsideKeys(d: Daemon, id: nat, shortId: string, new_: nat)
    requires id in d
    ensures new_ in Aside(d, id, shortId) <==> new_ in d
  {}

  /** With the existing container aside, only a partial replacement can hold its name. */
  lemma AsideFree(d0: Daemon, id: nat, shortId: string, new_: nat, wanted: Container, d: Daemon)
    requires UniqueNames(d0) && Named(d0, id) && new_ !in d0 && wanted.name == PG_NAME
    requires var aside := Aside(d0, id, shortId);
             d == aside || d == aside[new_ := wanted] || d == aside[new_ := wanted.(running := false)]
    ensures forall p | Named(d, p) :: p == new_
    ensures NameFree(d, PG_NAME) <==> d == Aside(d0, id, shortId)
  {
    RollbackNameDiffers(shortId);
    var aside := Aside(d0, id, shortId);
    assert NameFree(aside, PG_NAME);
    if d != aside {
      assert new_ in d && d[new_].name == PG_NAME;
    }
  }

  lemma OnlyPartial(aside: Daemon, new_: nat, c: Container, d: Daemon, partial: nat)
    requires partial == new_ && new_ !in aside
    requires d == aside || d == aside[new_ := c]
    ensures d - {partial} == aside
  {}

  lemma CommitReplaces(d0: Daemon, id: nat, shortId: string, new_: nat, wanted: Container, d: Daemon, ok: bool)
    requires id in d0 && new_ !in d0
    requires RemoveCall(Aside(d0, id, shortId)[new_ := wanted], id, d, ok)
    ensures Replaced(d0, id, wanted, d)
  {
    assert Aside(d0, id, shortId)[new_ := wanted] - {id} == (d0 - {id})[new_ := wanted];
  }

  /** A mutation waited from before this moment until after it, with this daemon, and
      only then went on to remove the old container. */
  ghost predicate Waited(before: Moment, after: Moment, id: nat, d: Daemon, at: nat)
  {
    && before.at.Wait? && before.at.id == id && before.daemon == d
    && after.at == Commit(id) && after.daemon == d
    && before.tick <= at < after.tick
  }

  /** A mutation that is over ended that way, with the old container of `d0` standing
      by under its rollback name while it waited. */
  ghost predicate AnsweredAside(trace: seq<Moment>, d0: Daemon, id: nat, new_: nat, wanted: Container, at: nat)
  {
    && id in d0 && |trace| >= 3
    && exists shortId :: Waited(trace[|trace| - 3], trace[|trace| - 2], id, Aside(d0, id, shortId)[new_ := wanted], at)
  }

  lemma StoodBy(trace: seq<Moment>, d0: Daemon, id: nat, shortId: string, new_: nat, wanted: Container, at: nat)
    requires id in d0 && |trace| >= 3
    requires Waited(trace[|trace| - 3], trace[|trace| - 2], id, Aside(d0, id, shortId)[new_ := wanted], at)
    ensures AnsweredAside(trace, d0, id, new_, wanted, at)
  {}

  class PostgresCommands {
    const oracle: nat -> Event
    /** Which containers would answer `pg_isready` at each moment. */
    const answers: (nat, nat) -> bool
    const clock: Clock
    const shortIds: nat -> string
    var daemon: Daemon
    /** The present moment: each call takes one, a sleep as many as it needs. */
    var tick: nat
    var locked: bool
    /** A failed call other than `run` took effect. */
    ghost var halfDone: bool
    /** A call made to undo a failed mutation failed. */
    ghost var undoFailed: bool
    /** The course of the mutation under way. */
    ghost var trace: seq<Moment>

    constructor (oracle: nat -> Event, answers: (nat, nat) -> bool, clock: Clock, shortIds: nat -> string,
          daemon: Daemon)
      ensures this.daemon == daemon && !locked && !halfDone && !undoFailed
    {
      this.oracle, this.answers, this.clock, this.shortIds, this.daemon := oracle, answers, clock, shortIds, daemon;
      tick, locked := 0, false;
      halfDone, undoFailed, trace := false, false, [];
    }

    /** The call made at this moment fails. */
    ghost predicate Fails(k: nat)
    {
      !oracle(k).outcome.Works?
    }

    ghost predicate AllWork(from: nat, until: nat)
    {
      forall k | from <= k < until :: !Fails(k)
    }

    method NextEvent() returns (e: Event)
      modifies this`tick
      ensures tick == old(tick) + 1 && e == oracle(old(tick))
    {
      e := oracle(tick);
      tick := tick + 1;
    }

    /** A call that only asks. */
    method Ask() returns (ok: bool)
      modifies this`tick
      ensures tick == old(tick) + 1 && ok == !Fails(old(tick))
    {
      var e := NextEvent();
      ok := e.outcome.Works?;
    }

    /** `time.monotonic()` */
    method Time() returns (t: real)
      modifies this`tick
      ensures tick == old(tick) + 1 && t == clock(tick)
    {
      tick := tick + 1;
      t := clock(tick);
    }

    method Sleep()
      modifies this`tick
      ensures Wakes(clock, old(tick), tick)
    {
      ghost var start := tick;
      ghost var later := SecondPasses(clock, tick);
      var until := clock(tick) + 1.0;
      tick := tick + 1;
      while clock(tick) < until
        invariant start < tick <= later
        invariant forall k | start < k < tick :: clock(k) < until
        decreases later - tick
      {
        tick := tick + 1;
      }
    }

    method Switch(id: nat, running: bool, ghost undo: bool) returns (ok: bool)
      modifies this`daemon, this`tick, this`halfDone, this`undoFailed
      ensures SwitchCall(old(daemon), id, running, daemon, ok) && tick == old(tick) + 1
      ensures ok <==> !Fails(old(tick)) && id in old(daemon)
      ensures halfDone == (old(halfDone) || (!ok && daemon != old(daemon)))
      ensures undoFailed == (old(undoFailed) || (undo && !ok))
    {
      var e := NextEvent();
      ok := e.outcome.Works? && id in daemon;
      if !e.outcome.FailsBefore? {
        halfDone := halfDone || (!ok && daemon != WithRunning(daemon, id, running));
        daemon := WithRunning(daemon, id, running);
      }
      undoFailed := undoFailed || (undo && !ok);
    }

    method RemoveContainer(id: nat, ghost undo: bool) returns (ok: bool)
      modifies this`daemon, this`tick, this`halfDone, this`undoFailed
      ensures RemoveCall(old(daemon), id, daemon, ok) && tick == old(tick) + 1
      ensures ok <==> !Fails(old(tick)) && id in old(daemon)
      ensures halfDone == (old(halfDone) || (!ok && daemon != old(daemon)))
      ensures undoFailed == (old(undoFailed) || (undo && !ok))
    {
      var e := NextEvent();
      ok := e.outcome.Works? && id in daemon;
      if !e.outcome.FailsBefore? {
        halfDone := halfDone || (!ok && daemon != daemon - {id});
        daemon := daemon - {id};
      }
      undoFailed := undoFailed || (undo && !ok);
    }

    method RenameTo(id: nat, name: string, ghost undo: bool) returns (ok: bool)
      modifies this`daemon, this`tick, this`undoFailed
      ensures RenameCall(old(daemon), id, name, daemon, ok) && tick == old(tick) + 1
      ensures ok <==> !Fails(old(tick)) && id in old(daemon) && NameFree(old(daemon), name)
      ensures undoFailed == (old(undoFailed) || (undo && !ok))
    {
      var e := NextEvent();
      ok := e.outcome.Works? && id in daemon && NameFree(daemon, name);
      if ok {
        daemon := WithName(daemon, id, name);
      }
      undoFailed := undoFailed || (undo && !ok);
    }

    /** `_run_container`: any failure before the call itself counts as failing before. */
    method RunContainer(id: nat, wanted: Container) returns (ok: bool)
      requires id !in daemon
      modifies this`daemon, this`tick
      ensures CreateCall(old(daemon), id, wanted, daemon, ok) && tick == old(tick) + 1
      ensures ok <==> !Fails(old(tick)) && NameFree(old(daemon), wanted.name)
    {
      var e := NextEvent();
      ok := e.outcome.Works? && NameFree(daemon, wanted.name);
      if ok {
        daemon := daemon[id := wanted];
      } else if e.outcome.FailsAfter? && NameFree(daemon, wanted.name) {
        daemon := daemon[id := wanted.(running := e.flag)];
      }
    }

    /** `_get_existing`: a failing lookup reads as no container. */
    method GetExisting(ghost undo: bool) returns (found: Option<nat>)
      modifies this`tick, this`undoFailed
      ensures tick == old(tick) + 1
      ensures found.Some? <==> !Fails(old(tick)) && !NameFree(daemon, PG_NAME)
      ensures found.Some? ==> Named(daemon, found.value)
      ensures undoFailed == (old(undoFailed) || (undo && Fails(old(tick)) && !NameFree(daemon, PG_NAME)))
    {
      var e := NextEvent();
      found := None;
      if e.outcome.Works? && !NameFree(daemon, PG_NAME) {
        var id :| id in daemon && daemon[id].name == PG_NAME;
        found := Some(id);
      }
      undoFailed := undoFailed || (undo && found.None? && !NameFree(daemon, PG_NAME));
    }

    /** At this moment the container was asked, and answered that it accepts
        connections; the answer was in by the moment after. */
    ghost predicate Answered(at: nat, id: nat)
    {
      oracle(at).outcome.Works? && answers(at, id)
    }

    ghost predicate Gone(id: nat)
      reads this`daemon
    {
      id !in daemon || !daemon[id].running
    }

    /** The poll at `p` brought a no, and the next is due at `until`, a second's sleep
        later. */
    ghost predicate AskedInVain(id: nat, p: nat, woken: nat, until: nat, deadline: real)
    {
      && clock(p) < deadline && !Fails(p) && !Fails(p + 1) && !answers(p + 1, id)
      && Wakes(clock, p + 2, woken) && until == woken + 1
    }

    /** Every poll since `from` did; the next is due at `until`. */
    ghost predicate PolledInVain(id: nat, from: nat, until: nat, deadline: real)
      decreases until
    {
      until == from
      || exists p: nat, woken: nat ::
           from <= p < until && AskedInVain(id, p, woken, until, deadline) && PolledInVain(id, from, p, deadline)
    }

    /** Polls from `from` on ended in vain at `until`: out of time at the last one, or
        with one of its calls failing. */
    ghost predicate GivenUp(id: nat, from: nat, until: nat, deadline: real)
    {
      exists p: nat :: GivenUpAt(id, from, p, until, deadline)
    }

    ghost predicate GivenUpAt(id: nat, from: nat, p: nat, until: nat, deadline: real)
    {
      && from <= p && PolledInVain(id, from, p, deadline)
      && if clock(p) >= deadline then until == p else (until == p + 1 && Fails(p)) || (until == p + 2 && Fails(p + 1))
    }

    lemma PollOn(id: nat, from: nat, p: nat, woken: nat, until: nat, deadline: real)
      requires from <= p && AskedInVain(id, p, woken, until, deadline) && PolledInVain(id, from, p, deadline)
      ensures PolledInVain(id, from, until, deadline)
    {
      hide PolledInVain;
      assert p < until;
      PolledOnce(id, from, p, woken, until, deadline);
    }

    lemma PolledOnce(id: nat, from: nat, p: nat, woken: nat, until: nat, deadline: real)
      requires from <= p < until && AskedInVain(id, p, woken, until, deadline) && PolledInVain(id, from, p, deadline)
      ensures PolledInVain(id, from, until, deadline)
    {
      hide AskedInVain;
    }

    /** Why a wait begun at `from` got no answer in time from this container: no time was
        left; no poll brought one within what was left and 120 s; or it came too late. */
    ghost predicate NotAnswered(id: nat, from: nat, until: nat, deadline: real)
    {
      var left := deadline - clock(from + 1);
      if left <= 0.0 then until == from + 1
      else
        || GivenUp(id, from + 3, until, clock(from + 2) + if READY_TIMEOUT < left then READY_TIMEOUT else left)
        || (from + 2 <= until && Answered(until - 2, id) && clock(until) > deadline)
    }

    /** Why a wait from one moment to another ended in vain, for the container waited for. */
    ghost predicate NoAnswer(from: nat, until: nat, deadline: real)
    {
      exists id: nat :: NotAnswered(id, from, until, deadline)
    }

    lemma UnansweredIs(id: nat, from: nat, until: nat, deadline: real)
      requires NotAnswered(id, from, until, deadline)
      ensures NoAnswer(from, until, deadline)
    {}

    /** One poll: reload, then `pg_isready`; a failing call or a stopped container ends
        the wait, and so does a yes. */
    method Poll(id: nat) returns (ended: bool, ready: bool)
      modifies this`tick
      ensures tick > old(tick) && (ready ==> ended)
      ensures ready ==> tick == old(tick) + 2 && Answered(tick - 1, id) && !Gone(id)
      ensures ended && !ready ==>
                || Gone(id) || (tick == old(tick) + 1 && Fails(old(tick)))
                || (tick == old(tick) + 2 && Fails(old(tick) + 1))
      ensures !ended ==>
                !Fails(old(tick)) && !Fails(old(tick) + 1) && !answers(old(tick) + 1, id) && tick == old(tick) + 2
    {
      ended, ready := true, false;
      var reload := NextEvent();
      if reload.outcome.Works? && id in daemon && daemon[id].running {
        var answer := answers(tick, id);
        var probe := NextEvent();
        ready := probe.outcome.Works? && answer;
        ended := ready || !probe.outcome.Works?;
      }
    }

    /** `_wait_ready`: poll until the replacement answers. */
    method WaitReady(id: nat, timeout: real) returns (ready: bool, ghost at: nat)
      modifies this`tick
      ensures tick > old(tick)
      ensures !ready ==> Gone(id) || GivenUp(id, old(tick) + 2, tick, clock(old(tick) + 1) + timeout)
      ensures ready ==> tick == at + 1
      ensures ready ==> old(tick) <= at < tick && Answered(at, id) && id in daemon && daemon[id].running
    {
      hide Ticks, Answered, Fails, PolledInVain, AskedInVain, Wakes;
      at := tick;
      var t := Time();
      var deadline := t + timeout;
      t := Time();
      ghost var from := tick;
      NothingPolled(id, from, deadline);
      while t < deadline
        invariant tick >= from && t == clock(tick) && PolledInVain(id, from, tick, deadline)
        decreases (deadline - t).Floor
      {
        ghost var before := tick;
        var ended;
        ended, ready := Poll(id);
        if ended {
          at := tick - 1;
          assert !ready && !Gone(id) ==> GivenUpAt(id, from, before, tick, deadline);
          return;
        }
        NeverBack(clock, before, tick);
        Sleep();
        WokenLater(clock, before + 2, tick);
        NeverBack(clock, tick, tick + 1);
        t := Time();
        VainPoll(id, before, tick - 1, tick, deadline);
        PollOn(id, from, before, tick - 1, tick, deadline);
        FloorDrops(deadline - clock(before), deadline - t);
      }
      assert GivenUpAt(id, from, tick, tick, deadline);
      ready := false;
    }

    lemma NothingPolled(id: nat, from: nat, deadline: real)
      ensures PolledInVain(id, from, from, deadline)
    {}

    lemma VainPoll(id: nat, p: nat, woken: nat, until: nat, deadline: real)
      requires clock(p) < deadline && !Fails(p) && !Fails(p + 1) && !answers(p + 1, id)
      requires Wakes(clock, p + 2, woken) && until == woken + 1
      ensures AskedInVain(id, p, woken, until, deadline)
    {}

    /** `_wait_ready_before` */
    method WaitReadyBefore(id: nat, deadline: real) returns (ready: bool, ghost at: nat)
      modifies this`tick
      ensures tick > old(tick)
      ensures ready ==> old(tick) <= at < tick && Answered(at, id) && id in daemon && daemon[id].running
      ensures ready ==> clock(at + 1) <= deadline
      ensures !ready ==> Gone(id) || NotAnswered(id, old(tick), tick, deadline)
    {
      at := tick;
      var t := Time();
      if deadline - t <= 0.0 {
        return false, at;
      }
      hide Ticks, GivenUp, Answered;
      ready, at := WaitReady(id, if READY_TIMEOUT < deadline - t then READY_TIMEOUT else deadline - t);
      if ready {
        t := Time();
        NeverBack(clock, tick - 1, tick);
        ready := t <= deadline;
      }
    }

    /** The next moment of the mutation's course. */
    ghost method Reach(at: Point)
      requires Course(trace) && Step(trace[|trace| - 1].daemon, trace[|trace| - 1].at, daemon, at)
      modifies this`trace
      ensures Course(trace) && |trace| == |old(trace)| + 1 && trace[0] == old(trace)[0]
      ensures trace[|trace| - 1] == Moment(daemon, at, tick)
      ensures trace[|trace| - 2] == old(trace)[|trace| - 2]
      ensures |trace| >= 3 ==> trace[|trace| - 3] == old(trace)[|trace| - 3]
    {
      trace := trace + [Moment(daemon, at, tick)];
    }

    ghost predicate At(point: Point)
      reads this`trace, this`daemon
    {
      Course(trace) && trace[|trace| - 1] == Moment(daemon, point, trace[|trace| - 1].tick)
    }

    /** Why a replacement run from the moment `from` was given up at `at`. */
    ghost predicate Unreplaced(e: Error, from: nat, at: nat, deadline: real)
    {
      match e
      case CreateFailed => Fails(from)
      case NotReady => NoAnswer(from + 1, at, deadline)
      case NoMargin => clock(at) + FINALIZE_RESERVE >= deadline
      case _ => false
    }

    /** Why a mutation that began at `from` ended with this error. */
    ghost predicate HadCause(e: Error, id: nat, was: bool, d0: Daemon, from: nat, at: nat, deadline: real)
    {
      match e
      case DeadlineExceeded => clock(from + 1) >= deadline
      case StopFailed => was && Fails(from + 1)
      case RenameFailed => Fails(from + if was then 2 else 1) || !NameFree(d0, RollbackName(shortIds(id)))
      case RollbackFailed => !AllWork(from, at)
      case _ => Unreplaced(e, from + if was then 3 else 2, at, deadline)
    }

    /** The replacement answered, with more than the finalising reserve left. */
    ghost predicate InTime(new_: nat, from: nat, at: nat, deadline: real)
    {
      from <= at && Answered(at, new_) && clock(at + 1) + FINALIZE_RESERVE < deadline
    }

    /** A mutation that began at `from` replaced the container of `d0`: the new one answered
        in time, with the old one standing by. */
    ghost predicate TookOver(d0: Daemon, id: nat, wanted: Container, new_: nat, from: nat, at: nat, deadline: real)
      reads this`daemon, this`tick, this`trace
    {
      && id in d0 && Replaced(d0, id, wanted, daemon) && new_ !in d0 && new_ in daemon && daemon[new_] == wanted
      && InTime(new_, from, at, deadline) && at < tick && AnsweredAside(trace, d0, id, new_, wanted, at)
      && Dropped(d0, id, wanted, new_)
    }

    /** The old container is gone unless the last call, which removes it, failed. */
    ghost predicate Dropped(d0: Daemon, id: nat, wanted: Container, new_: nat)
      reads this`daemon, this`tick
    {
      tick > 0 && (Fails(tick - 1) || daemon == (d0 - {id})[new_ := wanted])
    }

    /** `_recreate_with_rollback`: the old container is kept until its replacement
        has answered with margin to spare; otherwise it is put back. */
    method RecreateWithRollback(id: nat, was: bool, wanted: Container, deadline: real)
      returns (error: Option<Error>, ghost new_: nat, ghost at: nat)
      requires At(Image(id, was)) && Named(daemon, id) && daemon[id].running == was && UniqueNames(daemon)
      requires wanted.name == PG_NAME && wanted.running && OnData(wanted)
      requires !halfDone && !undoFailed
      modifies this`daemon, this`tick, this`halfDone, this`undoFailed, this`trace
      ensures At(Leaving) && trace[0] == old(trace)[0] && tick >= old(tick)
      ensures error.None? ==> TookOver(old(daemon), id, wanted, new_, old(tick), at, deadline)
      ensures error.Some? ==> HadCause(error.value, id, was, old(daemon), old(tick), at, deadline) && at <= tick
      ensures error == Some(DeadlineExceeded) <==> clock(old(tick) + 1) >= deadline
      ensures AllWork(old(tick), tick) ==> !halfDone && !undoFailed
      ensures error == Some(RollbackFailed) ==> undoFailed
      ensures error == Some(CreateFailed) || error == Some(NotReady) || error == Some(NoMargin) ==>
                Named(daemon, id) && (was ==> daemon[id].running)
      ensures error != Some(Busy)
      ensures error.Some? && !halfDone && !undoFailed ==> daemon == old(daemon)
    {
      hide Ticks, Unreplaced, TookOver, RollbackName, Step, Course, UniqueNames, NameFree, Aside, Fails;
      new_, at := 0, tick;
      ghost var d0 := daemon;
      var t := Time();
      if t >= deadline {
        MayLeave(daemon, Image(id, was));
        Reach(Leaving);
        return Some(DeadlineExceeded), new_, at;
      }
      var shortId := shortIds(id);
      error := SetAside(id, was, shortId);
      if error.Some? {
        return;
      }
      ghost var start := tick;
      error, new_, at := ReplaceSetAside(id, was, shortId, wanted, deadline, d0);
      TookOverEarlier(d0, id, wanted, new_, old(tick), start, at, deadline);
    }

    lemma TookOverEarlier(d0: Daemon, id: nat, wanted: Container, new_: nat, from: nat, start: nat, at: nat,
                          deadline: real)
      requires from <= start
      ensures TookOver(d0, id, wanted, new_, start, at, deadline) ==>
                TookOver(d0, id, wanted, new_, from, at, deadline)
    {
      hide Replaced, AnsweredAside, Answered;
    }

    /** With the old container set aside: run the replacement, then commit or roll back. */
    method ReplaceSetAside(id: nat, was: bool, shortId: string, wanted: Container, deadline: real, ghost d0: Daemon)
      returns (error: Option<Error>, ghost new_: nat, ghost at: nat)
      requires At(Replace(id, was)) && Named(d0, id) && d0[id].running == was && UniqueNames(d0)
      requires daemon == Aside(d0, id, shortId) && !halfDone && !undoFailed
      requires wanted.name == PG_NAME && wanted.running && OnData(wanted)
      modifies this`daemon, this`tick, this`halfDone, this`undoFailed, this`trace
      ensures At(Leaving) && trace[0] == old(trace)[0] && tick >= old(tick)
      ensures error.Some? && error != Some(RollbackFailed) ==>
                && (error == Some(CreateFailed) || error == Some(NotReady) || error == Some(NoMargin))
                && at <= tick && Unreplaced(error.value, old(tick), at, deadline)
      ensures error.Some? && error != Some(RollbackFailed) ==> Named(daemon, id) && (was ==> daemon[id].running)
      ensures error == Some(RollbackFailed) ==> undoFailed && at == tick && !AllWork(old(tick), tick)
      ensures AllWork(old(tick), tick) ==> !halfDone && !undoFailed
      ensures error.None? ==> TookOver(d0, id, wanted, new_, old(tick), at, deadline)
      ensures error.Some? && !undoFailed ==> daemon == d0
    {
      hide Ticks, NoAnswer, Waited, AnsweredAside, Replaced, InTime, RollbackName, Step, Course, UniqueNames, NameFree;
      var replacement := FreshId(daemon, id);
      new_ := replacement;
      AsideKeys(d0, id, shortId, new_);
      AsideNameFree(d0, id, shortId);
      error, at := StartReplacement(id, was, replacement, wanted, deadline);
      if error.Some? {
        at := tick;
        var back := RollBack(id, was, d0, shortId, new_, wanted);
        if !back {
          at := tick;
          error := Some(RollbackFailed);
        }
        return;
      }
      DropOld(id, d0, shortId, new_, wanted, at);
    }

    /** The old container goes; a failure to remove it is only logged. */
    method DropOld(id: nat, ghost d0: Daemon, ghost shortId: string, ghost new_: nat, ghost wanted: Container,
        ghost at: nat)
      requires At(Commit(id)) && id in d0 && new_ !in d0 && new_ != id && daemon == Aside(d0, id,
            shortId)[new_ := wanted]
      requires |trace| >= 2 && Waited(trace[|trace| - 2], trace[|trace| - 1], id, daemon, at)
      modifies this`daemon, this`tick, this`halfDone, this`undoFailed, this`trace
      ensures At(Leaving) && trace[0] == old(trace)[0] && tick >= old(tick)
      ensures AllWork(old(tick), tick) ==> halfDone == old(halfDone) && undoFailed == old(undoFailed)
      ensures tick > old(tick) && Dropped(d0, id, wanted, new_) && undoFailed == old(undoFailed)
      ensures Replaced(d0, id, wanted, daemon) && new_ in daemon && daemon[new_] == wanted
      ensures AnsweredAside(trace, d0, id, new_, wanted, at)
    {
      hide Ticks, Waited, AnsweredAside, Replaced, RollbackName, Step, Course, NameFree;
      ghost var d3 := daemon;
      var removed := RemoveContainer(id, false);
      CommitStep(d3, id, daemon, removed);
      Reach(Leaving);
      CommitReplaces(d0, id, shortId, new_, wanted, daemon, removed);
      assert removed ==> daemon == (d0 - {id})[new_ := wanted];
      StoodBy(trace, d0, id, shortId, new_, wanted, at);
    }

    /** Stop the existing container if it runs and rename it out of the way; if the
        rename fails, start it again. */
    method SetAside(id: nat, was: bool, shortId: string) returns (error: Option<Error>)
      requires At(Image(id, was)) && Named(daemon, id) && daemon[id].running == was && UniqueNames(daemon)
      requires !halfDone && !undoFailed
      modifies this`daemon, this`tick, this`halfDone, this`undoFailed, this`trace
      ensures trace != [] && trace[0] == old(trace)[0] && tick >= old(tick)
      ensures error != Some(Busy)
      ensures error.None? ==> At(Replace(id, was)) && daemon == Aside(old(daemon), id, shortId)
      ensures error.None? || AllWork(old(tick), tick) ==> !halfDone && !undoFailed
      ensures error.Some? ==> At(Leaving)
      ensures error == Some(StopFailed) <==> was && Fails(old(tick))
      ensures error == Some(RenameFailed) <==>
                && !(was && Fails(old(tick)))
                && (Fails(old(tick) + if was then 1 else 0) || !NameFree(old(daemon), RollbackName(shortId)))
      ensures error.Some? ==> error == Some(StopFailed) || error == Some(RenameFailed)
      ensures error.None? ==> tick == old(tick) + if was then 2 else 1
      ensures error.Some? && !halfDone && !undoFailed ==> daemon == old(daemon)
    {
      hide Ticks, Step, Course, UniqueNames, Fails, RollbackName, NameFree;
      ghost var d0 := daemon;
      var stopped := StopFirst(id, was);
      if !stopped {
        return Some(StopFailed);
      }
      ghost var d1 := daemon;
      SameNames(d0, id, false, RollbackName(shortId));
      var renamed := RenameTo(id, RollbackName(shortId), false);
      RenameStep(d1, id, was, shortId, daemon, renamed);
      if !renamed {
        StartAgain(id, was, d0);
        return Some(RenameFailed);
      }
      Reach(Replace(id, was));
      return None;
    }

    /** The existing container is stopped if it runs. */
    method StopFirst(id: nat, was: bool) returns (ok: bool)
      requires At(Image(id, was)) && Named(daemon, id) && daemon[id].running == was && !halfDone
      modifies this`daemon, this`tick, this`halfDone, this`undoFailed, this`trace
      ensures trace != [] && trace[0] == old(trace)[0] && undoFailed == old(undoFailed)
      ensures !ok <==> was && Fails(old(tick))
      ensures ok ==>
                && At(Rename(id, was)) && daemon == WithRunning(old(daemon), id, false) && !halfDone
                && tick == old(tick) + if was then 1 else 0
      ensures !ok ==> At(Leaving) && tick > old(tick) && (!halfDone ==> daemon == old(daemon))
    {
      hide Ticks, Step, Course, Fails;
      ghost var d0 := daemon;
      GoOn(daemon, id, was);
      if !was {
        Reach(Rename(id, was));
        assert daemon == WithRunning(d0, id, false);
        return true;
      }
      Reach(Stop(id));
      ok := Switch(id, false, false);
      StopStep(d0, id, daemon, ok);
      if ok {
        Reach(Rename(id, was));
      } else {
        Reach(Leaving);
      }
    }

    /** The rename failed: a container that ran is started again. */
    method StartAgain(id: nat, was: bool, ghost d0: Daemon)
      requires Course(trace) && daemon == WithRunning(d0, id, false) && Named(d0, id) && d0[id].running == was
      requires var last := trace[|trace| - 1]; Step(last.daemon, last.at, daemon, if was then Restart(id) else Leaving)
      modifies this`daemon, this`tick, this`halfDone, this`undoFailed, this`trace
      ensures At(Leaving) && trace != [] && trace[0] == old(trace)[0] && tick >= old(tick)
      ensures AllWork(old(tick), tick) ==> halfDone == old(halfDone) && undoFailed == old(undoFailed)
      ensures !halfDone && !undoFailed ==> daemon == d0
    {
      hide Ticks, Step, Course, UniqueNames;
      if !was {
        Reach(Leaving);
        return;
      }
      ghost var d1 := daemon;
      Reach(Restart(id));
      var restarted := Switch(id, true, true);
      StartStep(d1, Restart(id), id, daemon, restarted);
      assert restarted ==> daemon == d0;
      Reach(Leaving);
    }

    /** Run the replacement and wait until it answers with margin to spare. */
    method StartReplacement(id: nat, was: bool, new_: nat, wanted: Container, deadline: real)
      returns (error: Option<Error>, ghost at: nat)
      requires At(Replace(id, was)) && new_ !in daemon && new_ != id
      requires wanted.name == PG_NAME && wanted.running && OnData(wanted)
      modifies this`daemon, this`tick, this`trace
      ensures trace != [] && trace[0] == old(trace)[0] && tick >= old(tick)
      ensures error == Some(CreateFailed) <==> Fails(old(tick)) || !NameFree(old(daemon), PG_NAME)
      ensures error == Some(NotReady) ==> NoAnswer(old(tick) + 1, tick, deadline)
      ensures error == Some(NoMargin) ==> clock(tick) + FINALIZE_RESERVE >= deadline
      ensures error.Some? ==> error == Some(CreateFailed) || error == Some(NotReady) || error == Some(NoMargin)
      ensures error.None? ==> At(Commit(id)) && daemon == old(daemon)[new_ := wanted]
      ensures error.None? ==> InTime(new_, old(tick), at, deadline) && at < tick
      ensures error.None? ==> |trace| >= 2 && Waited(trace[|trace| - 2], trace[|trace| - 1], id, daemon, at)
      ensures error.Some? ==> At(FindPartial(id, was))
                              && (daemon == old(daemon) || daemon == old(daemon)[new_ := wanted]
                                  || daemon == old(daemon)[new_ := wanted.(running := false)])
    {
      hide Ticks, NoAnswer, InTime, Waited, Fails, Step, Course, UniqueNames, NameFree;
      ghost var d2, from := daemon, tick;
      at := tick;
      var created := RunContainer(new_, wanted);
      RunStep(d2, id, was, new_, wanted, daemon, created);
      if !created {
        Reach(FindPartial(id, was));
        return Some(CreateFailed), at;
      }
      Reach(Wait(id, was));
      error, at := AwaitReplacement(id, was, new_, deadline, from);
    }

    /** The wait, and the look at the clock after it. */
    method AwaitReplacement(id: nat, was: bool, new_: nat, deadline: real, ghost from: nat)
      returns (error: Option<Error>, ghost at: nat)
      requires At(Wait(id, was)) && trace != [] && trace[|trace| - 1].tick == tick && from <= tick
      requires new_ in daemon && daemon[new_].running
      modifies this`tick, this`trace
      ensures trace != [] && trace[0] == old(trace)[0] && tick >= old(tick)
      ensures error == Some(NotReady) ==> NoAnswer(old(tick), tick, deadline)
      ensures error == Some(NoMargin) ==> clock(tick) + FINALIZE_RESERVE >= deadline
      ensures error.Some? ==> (error == Some(NotReady) || error == Some(NoMargin)) && At(FindPartial(id, was))
      ensures error.None? ==>
                && At(Commit(id)) && |trace| >= 2 && Waited(trace[|trace| - 2], trace[|trace| - 1], id, daemon, at)
                && InTime(new_, from, at, deadline) && at < tick
    {
      hide Ticks, NoAnswer, NotAnswered, Answered, Step, Course;
      WaitStep(daemon, id, was);
      assert !Gone(new_);
      ghost var start := tick;
      var ready;
      ready, at := WaitReadyBefore(new_, deadline);
      if !ready {
        UnansweredIs(new_, start, tick, deadline);
        Reach(FindPartial(id, was));
        return Some(NotReady), at;
      }
      NeverBack(clock, at + 1, tick);
      var t := Time();
      NeverBack(clock, tick - 1, tick);
      if t + FINALIZE_RESERVE >= deadline {
        Reach(FindPartial(id, was));
        return Some(NoMargin), at;
      }
      Reach(Commit(id));
      return None, at;
    }

    /** The exception handler of a failed replacement. */
    method RollBack(id: nat, was: bool, ghost d0: Daemon, ghost shortId: string, ghost new_: nat,
        ghost wanted: Container)
      returns (ok: bool)
      requires At(FindPartial(id, was)) && Named(d0, id) && d0[id].running == was && UniqueNames(d0) && new_ !in d0
      requires wanted.name == PG_NAME
      requires wanted.running
      requires var aside := Aside(d0, id, shortId);
               daemon == aside || daemon == aside[new_ := wanted] || daemon == aside[new_ := wanted.(running := false)]
      modifies this`daemon, this`tick, this`halfDone, this`undoFailed, this`trace
      ensures At(Leaving) && trace[0] == old(trace)[0] && tick >= old(tick)
      ensures old(halfDone) ==> halfDone
      ensures old(undoFailed) || !ok ==> undoFailed
      ensures ok ==> Named(daemon, id) && (was ==> daemon[id].running)
      ensures AllWork(old(tick), tick) ==> halfDone == old(halfDone) && undoFailed == old(undoFailed)
      ensures !undoFailed ==> daemon == d0
    {
      hide Ticks, Step, Course, UniqueNames, NameFree, RollbackName, Fails;
      ghost var aside := Aside(d0, id, shortId);
      AsideFree(d0, id, shortId, new_, wanted, daemon);
      AsideNameFree(d0, id, shortId);
      ghost var d3 := daemon;
      var partial := GetExisting(true);
      if partial.Some? {
        FindStep(d3, id, was, partial.value);
        Reach(DropPartial(id, was, partial.value));
        var dropped := RemoveContainer(partial.value, true);
        DropStep(d3, id, was, partial.value, daemon, dropped);
        OnlyPartial(aside, new_, if new_ in d3 then d3[new_] else wanted, d3, partial.value);
      } else {
        FindNone(d3, id, was);
        assert !undoFailed ==> daemon == aside;
      }
      Reach(RenameBack(id, was));
      ok := PutBack(id, was, d0, shortId);
    }

    /** Give the existing container its name back and start it if it ran. */
    method PutBack(id: nat, was: bool, ghost d0: Daemon, ghost shortId: string) returns (ok: bool)
      requires At(RenameBack(id, was)) && Named(d0, id) && d0[id].running == was
      modifies this`daemon, this`tick, this`halfDone, this`undoFailed, this`trace
      ensures At(Leaving) && trace[0] == old(trace)[0] && tick >= old(tick)
      ensures old(halfDone) ==> halfDone
      ensures old(undoFailed) || !ok ==> undoFailed
      ensures ok ==> Named(daemon, id) && (was ==> daemon[id].running)
      ensures AllWork(old(tick), tick) && id in old(daemon) && NameFree(old(daemon), PG_NAME) ==>
                halfDone == old(halfDone) && undoFailed == old(undoFailed)
      ensures !undoFailed && old(daemon) == Aside(d0, id, shortId) ==> daemon == d0
    {
      hide Ticks, Step, Course, NameFree, RollbackName;
      ghost var d4 := daemon;
      var renamed := RenameTo(id, PG_NAME, true);
      ok := renamed;
      RenameBackStep(d4, id, was, daemon, renamed);
      if renamed && was {
        Reach(StartBack(id));
        ghost var d5 := daemon;
        ok := Switch(id, true, true);
        StartStep(d5, StartBack(id), id, daemon, ok);
      }
      Reach(Leaving);
    }

    /** `_create_with_deadline`: a new container that misses the deadline is removed. */
    method CreateWithDeadline(wanted: Container, deadline: real)
      returns (error: Option<Error>, ghost new_: nat, ghost at: nat)
      requires At(CreateRun)
      requires wanted.name == PG_NAME && wanted.running && OnData(wanted)
      modifies this`daemon, this`tick, this`halfDone, this`undoFailed, this`trace
      ensures At(Leaving) && trace[0] == old(trace)[0] && tick >= old(tick)
      ensures error.None? ==> Created(old(daemon), wanted, daemon)
      ensures error.None? ==> new_ !in old(daemon) && new_ in daemon && daemon[new_] == wanted
      ensures error.None? ==> old(tick) <= at < tick && Answered(at, new_) && clock(at + 1) <= deadline
      ensures error != Some(Busy)
      ensures error == Some(DeadlineExceeded) <==> clock(old(tick) + 1) >= deadline
      ensures error == Some(CreateFailed) <==>
                clock(old(tick) + 1) < deadline && (Fails(old(tick) + 1) || !NameFree(old(daemon), PG_NAME))
      ensures error == Some(NotReady) ==> tick > 0 && NoAnswer(old(tick) + 2, tick - 1, deadline)
      ensures AllWork(old(tick), tick) ==> halfDone == old(halfDone) && undoFailed == old(undoFailed)
      ensures error.Some? ==> error == Some(DeadlineExceeded) || error == Some(CreateFailed) || error == Some(NotReady)
      ensures error == Some(DeadlineExceeded) || (error == Some(NotReady) && !undoFailed) ==> daemon == old(daemon)
      ensures error.Some? ==> FailedOver(old(daemon), wanted, daemon)
    {
      hide Ticks, NoAnswer, Answered, Step, Course, NameFree, Fails, Created, FailedOver;
      UnchangedFailed(daemon, wanted);
      new_, at := 0, tick;
      var t := Time();
      ghost var d0 := daemon;
      if t >= deadline {
        MayLeave(daemon, CreateRun);
        Reach(Leaving);
        return Some(DeadlineExceeded), new_, at;
      }
      error, new_, at := RunNew(wanted, deadline);
    }

    method RunNew(wanted: Container, deadline: real)
      returns (error: Option<Error>, ghost new_: nat, ghost at: nat)
      requires At(CreateRun)
      requires wanted.name == PG_NAME && wanted.running && OnData(wanted)
      modifies this`daemon, this`tick, this`halfDone, this`undoFailed, this`trace
      ensures At(Leaving) && trace[0] == old(trace)[0] && tick > old(tick)
      ensures error.None? ==> Created(old(daemon), wanted, daemon)
      ensures error.None? ==> new_ !in old(daemon) && new_ in daemon && daemon[new_] == wanted
      ensures error.None? ==> old(tick) <= at < tick && Answered(at, new_) && clock(at + 1) <= deadline
      ensures error.Some? ==> error == Some(CreateFailed) || error == Some(NotReady)
      ensures error == Some(CreateFailed) <==> Fails(old(tick)) || !NameFree(old(daemon), PG_NAME)
      ensures error == Some(NotReady) ==>
                NoAnswer(old(tick) + 1, tick - 1, deadline) && (undoFailed || daemon == old(daemon))
      ensures AllWork(old(tick), tick) ==> halfDone == old(halfDone) && undoFailed == old(undoFailed)
      ensures error.Some? ==> FailedOver(old(daemon), wanted, daemon)
    {
      hide Ticks, NoAnswer, Answered, Step, Course, NameFree, Fails, Created, FailedOver;
      ghost var d0 := daemon;
      at := tick;
      var id := FreshId(daemon, 0);
      new_ := id;
      var created := RunContainer(id, wanted);
      CreateStep(d0, id, wanted, daemon, created);
      RunEffect(d0, id, wanted, daemon, created);
      UnchangedFailed(d0, wanted);
      if !created {
        Reach(Leaving);
        return Some(CreateFailed), new_, at;
      }
      Reach(CreateWait(id));
      var ready;
      ready, at := AwaitNew(id, deadline, d0, wanted);
      error := if ready then None else Some(NotReady);
    }

    /** The new container answers, or is removed again. */
    method AwaitNew(id: nat, deadline: real, ghost d0: Daemon, ghost wanted: Container)
      returns (ready: bool, ghost at: nat)
      requires At(CreateWait(id)) && id !in d0 && daemon == d0[id := wanted] && wanted.running
      modifies this`daemon, this`tick, this`halfDone, this`undoFailed, this`trace
      ensures At(Leaving) && trace[0] == old(trace)[0] && tick > old(tick)
      ensures ready ==> daemon == old(daemon)
      ensures ready ==> old(tick) <= at < tick && Answered(at, id) && clock(at + 1) <= deadline
      ensures !ready ==> NoAnswer(old(tick), tick - 1, deadline)
      ensures !ready ==> daemon == d0 || (undoFailed && daemon == old(daemon))
      ensures AllWork(old(tick), tick) ==> halfDone == old(halfDone) && undoFailed == old(undoFailed)
    {
      hide Ticks, NoAnswer, NotAnswered, Answered, Step, Course;
      ghost var start := tick;
      ready, at := WaitReadyBefore(id, deadline);
      assert !Gone(id);
      if ready {
        MayLeave(daemon, CreateWait(id));
        Reach(Leaving);
      } else {
        UnansweredIs(id, start, tick, deadline);
        DropNew(id);
        assert d0[id := wanted] - {id} == d0;
      }
    }

    method DropNew(id: nat)
      requires At(CreateWait(id)) && id in daemon
      modifies this`daemon, this`tick, this`halfDone, this`undoFailed, this`trace
      ensures At(Leaving) && trace[0] == old(trace)[0] && tick == old(tick) + 1
      ensures daemon == old(daemon) - {id} || (undoFailed && daemon == old(daemon))
      ensures AllWork(old(tick), tick) ==> halfDone == old(halfDone) && undoFailed == old(undoFailed)
    {
      hide Ticks, Step, Course;
      ghost var d1 := daemon;
      CreateDropStep(daemon, id);
      Reach(CreateDrop(id));
      var removed := RemoveContainer(id, true);
      DropNewStep(d1, id, daemon, removed);
      Reach(Leaving);
    }

    /** `_ensure_image_available`: pulled, or at least cached. */
    method EnsureImage() returns (ok: bool)
      modifies this`tick
      ensures ok <==> !Fails(old(tick)) || !Fails(old(tick) + 1)
      ensures tick == old(tick) + if Fails(old(tick)) then 2 else 1
    {
      var pull := NextEvent();
      if pull.outcome.Works? {
        return true;
      }
      var cached := NextEvent();
      ok := cached.outcome.Works?;
    }

    /** Take the mutation lock without waiting. */
    method Acquire(ghost op: Operation) returns (ok: bool)
      modifies this`locked, this`halfDone, this`undoFailed, this`trace
      ensures ok == !old(locked) && locked
      ensures ok ==> At(Lookup(op)) && trace == [Moment(daemon, Lookup(op), tick)] && !halfDone && !undoFailed
    {
      ok := !locked;
      locked := true;
      if ok {
        halfDone, undoFailed, trace := false, false, [Moment(daemon, Lookup(op), tick)];
      }
    }

    /** A mutation that began at moment `from` brought up the container asked for: it
        answered within the commit deadline, and when it replaced another, with more
        than the finalising reserve left and the other still standing by. */
    ghost predicate CameUp(d0: Daemon, from: nat, wanted: Container, new_: nat, at: nat)
      reads this`daemon, this`tick, this`trace
    {
      && from <= at < tick && Answered(at, new_)
      && new_ !in d0 && new_ in daemon && daemon[new_] == wanted
      && clock(at + 1) <= clock(from + 1) + COMMIT_DEADLINE
      && forall id | Named(d0, id) ::
           clock(at + 1) + FINALIZE_RESERVE < clock(from + 1) + COMMIT_DEADLINE
           && AnsweredAside(trace, d0, id, new_, wanted, at) && Dropped(d0, id, wanted, new_)
    }

    lemma LaterWork(from: nat, start: nat, until: nat)
      requires from <= start
      ensures AllWork(from, until) ==> AllWork(start, until)
    {}

    /** Why a creation begun at `from` failed. */
    ghost predicate Uncreated(e: Error, d0: Daemon, from: nat, until: nat, deadline: real)
    {
      match e
      case DeadlineExceeded => clock(from + 1) >= deadline
      case CreateFailed => Fails(from + 1) || !NameFree(d0, PG_NAME)
      case NotReady => until > 0 && NoAnswer(from + 2, until - 1, deadline)
      case _ => false
    }

    /** Why a replacement begun at `from` failed. */
    ghost predicate NotReplaced(e: Error, d0: Daemon, from: nat, until: nat, deadline: real)
    {
      exists id: nat, at: nat | Named(d0, id) && at <= until :: HadCause(e, id, d0[id].running, d0, from, at, deadline)
    }

    /** Why a mutation begun at `from` ended with this error: without a container, or with
        its lookup failing, in creating one; else in reading it, in getting the image or in
        replacing it. */
    ghost predicate Explained(e: Error, d0: Daemon, from: nat, until: nat)
    {
      var deadline := clock(from + 1) + COMMIT_DEADLINE;
      if Fails(from + 1) || NameFree(d0, PG_NAME) then Uncreated(e, d0, from + 2, until, deadline)
      else if Fails(from + 2) then e == ReloadFailed
      else if Fails(from + 3) && Fails(from + 4) then e == ImageUnavailable
      else NotReplaced(e, d0, from + if Fails(from + 3) then 5 else 4, until, deadline)
    }

    lemma ReloadExplained(d0: Daemon, id: nat, from: nat, until: nat)
      requires Named(d0, id) && !Fails(from + 1) && Fails(from + 2)
      ensures Explained(ReloadFailed, d0, from, until)
    {
      NameTaken(d0, id);
    }

    lemma NotAllWork(from: nat, k: nat, until: nat)
      requires from <= k < until && Fails(k)
      ensures !AllWork(from, until)
    {}

    /** With no container found: one is created. */
    method CreateNew(wanted: Container, deadline: real, ghost from: nat)
      returns (error: Option<Error>, ghost new_: nat, ghost at: nat)
      requires At(Lookup(Operation.Recreate))
      requires wanted.name == PG_NAME && wanted.running && OnData(wanted)
      requires tick == from + 2 && (Fails(from + 1) || NameFree(daemon, PG_NAME))
      requires deadline == clock(from + 1) + COMMIT_DEADLINE
      modifies this`daemon, this`tick, this`halfDone, this`undoFailed, this`trace
      ensures At(Leaving) && trace[0] == old(trace)[0] && error != Some(Busy)
      ensures error.None? ==> Created(old(daemon), wanted, daemon) && CameUp(old(daemon), from, wanted, new_, at)
      ensures error.Some? ==> FailedOver(old(daemon), wanted, daemon)
      ensures error.Some? ==> Explained(error.value, old(daemon), from, tick)
      ensures AllWork(from, tick) ==> halfDone == old(halfDone) && undoFailed == old(undoFailed)
    {
      hide Ticks, Step, Course, NameFree, Answered, AnsweredAside, Created, NoAnswer, Fails;
      ghost var d0 := daemon;
      LookupStep(daemon, Operation.Recreate);
      Reach(CreateRun);
      error, new_, at := CreateWithDeadline(wanted, deadline);
      NoneNamed(d0, wanted, daemon);
    }

    /** With a container found: the image first, then the replacement. */
    method ReplaceExisting(id: nat, wanted: Container, deadline: real, ghost from: nat)
      returns (error: Option<Error>, ghost new_: nat, ghost at: nat)
      requires At(Reload(Operation.Recreate, id)) && Named(daemon,
            id) && UniqueNames(daemon) && !halfDone && !undoFailed
      requires wanted.name == PG_NAME && wanted.running && OnData(wanted)
      requires tick == from + 3 && !Fails(from + 1) && !Fails(from + 2)
      requires deadline == clock(from + 1) + COMMIT_DEADLINE
      modifies this`daemon, this`tick, this`halfDone, this`undoFailed, this`trace
      ensures At(Leaving) && trace[0] == old(trace)[0] && error != Some(Busy)
      ensures error.None? ==> Replaced(old(daemon), id, wanted, daemon) && CameUp(old(daemon), from, wanted, new_, at)
      ensures error.Some? && !halfDone && !undoFailed ==> daemon == old(daemon)
      ensures error.Some? ==> Explained(error.value, old(daemon), from, tick)
      ensures AllWork(from, tick) ==> !halfDone && !undoFailed
    {
      hide Ticks, Step, Course, NameFree, Answered, AnsweredAside, Replaced, UniqueNames, Fails, AllWork, HadCause;
      new_, at := 0, tick;
      ghost var d0 := daemon;
      ReloadStep(daemon, id);
      var was := daemon[id].running;
      Reach(Image(id, was));
      var available := EnsureImage();
      if !available {
        MayLeave(daemon, Image(id, was));
        Reach(Leaving);
        NameTaken(d0, id);
        LaterWork(from, from + 3, tick);
        return Some(ImageUnavailable), new_, at;
      }
      ghost var start := tick;
      NameTaken(d0, id);
      error, new_, at := RecreateWithRollback(id, was, wanted, deadline);
      LaterWork(from, start, tick);
      if error.Some? {
        assert NotReplaced(error.value, d0, start, tick, deadline);
      }
      OnlyNamed(d0, id);
    }

    /** `enable_pitr`. Once archiving is on it changes nothing; when it succeeds,
        archiving is on. */
    method EnablePitr(image: string, extra: seq<string>) returns (r: Result<PitrStatus, Error>)
      requires UniqueNames(daemon)
      modifies this
      ensures old(locked) ==> r == Err(Busy) && locked && daemon == old(daemon)
      ensures !old(locked) ==> !locked && r != Err(Busy)
      ensures !old(locked) ==> At(Leaving) && trace[0] == Moment(old(daemon), Lookup(Operation.Recreate), old(tick))
      ensures r.Ok? ==> ArchivingOn(daemon)
      ensures r == Ok(Enabled) ==> exists new_: nat, at: nat ::
                CameUp(old(daemon), old(tick), Wanted(image, true, extra), new_, at)
      ensures Mutated(old(daemon), Pitr(r.Ok?), daemon)
      ensures r == Ok(AlreadyEnabled) ==> daemon == old(daemon)
      ensures r == Ok(Enabled) ==> UpWith(daemon, true)
      ensures !old(locked) ==>
                (r == Ok(AlreadyEnabled) <==>
                   ArchivingOn(old(daemon)) && !Fails(old(tick) + 1) && !Fails(old(tick) + 2))
      ensures !old(locked) && r.Err? ==> Explained(r.error, old(daemon), old(tick), tick)
      ensures !old(locked) && AllWork(old(tick), tick) ==> !halfDone && !undoFailed
      ensures !old(locked) && r.Err? && !halfDone && !undoFailed ==> FailedOver(old(daemon), Wanted(image, true,
            extra), daemon)
      ensures Safe(old(daemon)) ==> Safe(daemon)
    {
      hide UpWith, Ticks, Step, Course, UniqueNames, NameFree, Archiving, ContainerCommand;
      var free := Acquire(Operation.Recreate);
      if !free {
        return Err(Busy);
      }
      ghost var new_, at, d0, from := 0, 0, daemon, tick;
      r, new_, at := EnablePitrLocked(image, extra);
      LeavingSafe(trace);
      locked := false;
      if r == Ok(Enabled) {
        WantedIsUp(daemon, new_, image, true, extra);
      }
      assert r == Ok(Enabled) ==> CameUp(d0, from, Wanted(image, true, extra), new_, at);
    }

    method EnablePitrLocked(image: string, extra: seq<string>)
      returns (r: Result<PitrStatus, Error>, ghost new_: nat, ghost at: nat)
      requires UniqueNames(daemon) && At(Lookup(Operation.Recreate)) && !halfDone && !undoFailed
      modifies this`daemon, this`tick, this`halfDone, this`undoFailed, this`trace
      ensures At(Leaving) && trace[0] == old(trace)[0] && r != Err(Busy)
      ensures r.Ok? ==> ArchivingOn(daemon)
      ensures r == Ok(Enabled) ==> CameUp(old(daemon), old(tick), Wanted(image, true, extra), new_, at)
      ensures r == Ok(AlreadyEnabled) <==>
                ArchivingOn(old(daemon)) && !Fails(old(tick) + 1) && !Fails(old(tick) + 2)
      ensures r.Err? ==> Explained(r.error, old(daemon), old(tick), tick)
      ensures AllWork(old(tick), tick) ==> !halfDone && !undoFailed
      ensures ArchivingOn(old(daemon)) || r == Ok(AlreadyEnabled) ==> daemon == old(daemon)
      ensures r.Err? && !halfDone && !undoFailed ==> FailedOver(old(daemon), Wanted(image, true, extra), daemon)
    {
      hide Ticks, CameUp, Explained, Fails, AllWork, ArchivingOn, Step, Course, UniqueNames, NameFree,
        Archiving, ContainerCommand, Replaced, Created;
      new_, at := 0, tick;
      ghost var from := tick;
      var start := Time();
      var deadline := start + COMMIT_DEADLINE;
      ghost var d0 := daemon;
      var wanted := Wanted(image, true, extra);
      WantedArchives(image, extra);
      var existing := GetExisting(false);
      if existing.None? {
        if NameFree(d0, PG_NAME) {
          NoneFound(d0);
        }
        var error;
        error, new_, at := CreateNew(wanted, deadline, from);
        CreatedEffect(d0, wanted, daemon);
        CreatedEffect(d0, wanted.(running := false), daemon);
        return if error.Some? then Err(error.value) else Ok(Enabled), new_, at;
      }
      var id := existing.value;
      FoundStep(daemon, Operation.Recreate, id);
      Reach(Reload(Operation.Recreate, id));
      var reloaded := Ask();
      ReloadStep(daemon, id);
      OnlyOne(daemon, id);
      if !reloaded {
        ReloadExplained(d0, id, from, tick);
        Reach(Leaving);
        return Err(ReloadFailed), new_, at;
      }
      if Archiving(daemon[id].command) {
        Reach(Leaving);
        return Ok(AlreadyEnabled), new_, at;
      }
      var error;
      error, new_, at := ReplaceExisting(id, wanted, deadline, from);
      if error.Some? {
        return Err(error.value), new_, at;
      }
      ReplacedEffect(d0, id, wanted, daemon);
      return Ok(Enabled), new_, at;
    }

    /** `retune`: a new container with new arguments, archiving kept as it was. */
    method Retune(image: string, extra: seq<string>) returns (r: Result<bool, Error>)
      requires UniqueNames(daemon)
      modifies this
      ensures old(locked) ==> r == Err(Busy) && locked && daemon == old(daemon)
      ensures !old(locked) ==> !locked && r != Err(Busy)
      ensures !old(locked) ==> At(Leaving) && trace[0] == Moment(old(daemon), Lookup(Operation.Recreate), old(tick))
      ensures r.Ok? ==> r.value == ArchivingOn(old(daemon)) && UpWith(daemon, r.value)
      ensures r.Ok? ==> (ArchivingOn(daemon) <==> r.value || Contains(ARCHIVE_MODE, Tag(image)) || AnyContains(extra))
      ensures r.Ok? ==> exists new_: nat, at: nat ::
                CameUp(old(daemon), old(tick), Wanted(image, r.value, extra), new_, at)
      ensures !old(locked) && r.Err? ==> Explained(r.error, old(daemon), old(tick), tick)
      ensures !old(locked) && AllWork(old(tick), tick) ==> !halfDone && !undoFailed
      ensures !old(locked) && r.Err? && !halfDone && !undoFailed ==>
                exists wal :: FailedOver(old(daemon), Wanted(image, wal, extra), daemon)
      ensures !halfDone && !undoFailed ==> Mutated(old(daemon), Tuning, daemon)
      ensures Safe(old(daemon)) ==> Safe(daemon)
    {
      hide UpWith, Ticks, Step, Course, UniqueNames, NameFree, Archiving, ContainerCommand;
      var free := Acquire(Operation.Recreate);
      if !free {
        return Err(Busy);
      }
      ghost var new_, at, d0, from := 0, 0, daemon, tick;
      r, new_, at := RetuneLocked(image, extra);
      LeavingSafe(trace);
      locked := false;
      if r.Ok? {
        WantedIsUp(daemon, new_, image, r.value, extra);
      }
      assert r.Ok? ==> CameUp(d0, from, Wanted(image, r.value, extra), new_, at);
    }

    method RetuneLocked(image: string, extra: seq<string>)
      returns (r: Result<bool, Error>, ghost new_: nat, ghost at: nat)
      requires UniqueNames(daemon) && At(Lookup(Operation.Recreate)) && !halfDone && !undoFailed
      modifies this`daemon, this`tick, this`halfDone, this`undoFailed, this`trace
      ensures At(Leaving) && trace[0] == old(trace)[0] && r != Err(Busy)
      ensures r.Ok? ==> r.value == ArchivingOn(old(daemon))
      ensures r.Ok? ==> (ArchivingOn(daemon) <==> r.value || Contains(ARCHIVE_MODE, Tag(image)) || AnyContains(extra))
      ensures r.Ok? ==> CameUp(old(daemon), old(tick), Wanted(image, r.value, extra), new_, at)
      ensures r.Err? ==> Explained(r.error, old(daemon), old(tick), tick)
      ensures AllWork(old(tick), tick) ==> !halfDone && !undoFailed
      ensures r.Err? && !halfDone && !undoFailed ==> exists wal :: FailedOver(old(daemon), Wanted(image, wal,
            extra), daemon)
      ensures r.Err? && !halfDone && !undoFailed && ArchivingOn(old(daemon)) ==> daemon == old(daemon)
    {
      hide Ticks, CameUp, Explained, Fails, AllWork, ArchivingOn, Step, Course, UniqueNames, NameFree,
        Archiving, ContainerCommand, Replaced, Created, Contains, AnyContains, Tag;
      new_, at := 0, tick;
      ghost var from := tick;
      var start := Time();
      var deadline := start + COMMIT_DEADLINE;
      ghost var d0 := daemon;
      var existing := GetExisting(false);
      if existing.None? {
        if NameFree(d0, PG_NAME) {
          NoneFound(d0);
        }
        var wanted := Wanted(image, false, extra);
        ArchivingExactly(image, false, extra);
        var error;
        error, new_, at := CreateNew(wanted, deadline, from);
        CreatedEffect(d0, wanted, daemon);
        CreatedEffect(d0, wanted.(running := false), daemon);
        assert FailedOver(d0, wanted, daemon) || error.None?;
        return if error.Some? then Err(error.value) else Ok(false), new_, at;
      }
      var id := existing.value;
      FoundStep(daemon, Operation.Recreate, id);
      Reach(Reload(Operation.Recreate, id));
      var reloaded := Ask();
      ReloadStep(daemon, id);
      OnlyOne(daemon, id);
      var wal := Archiving(daemon[id].command);
      var wanted := Wanted(image, wal, extra);
      ArchivingExactly(image, wal, extra);
      assert FailedOver(d0, wanted, d0);
      if !reloaded {
        ReloadExplained(d0, id, from, tick);
        Reach(Leaving);
        return Err(ReloadFailed), new_, at;
      }
      var error;
      error, new_, at := ReplaceExisting(id, wanted, deadline, from);
      if error.Some? {
        return Err(error.value), new_, at;
      }
      ReplacedEffect(d0, id, wanted, daemon);
      return Ok(wal), new_, at;
    }

    /** Why a bootstrap begun at `from` failed. */
    ghost predicate BootFailed(e: Error, d0: Daemon, from: nat)
    {
      if Fails(from) || NameFree(d0, PG_NAME) then
        e == CreateFailed && (Fails(from + 1) || !NameFree(d0, PG_NAME))
      else if Fails(from + 1) then e == ReloadFailed
      else e == CreateFailed && Fails(from + 2)
    }

    /** `bootstrap`: create the container if it is missing, start it if it is stopped. */
    method Bootstrap(image: string, extra: seq<string>) returns (r: Result<BootStatus, Error>)
      requires UniqueNames(daemon)
      modifies this
      ensures old(locked) ==> r == Err(Busy) && locked && daemon == old(daemon)
      ensures !old(locked) ==> !locked && r != Err(Busy)
      ensures !old(locked) ==> At(Leaving) && trace[0] == Moment(old(daemon), Lookup(Operation.Bootstrap), old(tick))
      ensures r == Ok(AlreadyRunning) ==> daemon == old(daemon)
      ensures !old(locked) ==>
                (r == Ok(AlreadyRunning) <==>
                   FoundRunning(old(daemon)) && !Fails(old(tick)) && !Fails(old(tick) + 1))
      ensures !old(locked) && AllWork(old(tick), tick) ==> r.Ok?
      ensures !old(locked) && r.Err? ==> BootFailed(r.error, old(daemon), old(tick))
      ensures r == Ok(Restarted) ==> TurnedOn(old(daemon), daemon)
      ensures r == Ok(Started) ==> Created(old(daemon), Wanted(image, false, extra), daemon) && UpWith(daemon, false)
      ensures r.Err? ==> FailedOver(old(daemon), Wanted(image, false, extra), daemon) || TurnedOn(old(daemon), daemon)
      ensures Mutated(old(daemon), Boot, daemon)
      ensures Safe(old(daemon)) ==> Safe(daemon)
    {
      hide UpWith, Ticks, Step, Course, UniqueNames, NameFree, ContainerCommand, Archiving, Created, FailedOver;
      ghost var d0 := daemon;
      UnchangedFailed(d0, Wanted(image, false, extra));
      var free := Acquire(Operation.Bootstrap);
      if !free {
        return Err(Busy);
      }
      r := BootstrapLocked(image, extra);
      LeavingSafe(trace);
      if r == Ok(Started) {
        CreatedIsUp(d0, image, extra, daemon);
      }
      BootKeepsArchiving(d0, Wanted(image, false, extra), daemon);
      locked := false;
    }

    method BootstrapLocked(image: string, extra: seq<string>) returns (r: Result<BootStatus, Error>)
      requires At(Lookup(Operation.Bootstrap)) && UniqueNames(daemon)
      modifies this`daemon, this`tick, this`halfDone, this`undoFailed, this`trace
      ensures At(Leaving) && trace[0] == old(trace)[0] && r != Err(Busy)
      ensures r == Ok(AlreadyRunning) ==> daemon == old(daemon)
      ensures r == Ok(AlreadyRunning) <==>
                FoundRunning(old(daemon)) && !Fails(old(tick)) && !Fails(old(tick) + 1)
      ensures AllWork(old(tick), tick) ==> r.Ok?
      ensures r.Err? ==> BootFailed(r.error, old(daemon), old(tick))
      ensures r == Ok(Restarted) ==> TurnedOn(old(daemon), daemon)
      ensures r == Ok(Started) ==> Created(old(daemon), Wanted(image, false, extra), daemon)
      ensures FailedOver(old(daemon), Wanted(image, false, extra), daemon) || TurnedOn(old(daemon), daemon)
    {
      hide Ticks, Step, Course, NameFree, ContainerCommand, UniqueNames, FoundRunning, Fails, Archiving, ArchivingOn;
      ghost var d0 := daemon;
      var existing := GetExisting(false);
      if existing.None? {
        if NameFree(d0, PG_NAME) {
          NoneFound(d0);
        }
        LookupStep(daemon, Operation.Bootstrap);
        Reach(BootRun);
        var new_ := FreshId(daemon, 0);
        var created := RunContainer(new_, Wanted(image, false, extra));
        BootRunStep(d0, new_, Wanted(image, false, extra), daemon, created);
        Reach(Leaving);
        return if created then Ok(Started) else Err(CreateFailed);
      }
      var id := existing.value;
      FoundStep(daemon, Operation.Bootstrap, id);
      Reach(Reload(Operation.Bootstrap, id));
      var reloaded := Ask();
      BootReloadStep(daemon, id);
      OnlyOne(daemon, id);
      NameTaken(d0, id);
      if !reloaded {
        Reach(Leaving);
        return Err(ReloadFailed);
      }
      if daemon[id].running {
        Reach(Leaving);
        return Ok(AlreadyRunning);
      }
      Reach(BootStart(id));
      var started := Switch(id, true, false);
      StartStep(d0, BootStart(id), id, daemon, started);
      Reach(Leaving);
      return if started then Ok(Restarted) else Err(CreateFailed);
    }
  }

  /** The container named berth_postgres was stopped and now runs. */
  ghost predicate TurnedOn(d: Daemon, d': Daemon)
  {
    exists id :: Named(d, id) && !d[id].running && d' == WithRunning(d, id, true)
  }

  /** A new container, and nothing else, was added. */
  ghost predicate Created(d: Daemon, c: Container, d': Daemon)
  {
    exists id: nat :: id !in d && NameFree(d, PG_NAME) && d' == d[id := c]
  }

  lemma CreatedIsUp(d: Daemon, image: string, extra: seq<string>, d': Daemon)
    requires Created(d, Wanted(image, false, extra), d')
    ensures UpWith(d', false)
  {
    hide Wanted, UpWith;
    var id: nat :| id !in d && d' == d[id := Wanted(image, false, extra)];
    WantedIsUp(d', id, image, false, extra);
  }

  /** Nothing changed, or, where there was no container yet, what `run` left behind. */
  ghost predicate FailedOver(d: Daemon, wanted: Container, d': Daemon)
  {
    d' == d || Created(d, wanted, d') || Created(d, wanted.(running := false), d')
  }

  /** The container named berth_postgres archives its WAL. */
  ghost predicate ArchivingOn(d: Daemon)
  {
    exists id :: Named(d, id) && Archiving(d[id].command)
  }

  lemma RunEffect(d: Daemon, id: nat, c: Container, d': Daemon, ok: bool)
    requires CreateCall(d, id, c, d', ok) && c.name == PG_NAME && c.running
    ensures FailedOver(d, c, d') && (ok ==> Created(d, c, d'))
  {}

  lemma UnchangedFailed(d: Daemon, wanted: Container)
    ensures FailedOver(d, wanted, d)
  {}

  lemma BootKeepsArchiving(d: Daemon, wanted: Container, d': Daemon)
    requires FailedOver(d, wanted, d') || TurnedOn(d, d')
    ensures ArchivingOn(d) ==> ArchivingOn(d')
  {
    hide Archiving;
    if ArchivingOn(d) {
      var id :| Named(d, id) && Archiving(d[id].command);
      assert Named(d', id) && d'[id].command == d[id].command;
    }
  }

  /** What a call on the shared Postgres, with no call half done and its undoing
      working, keeps: archiving once on stays on, and a successful `enable_pitr` turns
      it on. */
  datatype Mutation = Pitr(ok: bool) | Tuning | Boot

  ghost predicate Mutated(d: Daemon, m: Mutation, d': Daemon)
  {
    && (ArchivingOn(d) ==> ArchivingOn(d'))
    && (m == Pitr(true) ==> ArchivingOn(d'))
    && (m.Pitr? && ArchivingOn(d) ==> d' == d)
  }

  /** Over any run of calls: once `enable_pitr` has succeeded archiving is on after
      every later call, and `enable_pitr` again changes nothing. */
  lemma {:induction false} ArchivingStaysOn(daemons: seq<Daemon>, calls: seq<Mutation>, i: nat, j: nat)
    requires |daemons| == |calls| + 1
    requires forall k | 0 <= k < |calls| :: Mutated(daemons[k], calls[k], daemons[k + 1])
    requires i < j <= |calls| && calls[i] == Pitr(true)
    ensures ArchivingOn(daemons[j])
    ensures j < |calls| && calls[j].Pitr? ==> daemons[j + 1] == daemons[j]
    decreases j
  {
    hide ArchivingOn;
    assert Mutated(daemons[j - 1], calls[j - 1], daemons[j]);
    if i < j - 1 {
      ArchivingStaysOn(daemons, calls, i, j - 1);
    }
  }

  lemma OnlyNamed(d: Daemon, id: nat)
    requires UniqueNames(d) && Named(d, id)
    ensures forall i | Named(d, i) :: i == id
  {}

  lemma NoneNamed(d: Daemon, c: Container, d': Daemon)
    ensures Created(d, c, d') ==> forall i :: !Named(d, i)
  {}

  lemma NameTaken(d: Daemon, id: nat)
    requires Named(d, id)
    ensures !NameFree(d, PG_NAME)
  {}

  lemma NoneFound(d: Daemon)
    requires NameFree(d, PG_NAME)
    ensures !ArchivingOn(d) && !FoundRunning(d)
  {}

  ghost predicate FoundRunning(d: Daemon)
  {
    exists id :: Named(d, id) && d[id].running
  }

  lemma OnlyOne(d: Daemon, id: nat)
    requires UniqueNames(d) && Named(d, id)
    ensures ArchivingOn(d) <==> Archiving(d[id].command)
    ensures FoundRunning(d) <==> d[id].running
  {}

  lemma WantedArchives(image: string, extra: seq<string>)
    ensures Archiving(Wanted(image, true, extra).command)
  {
    ArchivingExactly(image, true, extra);
  }

  lemma CreatedEffect(d: Daemon, c: Container, d': Daemon)
    requires c.name == PG_NAME
    ensures Created(d, c, d') ==> !ArchivingOn(d) && (ArchivingOn(d') <==> Archiving(c.command))
  {
    hide Archiving;
    if Created(d, c, d') {
      var id: nat :| id !in d && NameFree(d, PG_NAME) && d' == d[id := c];
      assert Named(d', id);
    }
  }

  lemma ReplacedEffect(d: Daemon, id: nat, c: Container, d': Daemon)
    requires UniqueNames(d) && Named(d, id) && c.name == PG_NAME && Replaced(d, id, c, d')
    ensures ArchivingOn(d') <==> Archiving(c.command)
  {
    hide Archiving, RollbackName;
    var new_, shortId :| new_ !in d
      && (d' == (d - {id})[new_ := c]
          || d' == d[id := d[id].(name := RollbackName(shortId), running := false)][new_ := c]);
    RollbackNameDiffers(shortId);
    assert Named(d', new_);
    assert forall i | Named(d', i) :: i == new_;
  }

  lemma LeavingSafe(trace: seq<Moment>)
    requires Course(trace) && trace[0].at.Lookup?
    ensures Safe(trace[0].daemon) ==> Safe(trace[|trace| - 1].daemon)
  {
    hide Step, Safe;
    if Safe(trace[0].daemon) {
      LookupHolds(trace[0].daemon, trace[0].at.op);
      CourseKeepsSafe(trace);
    }
  }

  // The protocol's steps, one call each: what the methods above, which hide the whole
  // of Step, need to know of it where they make the call.

  lemma MayLeave(d: Daemon, at: Point)
    requires at.Image? || at.Lookup? || at.Reload? || at.CreateRun? || at.CreateWait?
    ensures Step(d, at, d, Leaving)
  {}

  lemma LookupStep(d: Daemon, op: Operation)
    ensures Step(d, Lookup(op), d, if op.Bootstrap? then BootRun else CreateRun)
  {}

  lemma FoundStep(d: Daemon, op: Operation, id: nat)
    requires Named(d, id)
    ensures Step(d, Lookup(op), d, Reload(op, id))
  {}

  lemma ReloadStep(d: Daemon, id: nat)
    requires id in d
    ensures Step(d, Reload(Operation.Recreate, id), d, Leaving)
    ensures Step(d, Reload(Operation.Recreate, id), d, Image(id, d[id].running))
  {}

  lemma BootReloadStep(d: Daemon, id: nat)
    requires id in d
    ensures Step(d, Reload(Operation.Bootstrap, id), d, Leaving)
    ensures !d[id].running ==> Step(d, Reload(Operation.Bootstrap, id), d, BootStart(id))
  {}

  lemma BootRunStep(d: Daemon, id: nat, wanted: Container, d': Daemon, ok: bool)
    requires CreateCall(d, id, wanted, d', ok) && wanted.name == PG_NAME && wanted.running && OnData(wanted)
    ensures Step(d, BootRun, d', Leaving)
  {
    assert RunCall(d, id, d', ok);
  }

  lemma CreateStep(d: Daemon, id: nat, wanted: Container, d': Daemon, ok: bool)
    requires CreateCall(d, id, wanted, d', ok) && wanted.name == PG_NAME && wanted.running && OnData(wanted)
    ensures Step(d, CreateRun, d', if ok then CreateWait(id) else Leaving)
  {
    assert RunCall(d, id, d', ok);
  }

  lemma CreateDropStep(d: Daemon, id: nat)
    ensures Step(d, CreateWait(id), d, CreateDrop(id))
  {}

  lemma DropNewStep(d: Daemon, id: nat, d': Daemon, ok: bool)
    requires RemoveCall(d, id, d', ok)
    ensures Step(d, CreateDrop(id), d', Leaving)
  {}

  lemma GoOn(d: Daemon, id: nat, was: bool)
    ensures Step(d, Image(id, was), d, if was then Stop(id) else Rename(id, false))
  {}

  lemma StopStep(d: Daemon, id: nat, d': Daemon, ok: bool)
    requires SwitchCall(d, id, false, d', ok)
    ensures Step(d, Stop(id), d', if ok then Rename(id, true) else Leaving)
  {}

  lemma RenameStep(d: Daemon, id: nat, was: bool, shortId: string, d': Daemon, ok: bool)
    requires RenameCall(d, id, RollbackName(shortId), d', ok)
    ensures Step(d, Rename(id, was), d', if ok then Replace(id, was) else if was then Restart(id) else Leaving)
  {}

  lemma StartStep(d: Daemon, at: Point, id: nat, d': Daemon, ok: bool)
    requires at == Restart(id) || at == StartBack(id) || at == BootStart(id)
    requires SwitchCall(d, id, true, d', ok)
    ensures Step(d, at, d', Leaving)
  {}

  lemma RunStep(d: Daemon, id: nat, was: bool, new_: nat, wanted: Container, d': Daemon, ok: bool)
    requires CreateCall(d, new_, wanted, d', ok) && new_ != id
    requires wanted.name == PG_NAME && wanted.running && OnData(wanted)
    ensures Step(d, Replace(id, was), d', if ok then Wait(id, was) else FindPartial(id, was))
  {
    assert RunCall(d, new_, d', ok);
  }

  lemma WaitStep(d: Daemon, id: nat, was: bool)
    ensures Step(d, Wait(id, was), d, Commit(id)) && Step(d, Wait(id, was), d, FindPartial(id, was))
  {}

  lemma CommitStep(d: Daemon, id: nat, d': Daemon, ok: bool)
    requires RemoveCall(d, id, d', ok)
    ensures Step(d, Commit(id), d', Leaving)
  {}

  lemma FindStep(d: Daemon, id: nat, was: bool, partial: nat)
    requires Named(d, partial)
    ensures Step(d, FindPartial(id, was), d, DropPartial(id, was, partial))
  {}

  lemma FindNone(d: Daemon, id: nat, was: bool)
    ensures Step(d, FindPartial(id, was), d, RenameBack(id, was))
  {}

  lemma DropStep(d: Daemon, id: nat, was: bool, partial: nat, d': Daemon, ok: bool)
    requires RemoveCall(d, partial, d', ok)
    ensures Step(d, DropPartial(id, was, partial), d', RenameBack(id, was))
  {}

  lemma RenameBackStep(d: Daemon, id: nat, was: bool, d': Daemon, ok: bool)
    requires RenameCall(d, id, PG_NAME, d', ok)
    ensures Step(d, RenameBack(id, was), d', if ok && was then StartBack(id) else Leaving)
  {}
}
