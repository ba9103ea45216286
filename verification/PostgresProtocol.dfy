/** The daemon calls a Postgres mutation makes, one at a time, and what any number
    of threads running them under the mutation lock keep true. */
module PostgresProtocol {
  import opened Docker
  import opened Text

  const PG_NAME := "berth_postgres"
  const PG_DATA := "_pg_data"

  datatype Operation = Bootstrap | Recreate

  /** Where a mutation stands: the call it makes next. `was` is whether the existing
      container was found running. */
  datatype Point =
    | Lookup(op: Operation)
    | Reload(op: Operation, id: nat)
    | BootStart(id: nat)
    | BootRun
    | CreateRun
    | CreateWait(new_: nat)
    | CreateDrop(new_: nat)
    | Image(id: nat, was: bool)
    | Stop(id: nat)
    | Rename(id: nat, was: bool)
    | Restart(id: nat)
    | Replace(id: nat, was: bool)
    | Wait(id: nat, was: bool)
    | Commit(id: nat)
    | FindPartial(id: nat, was: bool)
    | DropPartial(id: nat, was: bool, partial: nat)
    | RenameBack(id: nat, was: bool)
    | StartBack(id: nat)
    | Leaving

  function RollbackName(shortId: string): string
  {
    PG_NAME + "_rollback_" + shortId
  }

  predicate OnData(c: Container)
  {
    PG_DATA in c.mounts
  }

  ghost predicate RunCall(d: Daemon, id: nat, d': Daemon, ok: bool)
  {
    exists c: Container :: c.name == PG_NAME && c.running && OnData(c) && CreateCall(d, id, c, d', ok)
  }

  ghost predicate Named(d: Daemon, id: nat)
  {
    id in d && d[id].name == PG_NAME
  }

  /** One daemon call of a mutation, whatever its outcome. Checks against the clock,
      the image pull and the readiness polls only choose where to go on. */
  ghost predicate Step(d: Daemon, at: Point, d': Daemon, next: Point)
  {
    match at
    case Lookup(op) =>
      d' == d && (next == Leaving || next == (if op.Bootstrap? then BootRun else CreateRun)
                  || exists id :: Named(d, id) && next == Reload(op, id))
    case Reload(op, id) =>
      d' == d && (next == Leaving
                  || (id in d && op.Bootstrap? && !d[id].running && next == BootStart(id))
                  || (id in d && op.Recreate? && next == Image(id, d[id].running)))
    case BootStart(id) => next == Leaving && exists ok :: SwitchCall(d, id, true, d', ok)
    case BootRun => next == Leaving && exists id, ok :: RunCall(d, id, d', ok)
    case CreateRun =>
      (d' == d && next == Leaving)
      || exists id, ok :: RunCall(d, id, d', ok) && next == if ok then CreateWait(id) else Leaving
    case CreateWait(id) => d' == d && (next == Leaving || next == CreateDrop(id))
    case CreateDrop(id) => next == Leaving && exists ok :: RemoveCall(d, id, d', ok)
    case Image(id, was) => d' == d && (next == Leaving || next == if was then Stop(id) else Rename(id, false))
    case Stop(id) => exists ok :: SwitchCall(d, id, false, d', ok) && next == if ok then Rename(id, true) else Leaving
    case Rename(id, was) =>
      exists shortId, ok :: RenameCall(d, id, RollbackName(shortId), d', ok)
                            && next == if ok then Replace(id, was) else if was then Restart(id) else Leaving
    case Restart(id) => next == Leaving && exists ok :: SwitchCall(d, id, true, d', ok)
    case Replace(id, was) =>
      exists new_, ok :: new_ != id && RunCall(d, new_, d', ok) && next == if ok then Wait(id,
            was) else FindPartial(id, was)
    case Wait(id, was) => d' == d && (next == Commit(id) || next == FindPartial(id, was))
    case Commit(id) => next == Leaving && exists ok :: RemoveCall(d, id, d', ok)
    case FindPartial(id, was) =>
      d' == d && (next == RenameBack(id, was) || exists p :: Named(d, p) && next == DropPartial(id, was, p))
    case DropPartial(id, was, p) => next == RenameBack(id, was) && exists ok :: RemoveCall(d, p, d', ok)
    case RenameBack(id, was) =>
      exists ok :: RenameCall(d, id, PG_NAME, d', ok) && next == if ok && was then StartBack(id) else Leaving
    case StartBack(id) => next == Leaving && exists ok :: SwitchCall(d, id, true, d', ok)
    case Leaving => false
  }

  /** No Postgres runs on the data directory under any name but its own. */
  ghost predicate Safe(d: Daemon)
  {
    UniqueNames(d) && forall i | i in d && d[i].running && OnData(d[i]) :: d[i].name == PG_NAME
  }

  /** What a mutation relies on at each point. */
  ghost predicate Holds(d: Daemon, at: Point)
  {
    match at
    case Reload(_, id) => id in d ==> d[id].name == PG_NAME
    case BootStart(id) => id in d ==> d[id].name == PG_NAME
    case Image(id, was) => id in d ==> d[id].name == PG_NAME && (d[id].running ==> was)
    case Stop(id) => id in d ==> d[id].name == PG_NAME
    case Rename(id, _) => id in d ==> d[id].name == PG_NAME && !d[id].running
    case Restart(id) => id in d ==> d[id].name == PG_NAME
    case Replace(id, _) => id in d ==> !d[id].running
    case Wait(id, _) => id in d ==> !d[id].running
    case FindPartial(id, _) => id in d ==> !d[id].running
    case DropPartial(id, _, _) => id in d ==> !d[id].running
    case RenameBack(id, _) => id in d ==> !d[id].running
    case StartBack(id) => id in d ==> d[id].name == PG_NAME
    case _ => true
  }

  lemma RollbackNameDiffers(shortId: string)
    ensures RollbackName(shortId) != PG_NAME
  {
    assert |RollbackName(shortId)| > |PG_NAME|;
  }

  lemma AddKeepsSafe(d: Daemon, id: nat, c: Container)
    requires Safe(d) && id !in d && NameFree(d, c.name) && c.name == PG_NAME
    ensures Safe(d[id := c])
  {}

  lemma RunKeepsSafe(d: Daemon, id: nat, d': Daemon, ok: bool)
    requires Safe(d) && RunCall(d, id, d', ok)
    ensures Safe(d') && id !in d
    ensures forall i | i in d :: i in d' && d'[i] == d[i]
    ensures forall i | i in d' :: i in d || i == id
  {
    hide Safe, NameFree;
    var c: Container :| c.name == PG_NAME && c.running && OnData(c) && CreateCall(d, id, c, d', ok);
    if d' != d {
      AddKeepsSafe(d, id, c);
      AddKeepsSafe(d, id, c.(running := false));
    }
  }

  lemma SwitchKeepsSafe(d: Daemon, id: nat, running: bool, d': Daemon, ok: bool)
    requires Safe(d) && SwitchCall(d, id, running, d', ok)
    requires running && id in d ==> d[id].name == PG_NAME
    ensures Safe(d')
  {}

  lemma RenameKeepsSafe(d: Daemon, id: nat, name: string, d': Daemon, ok: bool)
    requires Safe(d) && RenameCall(d, id, name, d', ok)
    requires id in d ==> !d[id].running
    ensures Safe(d')
  {}

  lemma RemoveKeepsSafe(d: Daemon, id: nat, d': Daemon, ok: bool)
    requires Safe(d) && RemoveCall(d, id, d', ok)
    ensures Safe(d')
  {}

  predicate SetAside(at: Point)
  {
    at.Replace? || at.Wait? || at.Commit? || at.FindPartial? || at.DropPartial? || at.RenameBack? || at.StartBack?
  }

  /** From the lookup to the rename. */
  lemma FirstStepsKeepSafe(d: Daemon, at: Point, d': Daemon, next: Point)
    requires Safe(d) && Holds(d, at) && Step(d, at, d', next) && !SetAside(at)
    ensures Safe(d') && Holds(d', next)
  {
    hide Safe, UniqueNames, RunCall, RollbackName;
    match at
    case BootStart(id) =>
      var ok :| SwitchCall(d, id, true, d', ok);
      SwitchKeepsSafe(d, id, true, d', ok);
    case BootRun =>
      var id, ok :| RunCall(d, id, d', ok);
      RunKeepsSafe(d, id, d', ok);
    case CreateRun =>
      if d' != d || next != Leaving {
        var id, ok :| RunCall(d, id, d', ok) && next == if ok then CreateWait(id) else Leaving;
        RunKeepsSafe(d, id, d', ok);
      }
    case CreateDrop(id) =>
      var ok :| RemoveCall(d, id, d', ok);
      RemoveKeepsSafe(d, id, d', ok);
    case Stop(id) =>
      var ok :| SwitchCall(d, id, false, d', ok) && next == if ok then Rename(id, true) else Leaving;
      SwitchKeepsSafe(d, id, false, d', ok);
    case Rename(id, was) =>
      var shortId, ok :| RenameCall(d, id, RollbackName(shortId), d', ok)
                         && next == if ok then Replace(id, was) else if was then Restart(id) else Leaving;
      RenameKeepsSafe(d, id, RollbackName(shortId), d', ok);
    case Restart(id) =>
      var ok :| SwitchCall(d, id, true, d', ok);
      SwitchKeepsSafe(d, id, true, d', ok);
    case _ =>
  }

  lemma ReplaceStepKeepsSafe(d: Daemon, id: nat, was: bool, d': Daemon, next: Point)
    requires Safe(d) && Holds(d, Replace(id, was)) && Step(d, Replace(id, was), d', next)
    ensures Safe(d') && Holds(d', next)
  {
    hide Safe, UniqueNames, RunCall, RollbackName;
    var new_, ok :| new_ != id && RunCall(d, new_, d', ok)
                    && next == if ok then Wait(id, was) else FindPartial(id, was);
    RunKeepsSafe(d, new_, d', ok);
  }

  lemma RenameBackKeepsSafe(d: Daemon, id: nat, was: bool, d': Daemon, next: Point)
    requires Safe(d) && Holds(d, RenameBack(id, was)) && Step(d, RenameBack(id, was), d', next)
    ensures Safe(d') && Holds(d', next)
  {
    hide Safe, UniqueNames, RunCall, RollbackName;
    var ok :| RenameCall(d, id, PG_NAME, d', ok) && next == if ok && was then StartBack(id) else Leaving;
    RenameKeepsSafe(d, id, PG_NAME, d', ok);
  }

  /** With the existing container set aside. */
  lemma LaterStepsKeepSafe(d: Daemon, at: Point, d': Daemon, next: Point)
    requires Safe(d) && Holds(d, at) && Step(d, at, d', next) && SetAside(at)
    ensures Safe(d') && Holds(d', next)
  {
    hide Safe, UniqueNames, RunCall, RollbackName;
    match at
    case Replace(id, was) => ReplaceStepKeepsSafe(d, id, was, d', next);
    case Commit(id) =>
      var ok :| RemoveCall(d, id, d', ok);
      RemoveKeepsSafe(d, id, d', ok);
    case DropPartial(id, was, p) =>
      var ok :| RemoveCall(d, p, d', ok);
      RemoveKeepsSafe(d, p, d', ok);
    case RenameBack(id, was) => RenameBackKeepsSafe(d, id, was, d', next);
    case StartBack(id) =>
      var ok :| SwitchCall(d, id, true, d', ok);
      SwitchKeepsSafe(d, id, true, d', ok);
    case _ =>
  }

  /** Every call of a mutation, succeeding or failing either way, keeps the data
      directory safe and what the mutation relies on next. */
  lemma StepKeepsSafe(d: Daemon, at: Point, d': Daemon, next: Point)
    requires Safe(d) && Holds(d, at) && Step(d, at, d', next)
    ensures Safe(d') && Holds(d', next)
  {
    hide Safe, Holds, Step;
    if SetAside(at) {
      LaterStepsKeepSafe(d, at, d', next);
    } else {
      FirstStepsKeepSafe(d, at, d', next);
    }
  }

  /** Containers stopping or disappearing on their own break nothing either. */
  lemma OutsideKeepsSafe(d: Daemon, d': Daemon, at: Point)
    requires Safe(d) && Holds(d, at) && OutsideChange(d, d')
    ensures Safe(d') && Holds(d', at)
  {
    var id :| d' == d - {id} || d' == WithRunning(d, id, false);
  }

  // Threads under the lock

  /** The daemon, the thread holding the mutation lock, and how far each thread in
      the middle of a mutation has come. */
  datatype System = System(daemon: Daemon, holder: Option<nat>, points: map<nat, Point>)

  datatype Action = Acquire(thread: nat) | Call(thread: nat) | Release(thread: nat) | Outside

  /** A thread that finds the lock taken raises without touching anything, which is
      no step at all. */
  ghost predicate Next(s: System, a: Action, s': System)
  {
    match a
    case Acquire(t) =>
      && s.holder.None? && t !in s.points
      && exists op :: s' == System(s.daemon, Some(t), s.points[t := Lookup(op)])
    case Call(t) =>
      && t in s.points && s'.holder == s.holder
      && exists next :: Step(s.daemon, s.points[t], s'.daemon, next) && s'.points == s.points[t := next]
    case Release(t) =>
      t in s.points && s.points[t].Leaving? && s' == System(s.daemon, None, s.points - {t})
    case Outside =>
      OutsideChange(s.daemon, s'.daemon) && s'.holder == s.holder && s'.points == s.points
  }

  ghost predicate Invariant(s: System)
  {
    && Safe(s.daemon)
    && forall t | t in s.points :: s.holder == Some(t) && Holds(s.daemon, s.points[t])
  }

  lemma NextKeepsInvariant(s: System, a: Action, s': System)
    requires Invariant(s) && Next(s, a, s')
    ensures Invariant(s')
  {
    hide Safe, Step, Holds, OutsideChange;
    match a
    case Acquire(t) =>
      var op :| s' == System(s.daemon, Some(t), s.points[t := Lookup(op)]);
      LookupHolds(s.daemon, op);
    case Call(t) =>
      var next :| Step(s.daemon, s.points[t], s'.daemon, next) && s'.points == s.points[t := next];
      StepKeepsSafe(s.daemon, s.points[t], s'.daemon, next);
    case Release(t) =>
    case Outside =>
      OutsideSafe(s.daemon, s'.daemon);
      forall t | t in s.points ensures Holds(s'.daemon, s.points[t]) {
        OutsideKeepsSafe(s.daemon, s'.daemon, s.points[t]);
      }
  }

  lemma LookupHolds(d: Daemon, op: Operation)
    ensures Holds(d, Lookup(op))
  {}

  lemma OutsideSafe(d: Daemon, d': Daemon)
    requires Safe(d) && OutsideChange(d, d')
    ensures Safe(d')
  {
    LookupHolds(d, Bootstrap);
    OutsideKeepsSafe(d, d', Lookup(Bootstrap));
  }

  /** Any interleaving of any number of mutations, calls failing anywhere. */
  ghost predicate Run(states: seq<System>, actions: seq<Action>)
  {
    && |states| == |actions| + 1
    && Safe(states[0].daemon) && states[0].holder.None? && states[0].points == map[]
    && forall i | 0 <= i < |actions| :: Next(states[i], actions[i], states[i + 1])
  }

  lemma {:induction false} RunInvariant(states: seq<System>, actions: seq<Action>, i: nat)
    requires Run(states, actions) && i < |states|
    ensures Invariant(states[i])
    decreases i
  {
    hide Safe, Invariant, Next;
    if i == 0 {
      StartInvariant(states[0]);
    } else {
      RunInvariant(states, actions, i - 1);
      NextKeepsInvariant(states[i - 1], actions[i - 1], states[i]);
    }
  }

  lemma StartInvariant(s: System)
    requires Safe(s.daemon) && s.points == map[]
    ensures Invariant(s)
  {}

  /** In every state of every run, at most one thread is mutating, every container
      running on the data directory is the one named berth_postgres, and so there
      is never a second one, even when removing a failed replacement fails. */
  lemma NeverTwoServers(states: seq<System>, actions: seq<Action>, i: nat, a: nat, b: nat)
    requires Run(states, actions) && i < |states|
    ensures forall t, u | t in states[i].points && u in states[i].points :: t == u
    ensures var d := states[i].daemon;
            && (a in d && d[a].running && OnData(d[a]) ==> d[a].name == PG_NAME)
            && (a in d && b in d && d[a].running && d[b].running && OnData(d[a]) && OnData(d[b]) ==> a == b)
  {
    RunInvariant(states, actions, i);
    assert Safe(states[i].daemon);
  }

  /** The safety does rest on `rename` being all or nothing: were the forward rename
      reported as failed although applied, the restart that follows would run the old
      server under its rollback name. */
  lemma HalfRenameIsUnsafe(d: Daemon, id: nat, shortId: string, d': Daemon)
    requires Safe(d) && Named(d, id) && !d[id].running && OnData(d[id])
    requires SwitchCall(WithName(d, id, RollbackName(shortId)), id, true, d', true)
    ensures !Safe(d')
  {
    RollbackNameDiffers(shortId);
    assert id in d' && d'[id].running && OnData(d'[id]);
  }
}
