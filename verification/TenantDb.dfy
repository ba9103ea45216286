/** A tenant's own Postgres: created, replaced with its predecessor set aside, put back
    when the replacement fails, removed (`TenantDbCommands`). Calls for one tenant are
    sequential: the code holds no lock. */
module TenantDb {
  import opened Text
  import opened Docker
  import opened TenantNames
  import opened TenantState

  const READY_TIMEOUT := 90.0

  class TenantDbCommands {
    const oracle: nat -> Event
    /** Which containers would answer `pg_isready` at each moment. */
    const answers: (nat, nat) -> bool
    const clock: Clock
    var world: World
    /** The present moment: each call takes one, a sleep as many as it needs. */
    var tick: nat
    /** The put-back of the call under way failed. */
    ghost var undoFailed: bool
    /** The server when a container last answered `pg_isready`, and when that was. */
    ghost var answered: World
    ghost var answeredAt: nat

    ghost predicate Valid()
      reads this`world
    {
      Sound(world.daemon)
    }

    constructor (oracle: nat -> Event, answers: (nat, nat) -> bool, clock: Clock, world: World)
      requires Sound(world.daemon)
      ensures Valid() && this.world == world
    {
      this.oracle, this.answers, this.clock, this.world := oracle, answers, clock, world;
      tick, undoFailed, answered, answeredAt := 0, false, world, 0;
    }

    /** The call made at this moment fails. */
    ghost predicate Fails(k: nat)
    {
      !oracle(k).outcome.Works?
    }

    ghost predicate AllWork(from: nat, until: nat)
    {
      forall k | from <= k < until :: !Fails(k)
    }

    method NextEvent() returns (e: Event)
      modifies this`tick
      ensures e == oracle(old(tick)) && tick == old(tick) + 1
    {
      e := oracle(tick);
      tick := tick + 1;
    }

    /** A call that only asks. */
    method Ask() returns (ok: bool)
      modifies this`tick
      ensures tick == old(tick) + 1 && ok == !Fails(old(tick))
    {
      var e := NextEvent();
      ok := e.outcome.Works?;
    }

    /** `containers.get(name)` */
    method Get(name: string) returns (r: Result<nat, Error>)
      modifies this`tick
      ensures tick == old(tick) + 1
      ensures match r
              case Ok(id) => id in world.daemon && world.daemon[id].name == name && !Fails(old(tick))
              case Err(Missing) => NameFree(world.daemon, name) && !Fails(old(tick))
              case Err(e) => e == LookupFailed && Fails(old(tick))
    {
      var ok := Ask();
      if !ok {
        return Err(LookupFailed);
      }
      if NameFree(world.daemon, name) {
        return Err(Missing);
      }
      var id :| id in world.daemon && world.daemon[id].name == name;
      r := Ok(id);
    }

    method Switch(id: nat, running: bool) returns (ok: bool)
      requires id in world.daemon
      modifies this`world, this`tick
      ensures tick == old(tick) + 1 && ok == !Fails(old(tick))
      ensures SwitchCall(old(world).daemon, id, running, world.daemon,
            ok) && world == old(world).(daemon := world.daemon)
    {
      var e := NextEvent();
      ok := e.outcome.Works?;
      if !e.outcome.FailsBefore? {
        world := world.(daemon := WithRunning(world.daemon, id, running));
      }
    }

    method RemoveContainer(id: nat) returns (ok: bool)
      requires id in world.daemon
      modifies this`world, this`tick
      ensures tick == old(tick) + 1 && ok == !Fails(old(tick))
      ensures RemoveCall(old(world).daemon, id, world.daemon, ok) && world == old(world).(daemon := world.daemon)
    {
      var e := NextEvent();
      ok := e.outcome.Works?;
      if !e.outcome.FailsBefore? {
        world := world.(daemon := world.daemon - {id});
      }
    }

    /** All or nothing, as for the shared Postgres. */
    method RenameTo(id: nat, name: string) returns (ok: bool)
      modifies this`world, this`tick
      ensures tick == old(tick) + 1
      ensures id in old(world).daemon ==> (ok <==> !Fails(old(tick)) && NameFree(old(world).daemon, name))
      ensures RenameCall(old(world).daemon, id, name, world.daemon, ok) && world == old(world).(daemon := world.daemon)
    {
      var e := NextEvent();
      ok := e.outcome.Works? && id in world.daemon && NameFree(world.daemon, name);
      if ok {
        world := world.(daemon := WithName(world.daemon, id, name));
      }
    }

    /** `containers.create`: the daemon also makes the volumes it mounts. */
    method CreateContainer(c: Container) returns (id: nat, ok: bool)
      modifies this`world, this`tick
      ensures tick == old(tick) + 1 && (ok <==> !Fails(old(tick)) && NameFree(old(world).daemon, c.name))
      ensures Added(old(world).daemon, id, c, world.daemon) || (!ok && world.daemon == old(world).daemon)
      ensures old(world).volumes <= world.volumes <= old(world).volumes + c.mounts
      ensures ok ==> c.mounts <= world.volumes
      ensures world.networks == old(world).networks
    {
      id := FreshId(world.daemon, 0);
      var e := NextEvent();
      ok := e.outcome.Works? && NameFree(world.daemon, c.name);
      if !e.outcome.FailsBefore? && NameFree(world.daemon, c.name) {
        world := world.(daemon := world.daemon[id := c], volumes := world.volumes + c.mounts);
      }
    }

    /** Refused while a container mounts it. */
    method RemoveVolume(volume: string) returns (ok: bool)
      modifies this`world, this`tick
      ensures tick >= old(tick)
      ensures world == old(world).(volumes := world.volumes)
      ensures world.volumes == old(world).volumes || world.volumes == old(world).volumes - {volume}
      ensures ok ==> volume !in world.volumes
      ensures AllWork(old(tick), tick) ==> (ok <==> volume !in old(world).volumes || Unmounted(world.daemon, volume))
    {
      ok := Ask();
      if ok && volume in world.volumes {
        var e := NextEvent();
        var free := Unmounted(world.daemon, volume);
        ok := e.outcome.Works? && free;
        assert Fails(tick - 1) <==> !e.outcome.Works?;
        if !e.outcome.FailsBefore? && free {
          world := world.(volumes := world.volumes - {volume});
        }
      }
    }

    /** What an earlier call left set aside goes first. */
    method ClearOld(slug: string) returns (ok: bool)
      requires Valid() && ValidSlug(slug)
      modifies this`world, this`tick
      ensures tick > old(tick) && (if ok then AllWork(old(tick), tick) else Fails(tick - 1))
      ensures Valid() && OnlyOwn(old(world).daemon, slug, world.daemon) && world == old(world).(daemon := world.daemon)
      ensures world.daemon == Cleared(old(world).daemon, slug) || (!ok && world.daemon == old(world).daemon)
    {
      hide UniqueNames, AsideStopped, IsAside, NameFree, ContainerName, OldName, ValidSlug;
      ghost var d0 := world.daemon;
      var left := Get(OldName(slug));
      if left.Ok? {
        ok := RemoveContainer(left.value);
        RemoveKeeps(d0, left.value, slug, world.daemon, ok);
        WithoutOne(d0, left.value, OldName(slug));
      } else {
        ok := left.error == Missing;
        if ok {
          WithoutNone(d0, OldName(slug));
        }
      }
    }

    /** `_set_aside` */
    method SetAside(slug: string) returns (r: Result<Option<nat>, Error>)
      requires Valid() && ValidSlug(slug)
      modifies this`world, this`tick
      ensures tick > old(tick) && (if r.Ok? then AllWork(old(tick), tick) else Fails(tick - 1))
      ensures Valid() && OthersKept(old(world), slug, world) && world == old(world).(daemon := world.daemon)
      ensures var d, d' := Cleared(old(world).daemon, slug), world.daemon;
              match r
              case Ok(None) => NameFree(d, ContainerName(slug)) && d' == d
              case Ok(Some(id)) => Named(d, id, slug) && d' == Aside(d, id, slug)
              case Err(ClearFailed) => d' == old(world).daemon || d' == d
              case Err(LookupFailed) => d' == d
              case Err(e) =>
                && (e == StopFailed || e == RenameFailed)
                && exists id: nat | Named(d, id, slug) ::
                     d' == WithRunning(d, id, false) || (e == StopFailed && d' == d)
    {
      hide UniqueNames, AsideStopped, IsAside, NameFree, ContainerName, OldName, ValidSlug, Cleared, OnlyOwn;
      ghost var d0 := world.daemon;
      var cleared := ClearOld(slug);
      if !cleared {
        return Err(ClearFailed);
      }
      ghost var d := world.daemon;
      var current := Get(ContainerName(slug));
      if current == Err(Missing) {
        return Ok(None);
      }
      if current.Err? {
        return Err(LookupFailed);
      }
      var id := current.value;
      var stopped := Switch(id, false);
      ghost var d1 := world.daemon;
      SwitchKeeps(d, id, slug, false, d1, stopped);
      OnlyOwnTransitive(d0, slug, d, d1);
      if !stopped {
        return Err(StopFailed);
      }
      StillFree(d0, id, slug);
      var renamed := RenameTo(id, OldName(slug));
      RenameKeeps(d1, id, slug, OldName(slug), world.daemon, renamed);
      OnlyOwnTransitive(d0, slug, d1, world.daemon);
      if !renamed {
        return Err(RenameFailed);
      }
      assert world.daemon == Aside(d, id, slug);
      r := Ok(Some(id));
    }

    /** Whatever bears the tenant's name is removed. */
    method FreeName(slug: string) returns (ok: bool)
      requires Valid() && ValidSlug(slug)
      modifies this`world, this`tick
      ensures tick > old(tick) && (if ok then AllWork(old(tick), tick) else Fails(tick - 1))
      ensures Valid() && OthersKept(old(world), slug, world) && world == old(world).(daemon := world.daemon)
      ensures world.daemon == Without(old(world).daemon,
            ContainerName(slug)) || (!ok && world.daemon == old(world).daemon)
    {
      hide UniqueNames, AsideStopped, IsAside, NameFree, ContainerName, OldName, ValidSlug, OnlyOwn;
      ghost var d := world.daemon;
      SameKept(world, slug);
      var found := Get(ContainerName(slug));
      if found.Ok? {
        ok := RemoveContainer(found.value);
        RemoveKeeps(d, found.value, slug, world.daemon, ok);
        WithoutOne(d, found.value, ContainerName(slug));
      } else {
        ok := found.error == Missing;
        if ok {
          WithoutNone(d, ContainerName(slug));
        }
      }
    }

    /** `_put_back` */
    method PutBack(slug: string, id: nat) returns (ok: bool)
      requires Valid() && ValidSlug(slug) && id in world.daemon && world.daemon[id].name == OldName(slug)
      modifies this`world, this`tick, this`undoFailed
      ensures tick > old(tick) && (if ok then AllWork(old(tick), tick) else Fails(tick - 1))
      ensures undoFailed == (old(undoFailed) || !ok)
      ensures Valid() && OthersKept(old(world), slug, world) && world == old(world).(daemon := world.daemon)
      ensures ok ==> world.daemon == Restored(old(world).daemon, id, slug)
      ensures id in world.daemon && SameBut(world.daemon[id], old(world).daemon[id])
    {
      hide UniqueNames, AsideStopped, IsAside, NameFree, ContainerName, OldName, ValidSlug, OnlyOwn;
      ok := this.TryPutBack(slug, id);
      undoFailed := undoFailed || !ok;
    }

    method TryPutBack(slug: string, id: nat) returns (ok: bool)
      requires Valid() && ValidSlug(slug) && id in world.daemon && world.daemon[id].name == OldName(slug)
      modifies this`world, this`tick
      ensures tick > old(tick) && (if ok then AllWork(old(tick), tick) else Fails(tick - 1))
      ensures Valid() && OthersKept(old(world), slug, world) && world == old(world).(daemon := world.daemon)
      ensures ok ==> world.daemon == Restored(old(world).daemon, id, slug)
      ensures id in world.daemon && SameBut(world.daemon[id], old(world).daemon[id])
    {
      hide UniqueNames, AsideStopped, IsAside, NameFree, ContainerName, OldName, ValidSlug, OnlyOwn;
      ghost var d := world.daemon;
      StoppedAside(d, id, slug);
      WithoutFree(d, ContainerName(slug));
      ok := FreeName(slug);
      if !ok {
        return;
      }
      ghost var d1 := world.daemon;
      var renamed := RenameTo(id, ContainerName(slug));
      ghost var d2 := world.daemon;
      RenameKeeps(d1, id, slug, ContainerName(slug), d2, renamed);
      OnlyOwnTransitive(d, slug, d1, d2);
      if !renamed {
        return false;
      }
      ok := Switch(id, true);
      SwitchKeeps(d2, id, slug, true, world.daemon, ok);
      OnlyOwnTransitive(d, slug, d2, world.daemon);
    }

    lemma NameTaken(d: Daemon, id: nat, slug: string)
      requires Named(d, id, slug)
      ensures !NameFree(d, ContainerName(slug))
    {}

    lemma RunsIf(d: Daemon, slug: string)
      requires UniqueNames(d)
      ensures forall id | Named(d, id, slug) :: RunsAlready(d, slug) <==> d[id].running
      ensures NameFree(d, ContainerName(slug)) ==> !RunsAlready(d, slug)
    {
      hide ContainerName;
    }

    /** When `_create_or_get`, begun at `t`, has the container: looked up, or created with
        the image found, or pulled if it was not. */
    ghost function HasContainer(d: Daemon, slug: string, t: nat): nat
    {
      if !NameFree(d, ContainerName(slug)) then t + 1 else if oracle(t + 1).flag then t + 3 else t + 4
    }

    /** When the wait for it begins: it was reloaded, and started unless it ran. */
    ghost function WaitBegins(d: Daemon, slug: string, t: nat): nat
    {
      HasContainer(d, slug, t) + if RunsAlready(d, slug) then 1 else 2
    }

    ghost predicate RunsAlready(d: Daemon, slug: string)
    {
      exists id :: Named(d, id, slug) && d[id].running
    }

    /** `_create_or_get` */
    method CreateOrGet(p: Params) returns (r: Result<nat, Error>, status: Status)
      requires Valid() && ValidSlug(p.slug)
      modifies this`world, this`tick
      ensures tick > old(tick) && (if r.Ok? then AllWork(old(tick), tick) else Fails(tick - 1))
      ensures Valid() && OthersKept(old(world), p.slug, world) && MoreVolumes(old(world), p, world)
      ensures r.Err? ==> r.error == CreateFailed || r.error == ImageUnavailable
      ensures var d, d', stopped := old(world).daemon, world.daemon, Wanted(p).(running := false);
              match r
              case Err(_) => d' == d || exists id: nat :: Added(d, id, stopped, d')
              case Ok(id) =>
                match status
                case Ready => Named(d, id, p.slug) && d' == d
                case Created =>
                  && Added(d, id, stopped, d') && Serves(d'[id], p) && d'[id].mounts <= world.volumes
      ensures r.Ok? ==> tick == HasContainer(old(world).daemon, p.slug, old(tick))
    {
      hide UniqueNames, AsideStopped, IsAside, NameFree, ContainerName, OldName, ValidSlug;
      status := Ready;
      var found := Get(ContainerName(p.slug));
      if found.Ok? {
        NameTaken(world.daemon, found.value, p.slug);
        return found, Ready;
      }
      if found.error != Missing {
        return Err(CreateFailed), status;
      }
      // A pull, or a look at the local image: either may find no image and pull.
      var image := NextEvent();
      if !image.outcome.Works? {
        return Err(ImageUnavailable), status;
      }
      if !image.flag {
        var pulled := Ask();
        if !pulled {
          return Err(ImageUnavailable), status;
        }
      }
      ghost var d := world.daemon;
      var stopped := Wanted(p).(running := false);
      var id, ok := CreateContainer(stopped);
      if world.daemon != d {
        AddedKeeps(d, id, p.slug, stopped, world.daemon);
      }
      MountsAreOwn(p);
      WantedServes(p, false);
      r, status := if ok then Ok(id) else Err(CreateFailed), Created;
    }

    /** `chown` of what the container mounts. */
    method ChownMounts(c: Container, slug: string) returns (ok: bool)
      modifies this`tick
      ensures tick >= old(tick) && (if ok then AllWork(old(tick), tick) else tick > old(tick) && Fails(tick - 1))
      ensures ok ==> tick == old(tick) + ChownCount(c, slug)
    {
      ok := true;
      if ScratchName(slug) in c.mounts {
        ok := Ask();
      }
      if ok && WalName(slug) in c.mounts {
        ok := Ask();
      }
    }

    /** From the answer to the moment `until` the calls were the `chown`s, and worked. */
    ghost predicate Settled(until: nat, slug: string)
      reads this`world, this`answeredAt
    {
      && AllWork(answeredAt, until)
      && forall id | Named(world.daemon, id, slug) :: until == answeredAt + 1 + ChownCount(world.daemon[id], slug)
    }

    /** Why a `try` begun at `from` ended at `k`: its last call failed, or the wait was in
        vain. */
    ghost predicate GaveUp(e: Error, from: nat, k: nat)
    {
      from < k && if e == NotReady then NoAnswer(from, k) else Fails(k - 1)
    }

    /** The container waited for gave none, in a wait begun no earlier than `from`. */
    ghost predicate NoAnswer(from: nat, until: nat)
    {
      exists id: nat, start: nat :: from <= start && WaitedInVain(id, start, until)
    }

    /** The same, with every call since working. */
    ghost predicate HadCause(e: Error, from: nat, until: nat)
    {
      exists k: nat | from < k <= until :: GaveUp(e, from, k) && AllWork(k, until)
    }

    lemma CauseThen(e: Error, from: nat, k: nat, until: nat)
      requires GaveUp(e, from, k) && k <= until && AllWork(k, until)
      ensures HadCause(e, from, until)
    {}

    lemma StillGaveUp(e: Error, from: nat, start: nat, k: nat)
      requires GaveUp(e, start, k) && from <= start
      ensures GaveUp(e, from, k)
    {}

    lemma CauseFrom(e: Error, from: nat, start: nat, until: nat)
      requires GaveUp(e, start, until) && from <= start
      ensures HadCause(e, from, until)
    {
      assert GaveUp(e, from, until) && AllWork(until, until);
    }

    lemma CauseEarlier(e: Error, from: nat, start: nat, until: nat)
      requires HadCause(e, start, until) && from <= start
      ensures HadCause(e, from, until)
    {
      var k: nat :| start < k <= until && GaveUp(e, start, k) && AllWork(k, until);
      assert GaveUp(e, from, k);
    }

    /** From `_create_or_get` to the last `chown`: the body of the `try`. */
    method BringUp(p: Params) returns (r: Result<Status, Error>)
      requires Valid() && ValidSlug(p.slug)
      modifies this`world, this`tick, this`answered, this`answeredAt
      ensures tick > old(tick)
      ensures Valid() && OthersKept(old(world), p.slug, world) && MoreVolumes(old(world), p, world)
      ensures match r
              case Err(e) =>
                FromTry(e) && GaveUp(e, old(tick), tick) && Attempted(old(world).daemon, p, world.daemon)
              case Ok(status) =>
                && BroughtUp(old(world).daemon, p, world.daemon, status)
                && answered == world && AnsweredSince(old(tick), p.slug) && Settled(tick, p.slug)
                && AllWork(old(tick), WaitBegins(old(world).daemon, p.slug, old(tick)))
                && AnsweredSince(WaitBegins(old(world).daemon, p.slug, old(tick)), p.slug)
                && (status.Created? ==> Wanted(p).mounts <= world.volumes)
    {
      hide UniqueNames, AsideStopped, IsAside, NameFree, ContainerName, OldName, ValidSlug, OnlyOwn, Answered,
          Attempted,
        BroughtUp, Wanted, AnsweredSince, Settled;
      ghost var d, from := world.daemon, tick;
      var made, status := CreateOrGet(p);
      ghost var d1 := world.daemon;
      AttemptedAfter(d, p, d1, made, status);
      RunsIf(d, p.slug);
      if made.Err? {
        return Err(made.error);
      }
      var id := made.value;
      var reloaded := Ask();
      if !reloaded {
        return Err(StartFailed);
      }
      if !world.daemon[id].running {
        var started := Switch(id, true);
        SwitchKeeps(d1, id, p.slug, true, world.daemon, started);
        OnlyOwnTransitive(d, p.slug, d1, world.daemon);
        if !started {
          StartedOrNot(d, p, d1, id, status, world.daemon);
          return Err(StartFailed);
        }
      }
      Started(d, p, d1, id, status, world.daemon);
      ghost var start := tick;
      var unsettled := Settle(id, p.slug);
      SinceEarlier(from, start, p.slug);
      if unsettled.Some? {
        StillGaveUp(unsettled.value, from, start, tick);
        return Err(unsettled.value);
      }
      r := Ok(status);
    }

    /** Wait for the container that runs under the tenant's name, then the `chown`s. */
    method Settle(id: nat, slug: string) returns (error: Option<Error>)
      requires Valid() && Named(world.daemon, id, slug)
      modifies this`tick, this`answered, this`answeredAt
      ensures tick > old(tick)
      ensures match error
              case None => answered == world && AnsweredSince(old(tick), slug) && Settled(tick, slug)
              case Some(e) => (e == NotReady || e == ChownFailed) && GaveUp(e, old(tick), tick)
    {
      NamedOnce(world.daemon, slug);
      hide UniqueNames, AsideStopped, IsAside, ContainerName, Answered;
      ghost var start := tick;
      var ready := WaitReady(id);
      if !ready {
        assert WaitedInVain(id, start, tick);
        return Some(NotReady);
      }
      var owned := ChownMounts(world.daemon[id], slug);
      error := if owned then None else Some(ChownFailed);
    }

    /** What an error stands for: a failing call, the last one made or, inside the `try`,
        the last before a put-back that worked; or 90 s without an answer. */
    ghost predicate Explained(e: Error, from: nat, until: nat)
    {
      if FromTry(e) then HadCause(e, from, until) else from < until && Fails(until - 1)
    }

    lemma ExplainedEarlier(e: Error, from: nat, start: nat, until: nat)
      requires Explained(e, start, until) && from <= start
      ensures Explained(e, from, until)
    {
      if FromTry(e) {
        CauseEarlier(e, from, start, until);
      }
    }

    /** The replacement answered while the container it replaces, set aside, was there. */
    ghost predicate TookOver(d: Daemon, from: nat, slug: string)
      reads this`world, this`tick, this`answered, this`answeredAt
    {
      AnsweredSince(from, slug) && forall id | Named(d, id, slug) :: id in answered.daemon
    }

    /** How a replacement begun at `from`, from the daemon `d0`, has ended. */
    ghost predicate Concluded(r: Result<Status, Error>, p: Params, d0: Daemon, from: nat)
      reads this
    {
      && (r.Err? ==> Explained(r.error, from, tick))
      && (r.Ok? || r == Err(CleanupFailed) ==> TookOver(Cleared(d0, p.slug), from, p.slug))
      && (r == Err(CleanupFailed) ==> Settled(tick - 1, p.slug))
      && (r.Ok? ==> Wanted(p).mounts <= world.volumes)
      && (undoFailed <==> r == Err(PutBackFailed))
      && EndsAs(d0, p, r, undoFailed, world.daemon)
    }

    lemma ConcludedEarlier(r: Result<Status, Error>, p: Params, d0: Daemon, from: nat, start: nat)
      requires Concluded(r, p, d0, start) && from <= start
      ensures Concluded(r, p, d0, from)
    {
      hide Explained, EndsAs, Settled, Cleared, Wanted;
      if r.Err? {
        ExplainedEarlier(r.error, from, start, tick);
      }
    }

    lemma FailureConcluded(e: Error, p: Params, d0: Daemon, from: nat)
      requires e != CleanupFailed && Explained(e, from, tick) && (undoFailed <==> e == PutBackFailed)
      requires EndsAs(d0, p, Err(e), undoFailed, world.daemon)
      ensures Concluded(Err(e), p, d0, from)
    {}

    /** `ensure` with `recreate`: pull first, set aside, bring up; then put back on
        failure, or drop what was set aside. */
    method Replace(p: Params) returns (r: Result<Status, Error>)
      requires Valid() && ValidSlug(p.slug) && !undoFailed
      modifies this
      ensures tick >= old(tick)
      ensures Valid() && OthersKept(old(world), p.slug, world) && MoreVolumes(old(world), p, world)
      ensures r == Err(PullFailed) <==> p.pull && !oracle(old(tick)).outcome.Works?
      ensures r == Err(PullFailed) ==> world == old(world)
      ensures Concluded(r, p, old(world).daemon, old(tick))
    {
      hide UniqueNames, AsideStopped, IsAside, ContainerName, OldName, ValidSlug, OnlyOwn, Cleared, EndsAs,
        HadCause, Settled, Wanted, Concluded;
      ghost var from := tick;
      if p.pull {
        var pulled := Ask();
        if !pulled {
          SameKept(world, p.slug);
          PullFailedEnds(world.daemon, p);
          FailureConcluded(PullFailed, p, world.daemon, from);
          return Err(PullFailed);
        }
      }
      ghost var start := tick;
      r := this.ReplaceNow(p);
      ConcludedEarlier(r, p, old(world).daemon, from, start);
    }

    method ReplaceNow(p: Params) returns (r: Result<Status, Error>)
      requires Valid() && ValidSlug(p.slug) && !undoFailed
      modifies this
      ensures tick >= old(tick) && r != Err(PullFailed)
      ensures Valid() && OthersKept(old(world), p.slug, world) && MoreVolumes(old(world), p, world)
      ensures Concluded(r, p, old(world).daemon, old(tick))
    {
      hide UniqueNames, AsideStopped, IsAside, NameFree, ContainerName, OldName, ValidSlug, OnlyOwn, Cleared, Aside,
        EndsAs, HadCause, Settled, Wanted, Concluded, OthersKept;
      ghost var w0, from := world, tick;
      ClearedUnique(w0.daemon, p.slug);
      var aside := SetAside(p.slug);
      ghost var w1, start := world, tick;
      if aside.Err? {
        SetAsideEnds(w0.daemon, p, aside.error, world.daemon);
        FailureConcluded(aside.error, p, w0.daemon, from);
        return Err(aside.error);
      }
      if aside.value.Some? {
        r := ReplaceSetAside(p, aside.value.value, w0.daemon);
      } else {
        r := ReplaceNone(p, w0.daemon);
      }
      OthersKeptTransitive(w0, p.slug, w1, world);
      ConcludedEarlier(r, p, w0.daemon, from, start);
    }

    /** With nothing to set aside. */
    method ReplaceNone(p: Params, ghost d0: Daemon) returns (r: Result<Status, Error>)
      requires Valid() && ValidSlug(p.slug) && !undoFailed
      requires world.daemon == Cleared(d0, p.slug) && NameFree(world.daemon, ContainerName(p.slug))
      modifies this`world, this`tick, this`answered, this`answeredAt
      ensures tick >= old(tick) && r != Err(PullFailed)
      ensures Valid() && OthersKept(old(world), p.slug, world) && MoreVolumes(old(world), p, world)
      ensures Concluded(r, p, d0, old(tick))
    {
      hide UniqueNames, AsideStopped, IsAside, ContainerName, OldName, ValidSlug, OnlyOwn, Cleared, Vacated,
        GaveUp, HadCause, AnsweredSince, Settled, Wanted, Attempted, BroughtUp;
      ghost var d, from := world.daemon, tick;
      r := BringUp(p);
      if r.Ok? {
        NothingAside(d0, p.slug);
        ReplacementIsNew(d, d, p, world.daemon, r.value);
        ghost var new_: nat :| new_ !in d && world.daemon == d[new_ := Wanted(p)];
        assert ReplacedBy(d0, new_, p, world.daemon);
      } else {
        CauseFrom(r.error, from, from, tick);
      }
    }

    /** Once something was set aside. */
    method ReplaceSetAside(p: Params, id: nat, ghost d0: Daemon) returns (r: Result<Status, Error>)
      requires Valid() && ValidSlug(p.slug) && UniqueNames(d0) && !undoFailed
      requires Named(Cleared(d0, p.slug), id, p.slug) && world.daemon == Aside(Cleared(d0, p.slug), id, p.slug)
      modifies this
      ensures tick >= old(tick) && r != Err(PullFailed)
      ensures Valid() && OthersKept(old(world), p.slug, world) && MoreVolumes(old(world), p, world)
      ensures Concluded(r, p, d0, old(tick))
    {
      hide UniqueNames, AsideStopped, IsAside, ContainerName, OldName, ValidSlug, OnlyOwn, Cleared, Aside, Wanted,
        BroughtUp, Attempted, Settled, GaveUp, Concluded, OthersKept, AnsweredSince;
      ghost var w1, from := world, tick;
      r := BringUp(p);
      ghost var w2 := world;
      if r.Err? {
        r := this.Undo(p, id, r.error, d0, from);
      } else {
        r := this.TakeOver(p, id, r.value, d0, from);
      }
      OthersKeptTransitive(w1, p.slug, w2, world);
    }

    /** The `except`: what was set aside is put back. */
    method Undo(p: Params, id: nat, e: Error, ghost d0: Daemon, ghost from: nat) returns (r: Result<Status, Error>)
      requires Valid() && ValidSlug(p.slug) && UniqueNames(d0) && !undoFailed
      requires Named(Cleared(d0, p.slug), id, p.slug)
      requires Attempted(Aside(Cleared(d0, p.slug), id, p.slug), p, world.daemon)
      requires from < tick && FromTry(e) && GaveUp(e, from, tick)
      modifies this`world, this`tick, this`undoFailed
      ensures tick >= old(tick) && r != Err(PullFailed)
      ensures Valid() && OthersKept(old(world), p.slug, world) && world == old(world).(daemon := world.daemon)
      ensures Concluded(r, p, d0, from)
    {
      hide UniqueNames, AsideStopped, IsAside, ContainerName, OldName, ValidSlug, OnlyOwn, Cleared, Attempted,
        EndsAs, GaveUp, HadCause, Concluded, OthersKept, Restored;
      ghost var d, k := Cleared(d0, p.slug), tick;
      ClearedUnique(d0, p.slug);
      PutBackUndoes(d, id, p, world.daemon);
      var back := PutBack(p.slug, id);
      if back {
        CauseThen(e, from, k, tick);
      }
      r := Err(if back then e else PutBackFailed);
      PutBackEnds(d0, id, p, e, back, world.daemon);
      FailureConcluded(r.error, p, d0, from);
    }

    /** The `else`: what was set aside goes. */
    method TakeOver(p: Params, id: nat, status: Status, ghost d0: Daemon, ghost from: nat)
      returns (r: Result<Status, Error>)
      requires Valid() && ValidSlug(p.slug) && UniqueNames(d0) && !undoFailed
      requires Named(Cleared(d0, p.slug), id, p.slug)
      requires BroughtUp(Aside(Cleared(d0, p.slug), id, p.slug), p, world.daemon, status)
      requires answered == world && AnsweredSince(from, p.slug) && Settled(tick, p.slug)
      requires status.Created? ==> Wanted(p).mounts <= world.volumes
      modifies this`world, this`tick
      ensures tick >= old(tick) && r != Err(PullFailed)
      ensures Valid() && OthersKept(old(world), p.slug, world) && world == old(world).(daemon := world.daemon)
      ensures Concluded(r, p, d0, from)
    {
      hide UniqueNames, AsideStopped, IsAside, NameFree, ContainerName, OldName, ValidSlug, OnlyOwn, Cleared,
        BroughtUp, EndsAs, Settled, OthersKept, Wanted, Answered, HadCause;
      ghost var d := Cleared(d0, p.slug);
      ClearedUnique(d0, p.slug);
      NamedOnce(d, p.slug);
      AsideFreesName(d, id, p.slug);
      ReplacementIsNew(d, Aside(d, id, p.slug), p, world.daemon, status);
      ghost var new_: nat :| new_ !in d && world.daemon == Aside(d, id, p.slug)[new_ := Wanted(p)];
      var dropped := DropOld(p, id, d0, new_);
      SinceEarlier(from, answeredAt, p.slug);
      r := if dropped then Ok(status) else Err(CleanupFailed);
    }

    /** The predecessor goes, now that its replacement has answered. */
    method DropOld(p: Params, id: nat, ghost d0: Daemon, ghost new_: nat) returns (ok: bool)
      requires Valid() && ValidSlug(p.slug) && UniqueNames(d0) && Named(Cleared(d0, p.slug), id, p.slug)
      requires new_ !in Cleared(d0, p.slug)
      requires world.daemon == Aside(Cleared(d0, p.slug), id, p.slug)[new_ := Wanted(p)]
      requires AnsweredSince(answeredAt, p.slug) && Settled(tick, p.slug)
      modifies this`world, this`tick
      ensures tick == old(tick) + 1 && ok == !Fails(tick - 1)
      ensures Valid() && OthersKept(old(world), p.slug, world) && world == old(world).(daemon := world.daemon)
      ensures EndsAs(d0, p, if ok then Ok(Created) else Err(CleanupFailed), false, world.daemon)
      ensures AnsweredSince(answeredAt, p.slug) && Settled(tick - 1, p.slug)
    {
      hide UniqueNames, AsideStopped, IsAside, NameFree, ContainerName, OldName, ValidSlug, OnlyOwn, Cleared,
          Vacated, Wanted,
        Answered;
      ghost var w, d := world, Cleared(d0, p.slug);
      AsideIsVacated(d0, d, id, p, new_);
      ok := RemoveContainer(id);
      RemoveKeeps(w.daemon, id, p.slug, world.daemon, ok);
      if ok {
        assert ReplacedBy(d0, new_, p, world.daemon);
      } else {
        assert Succeeded(d, id, p, world.daemon);
      }
    }

    /** The moment `ensure` is done with the network it found at `from`, or made. */
    ghost function AfterNetwork(w: World, from: nat, slug: string): nat
    {
      if NetworkName(slug) in w.networks then from + 1 else from + 2
    }

    ghost predicate NetworkWorks(w: World, from: nat, slug: string)
    {
      forall k | from <= k < AfterNetwork(w, from, slug) :: oracle(k).outcome.Works?
    }

    /** What `ensure` with `recreate` promises, begun at `from` with the daemon `d0`. */
    ghost predicate Recreated(r: Result<Status, Error>, p: Params, d0: Daemon, from: nat)
      reads this
    {
      match r
      case Ok(status) =>
        && status == Created && Replaced(d0, p, world.daemon) && Up(world, p)
        && TookOver(d0, from, p.slug)
      case Err(CleanupFailed) =>
        && TookOver(d0, from, p.slug) && Settled(tick - 1, p.slug)
        && exists new_: nat :: new_ in world.daemon && world.daemon[new_] == Wanted(p)
      case Err(e) =>
        forall id | Named(d0, id, p.slug) :: Unharmed(d0, id, p, e, undoFailed, world.daemon)
    }

    /** What it promises without. */
    ghost predicate BroughtUpSince(r: Result<Status, Error>, p: Params, d0: Daemon, from: nat)
      reads this
    {
      match r
      case Ok(status) =>
        && BroughtUp(d0, p, world.daemon, status) && answered == world && AnsweredSince(from, p.slug)
        && (status.Created? ==> Up(world, p))
      case Err(_) => Attempted(d0, p, world.daemon)
    }

    /** `ensure`: whatever fails, nothing of another tenant is touched, no volume goes,
        and a database that was there is there. */
    method Ensure(p: Params) returns (r: Result<Status, Error>)
      requires Valid()
      modifies this
      ensures Valid() && old(world).volumes <= world.volumes
      ensures if ValidSlug(p.slug) then OthersKept(old(world), p.slug, world) else world == old(world)
      ensures !Acceptable(p) <==> r == Err(Rejected)
      ensures r == Err(Rejected) ==> world == old(world)
      ensures r == Err(NetworkFailed) <==> Acceptable(p) && !NetworkWorks(old(world), old(tick), p.slug)
      ensures r == Err(PullFailed) <==>
                && Acceptable(p) && NetworkWorks(old(world), old(tick), p.slug)
                && p.recreate && p.pull && !oracle(AfterNetwork(old(world), old(tick), p.slug)).outcome.Works?
      ensures r == Err(PullFailed) || r == Err(NetworkFailed) ==>
                world.daemon == old(world).daemon && world.volumes == old(world).volumes
      ensures r.Ok? ==> NetworkName(p.slug) in world.networks
      ensures r.Err? && r.error != Rejected ==> Explained(r.error, old(tick), tick)
      ensures undoFailed <==> r == Err(PutBackFailed)
      ensures r == Ok(Created) ==> Up(world, p)
      ensures p.recreate ==> Recreated(r, p, old(world).daemon, old(tick))
      ensures p.recreate && r != Err(Rejected) && r != Err(NetworkFailed) ==>
                EndsAs(old(world).daemon, p, r, undoFailed, world.daemon)
      ensures !p.recreate ==> BroughtUpSince(r, p, old(world).daemon, old(tick))
    {
      hide UniqueNames, AsideStopped, IsAside, ContainerName, OldName, ValidSlug, OnlyOwn, OthersKept, HadCause,
        Acceptable, NetworkName, Recreated, BroughtUpSince, EndsAs, Up;
      ghost var w0, from := world, tick;
      undoFailed := false;
      SameKept(w0, p.slug);
      if !Acceptable(p) {
        Untouched(Rejected, p, from);
        return Err(Rejected);
      }
      AcceptableSlug(p);
      var network := this.EnsureNetwork(p.slug);
      if !network {
        Untouched(NetworkFailed, p, from);
        return Err(NetworkFailed);
      }
      ghost var w1 := world;
      if p.recreate {
        r := this.EnsureAnew(p, from);
      } else {
        r := this.EnsureUp(p, from);
      }
      OthersKeptTransitive(w0, p.slug, w1, world);
    }

    lemma Untouched(e: Error, p: Params, from: nat)
      requires e == Rejected || e == NetworkFailed
      ensures Recreated(Err(e), p, world.daemon, from) && BroughtUpSince(Err(e), p, world.daemon, from)
    {
      AttemptedNothing(world.daemon, p);
    }

    lemma AcceptableSlug(p: Params)
      ensures Acceptable(p) ==> ValidSlug(p.slug)
    {}

    /** The tenant's network, made where missing. */
    method EnsureNetwork(slug: string) returns (ok: bool)
      requires Valid() && ValidSlug(slug)
      modifies this`world, this`tick
      ensures Valid() && OthersKept(old(world), slug, world) && world == old(world).(networks := world.networks)
      ensures tick > old(tick) && ok == NetworkWorks(old(world), old(tick), slug) && (!ok ==> Fails(tick - 1))
      ensures ok ==> NetworkName(slug) in world.networks && tick == AfterNetwork(old(world), old(tick), slug)
    {
      hide UniqueNames, AsideStopped, NetworkName, ValidSlug;
      ok := Ask();
      if ok && NetworkName(slug) !in world.networks {
        ok := CreateNetwork(NetworkName(slug));
      }
    }

    method EnsureAnew(p: Params, ghost from: nat) returns (r: Result<Status, Error>)
      requires Valid() && ValidSlug(p.slug) && !undoFailed && from <= tick
      modifies this
      ensures Valid() && OthersKept(old(world), p.slug, world)
      ensures old(world).volumes <= world.volumes && world.networks == old(world).networks
      ensures r != Err(Rejected) && r != Err(NetworkFailed)
      ensures r == Err(PullFailed) <==> p.pull && !oracle(old(tick)).outcome.Works?
      ensures r == Err(PullFailed) ==> world == old(world)
      ensures r.Err? ==> Explained(r.error, from, tick)
      ensures undoFailed <==> r == Err(PutBackFailed)
      ensures Recreated(r, p, old(world).daemon, from) && (r == Ok(Created) ==> Up(world, p))
      ensures EndsAs(old(world).daemon, p, r, undoFailed, world.daemon)
    {
      hide UniqueNames, AsideStopped, IsAside, ContainerName, OldName, ValidSlug, OnlyOwn, OthersKept, Explained,
        EndsAs, Cleared, Wanted, AnsweredSince, Settled, Replaced, Recreated, Up;
      ghost var d0, start := world.daemon, tick;
      r := Replace(p);
      ConcludedEarlier(r, p, d0, from, start);
      ConcludedRecreated(r, p, d0, from);
    }

    lemma ReplacedIsUp(p: Params, d0: Daemon)
      requires Replaced(d0, p, world.daemon) && Wanted(p).mounts <= world.volumes
      ensures Up(world, p)
    {
      hide Vacated, Cleared, Wanted, Up;
      var id: nat :| ReplacedBy(d0, id, p, world.daemon);
      WantedUp(world, id, p);
    }

    lemma AddedIsUp(p: Params, d0: Daemon)
      requires BroughtUp(d0, p, world.daemon, Created) && Wanted(p).mounts <= world.volumes
      ensures Up(world, p)
    {
      hide Wanted, Up, NameFree;
      var id: nat :| Added(d0, id, Wanted(p), world.daemon);
      WantedUp(world, id, p);
    }

    lemma ConcludedRecreated(r: Result<Status, Error>, p: Params, d0: Daemon, from: nat)
      requires Concluded(r, p, d0, from) && UniqueNames(d0) && ValidSlug(p.slug)
      ensures Recreated(r, p, d0, from) && (r == Ok(Created) ==> Up(world, p))
      ensures r != Err(Rejected) && r != Err(NetworkFailed)
    {
      hide UniqueNames, ContainerName, ValidSlug, Explained, EndsAs, Cleared, Wanted, AnsweredSince, Settled, Replaced,
        Unharmed, Up;
      EndingParts(d0, p, r, undoFailed, world.daemon);
      if r.Ok? {
        ReplacedIsUp(p, d0);
      }
      if r.Err? && r.error != CleanupFailed {
        forall id | Named(d0, id, p.slug)
          ensures Unharmed(d0, id, p, r.error, undoFailed, world.daemon)
        {
          FailureUnharmed(d0, id, p, r.error, undoFailed, world.daemon);
        }
      }
    }

    method EnsureUp(p: Params, ghost from: nat) returns (r: Result<Status, Error>)
      requires Valid() && ValidSlug(p.slug) && !undoFailed && from <= tick
      modifies this`world, this`tick, this`answered, this`answeredAt
      ensures Valid() && OthersKept(old(world), p.slug, world)
      ensures old(world).volumes <= world.volumes && world.networks == old(world).networks
      ensures r.Err? ==> FromTry(r.error) && Explained(r.error, from, tick)
      ensures BroughtUpSince(r, p, old(world).daemon, from) && (r == Ok(Created) ==> Up(world, p))
    {
      hide UniqueNames, AsideStopped, IsAside, ContainerName, OldName, ValidSlug, OnlyOwn, OthersKept, GaveUp,
        HadCause, Wanted, AnsweredSince, Settled, Attempted, BroughtUp, Up;
      ghost var d0, start := world.daemon, tick;
      r := BringUp(p);
      if r.Err? {
        CauseFrom(r.error, from, start, tick);
      }
      SinceEarlier(from, start, p.slug);
      if r == Ok(Created) {
        AddedIsUp(p, d0);
      }
    }

    /** Why `start`, begun at `from`, failed. */
    ghost predicate StartFailure(e: Error, d: Daemon, slug: string, userOk: bool, from: nat, until: nat)
    {
      match e
      case Rejected => !ValidSlug(slug) || !userOk
      case LookupFailed => Fails(from)
      case Missing => !Fails(from) && NameFree(d, ContainerName(slug))
      case StartFailed => from < until && Fails(until - 1)
      case NotReady => NoAnswer(from, until)
      case _ => false
    }

    /** `start` */
    method Start(slug: string, userOk: bool) returns (r: Result<nat, Error>)
      requires Valid()
      modifies this
      ensures Valid()
      ensures if ValidSlug(slug) then OthersKept(old(world), slug, world) else r == Err(Rejected) && world == old(world)
      ensures match r
              case Ok(id) => TurnedOn(old(world).daemon, id, slug, world.daemon) && userOk
                             && old(tick) <= answeredAt < tick && Answered(answeredAt, id) && answered == world
              case Err(Missing) => NameFree(old(world).daemon, ContainerName(slug)) && world == old(world)
              case Err(_) => world == old(world) || exists id: nat :: TurnedOn(old(world).daemon, id, slug,
                    world.daemon)
      ensures world == old(world).(daemon := world.daemon)
      ensures r.Ok? ==>
                var begins := old(tick) + if RunsAlready(old(world).daemon, slug) then 2 else 3;
                AllWork(old(tick), begins) && begins <= answeredAt
      ensures r.Err? ==> StartFailure(r.error, old(world).daemon, slug, userOk, old(tick), tick)
    {
      hide UniqueNames, AsideStopped, IsAside, NameFree, ContainerName, OldName, ValidSlug, OnlyOwn, WaitedInVain,
        OthersKept;
      ghost var d, from := world.daemon, tick;
      SameKept(world, slug);
      if !ValidSlug(slug) {
        return Err(Rejected);
      }
      r := Get(ContainerName(slug));
      if r.Err? {
        return;
      }
      var id := r.value;
      RunsIf(d, slug);
      var started := this.TurnOn(id, slug);
      if !started {
        return Err(StartFailed);
      }
      // The user name is checked only now, with the container already started.
      if !userOk {
        return Err(Rejected);
      }
      ghost var start := tick;
      var ready := WaitReady(id);
      if !ready {
        assert WaitedInVain(id, start, tick);
        return Err(NotReady);
      }
    }

    /** The container found is reloaded, and started unless it runs. */
    method TurnOn(id: nat, slug: string) returns (ok: bool)
      requires Valid() && ValidSlug(slug) && Named(world.daemon, id, slug)
      modifies this`world, this`tick
      ensures Valid() && OthersKept(old(world), slug, world) && world == old(world).(daemon := world.daemon)
      ensures world == old(world) || TurnedOn(old(world).daemon, id, slug, world.daemon)
      ensures ok ==>
                && TurnedOn(old(world).daemon, id, slug, world.daemon) && AllWork(old(tick), tick)
                && tick == old(tick) + if old(world).daemon[id].running then 1 else 2
      ensures !ok ==> tick > old(tick) && Fails(tick - 1)
    {
      hide UniqueNames, AsideStopped, IsAside, NameFree, ContainerName, OldName, ValidSlug, OnlyOwn;
      ghost var d := world.daemon;
      SameKept(world, slug);
      ok := Ask();
      if ok && !world.daemon[id].running {
        ok := Switch(id, true);
        SwitchKeeps(d, id, slug, true, world.daemon, ok);
      }
      assert ok ==> world.daemon == WithRunning(d, id, true);
    }

    /** `stop` */
    method Stop(slug: string) returns (error: Option<Error>)
      requires Valid()
      modifies this
      ensures Valid() && world == old(world).(daemon := world.daemon)
      ensures if ValidSlug(slug) then OthersKept(old(world), slug,
            world) else error == Some(Rejected) && world == old(world)
      ensures world == old(world) || exists id: nat ::
                Named(old(world).daemon, id, slug) && world.daemon == WithRunning(old(world).daemon, id, false)
      ensures error == Some(Rejected) <==> !ValidSlug(slug)
      ensures error == Some(LookupFailed) <==> ValidSlug(slug) && Fails(old(tick))
      ensures error == Some(StopFailed) <==>
                && ValidSlug(slug) && !Fails(old(tick)) && !NameFree(old(world).daemon, ContainerName(slug))
                && Fails(old(tick) + 1)
      ensures error.Some? ==> error == Some(Rejected) || error == Some(LookupFailed) || error == Some(StopFailed)
      ensures error.None? ==> forall id | Named(world.daemon, id, slug) :: !world.daemon[id].running
    {
      hide AsideStopped, IsAside, ContainerName, OldName, ValidSlug, OnlyOwn;
      ghost var d := world.daemon;
      SameKept(world, slug);
      if !ValidSlug(slug) {
        return Some(Rejected);
      }
      var found := Get(ContainerName(slug));
      if found.Ok? {
        var stopped := Switch(found.value, false);
        SwitchKeeps(d, found.value, slug, false, world.daemon, stopped);
        assert Named(d, found.value, slug);
        NamedOnce(world.daemon, slug);
        return if stopped then None else Some(StopFailed);
      }
      NamedOnce(d, slug);
      error := if found.error == Missing then None else Some(LookupFailed);
    }

    /** `remove`: what goes is the container, the network and the volumes named; with
        `keepVolume` the data and the WAL stay. With every call working it goes through
        exactly when nothing else mounts those volumes. */
    method Remove(slug: string, keepVolume: bool) returns (error: Option<Error>)
      requires Valid()
      modifies this
      ensures Valid()
      ensures if ValidSlug(slug) then OthersKept(old(world), slug,
            world) else error == Some(Rejected) && world == old(world)
      ensures error.None? ==> world == Removed(old(world), slug, keepVolume)
      ensures old(world).volumes - Doomed(slug, keepVolume) <= world.volumes <= old(world).volumes
      ensures ValidSlug(slug) && AllWork(old(tick), tick) ==> (error.None? <==> Removable(old(world), slug, keepVolume))
    {
      hide UniqueNames, AsideStopped, IsAside, NameFree, ContainerName, OldName, ValidSlug, OnlyOwn, Unmounted;
      ghost var w0 := world;
      SameKept(world, slug);
      if !ValidSlug(slug) {
        return Some(Rejected);
      }
      var database := FreeName(slug);
      if !database {
        return Some(RemoveFailed);
      }
      error := None;
      var network := RemoveNetwork(NetworkName(slug));
      if !network {
        return Some(RemoveFailed);
      }
      VolumesApart(slug);
      var scratch := RemoveVolume(ScratchName(slug));
      if !scratch {
        return Some(RemoveFailed);
      }
      if !keepVolume {
        var wal := RemoveVolume(WalName(slug));
        if !wal {
          return Some(RemoveFailed);
        }
        var data := RemoveVolume(DataName(slug));
        if !data {
          return Some(RemoveFailed);
        }
      }
      assert world == Removed(w0, slug, keepVolume);
    }

    /** Looked up, reloaded, rid of the containers attached to it, then removed. */
    method RemoveNetwork(name: string) returns (ok: bool)
      modifies this`world, this`tick
      ensures tick >= old(tick) && (if ok then AllWork(old(tick), tick) else tick > old(tick) && Fails(tick - 1))
      ensures world == old(world).(networks := world.networks)
      ensures world.networks == old(world).networks || world.networks == old(world).networks - {name}
      ensures ok ==> name !in world.networks
    {
      ok := Ask();
      if ok && name in world.networks {
        ok := Ask();
        if ok {
          var e := NextEvent();
          ok := e.outcome.Works?;
          if !e.outcome.FailsBefore? {
            world := world.(networks := world.networks - {name});
          }
        }
      }
      assert !ok ==> Fails(tick - 1);
    }

    method CreateNetwork(name: string) returns (ok: bool)
      modifies this`world, this`tick
      ensures tick == old(tick) + 1 && ok == !Fails(old(tick))
      ensures world == old(world).(networks := world.networks)
      ensures world.networks == old(world).networks || world.networks == old(world).networks + {name}
      ensures ok ==> name in world.networks
    {
      var e := NextEvent();
      ok := e.outcome.Works?;
      if !e.outcome.FailsBefore? {
        world := world.(networks := world.networks + {name});
      }
    }

    /** At this moment the container was asked, and answered that it accepts
        connections. */
    ghost predicate Answered(at: nat, id: nat)
    {
      oracle(at).outcome.Works? && answers(at, id)
    }

    /** Whatever runs under the tenant's name has answered since the moment `from`. */
    ghost predicate AnsweredSince(from: nat, slug: string)
      reads this`world, this`tick, this`answeredAt
    {
      from <= answeredAt < tick && forall id | Named(world.daemon, id, slug) :: Answered(answeredAt, id)
    }

    lemma SinceEarlier(from: nat, start: nat, slug: string)
      requires from <= start
      ensures AnsweredSince(start, slug) ==> AnsweredSince(from, slug)
    {}

    /** `time.monotonic()` */
    method Time() returns (t: real)
      modifies this`tick
      ensures tick == old(tick) + 1 && t == clock(tick)
    {
      tick := tick + 1;
      t := clock(tick);
    }

    method Sleep()
      modifies this`tick
      ensures Wakes(clock, old(tick), tick)
    {
      ghost var start := tick;
      ghost var later := SecondPasses(clock, tick);
      var until := clock(tick) + 1.0;
      tick := tick + 1;
      while clock(tick) < until
        invariant start < tick <= later
        invariant forall k | start < k < tick :: clock(k) < until
        decreases later - tick
      {
        tick := tick + 1;
      }
    }

    /** The poll at `p` brought a no, and the next is due at `until`, a second's sleep
        later. */
    ghost predicate AskedInVain(id: nat, p: nat, woken: nat, until: nat, deadline: real)
    {
      && clock(p) < deadline && !Fails(p) && !answers(p, id)
      && Wakes(clock, p + 1, woken) && until == woken + 1
    }

    /** Every poll since `from` did; the next is due at `until`. */
    ghost predicate PolledInVain(id: nat, from: nat, until: nat, deadline: real)
      decreases until
    {
      until == from
      || exists p: nat, woken: nat ::
           from <= p < until && AskedInVain(id, p, woken, until, deadline) && PolledInVain(id, from, p, deadline)
    }

    /** A wait begun at `from` ended in vain at `until`: polls brought no answer for 90 s,
        or one failed. */
    ghost predicate WaitedInVain(id: nat, from: nat, until: nat)
    {
      exists p: nat :: WaitedUntil(id, from, p, until)
    }

    ghost predicate WaitedUntil(id: nat, from: nat, p: nat, until: nat)
    {
      var deadline := clock(from + 1) + READY_TIMEOUT;
      && from + 2 <= p && PolledInVain(id, from + 2, p, deadline)
      && if clock(p) >= deadline then until == p else until == p + 1 && Fails(p)
    }

    lemma NothingPolled(id: nat, from: nat, deadline: real)
      ensures PolledInVain(id, from, from, deadline)
    {}

    lemma PollOn(id: nat, from: nat, p: nat, woken: nat, until: nat, deadline: real)
      requires from <= p && PolledInVain(id, from, p, deadline)
      requires clock(p) < deadline && !Fails(p) && !answers(p, id) && Wakes(clock, p + 1, woken) && until == woken + 1
      ensures PolledInVain(id, from, until, deadline)
    {
      assert AskedInVain(id, p, woken, until, deadline) && p < until;
    }

    /** `_wait_ready` */
    method WaitReady(id: nat) returns (ready: bool)
      modifies this`tick, this`answered, this`answeredAt
      ensures tick > old(tick)
      ensures ready ==> answeredAt == tick - 1
      ensures !ready ==> WaitedInVain(id, old(tick), tick)
      ensures ready ==> old(tick) <= answeredAt < tick && Answered(answeredAt, id) && answered == world
      ensures ready ==> clock(answeredAt) < clock(old(tick) + 1) + READY_TIMEOUT
    {
      hide Ticks, PolledInVain, Wakes;
      ghost var start := tick;
      var t := Time();
      var deadline := t + READY_TIMEOUT;
      t := Time();
      ready := false;
      ghost var from := tick;
      NothingPolled(id, from, deadline);
      while t < deadline
        invariant tick >= from && t == clock(tick) && PolledInVain(id, from, tick, deadline)
        decreases (deadline - t).Floor
      {
        ghost var before := tick;
        var answer := answers(tick, id);
        var probe := NextEvent();
        if !probe.outcome.Works? {
          assert WaitedUntil(id, start, before, tick);
          return;
        }
        if answer {
          answered, answeredAt := world, tick - 1;
          return true;
        }
        NeverBack(clock, tick - 1, tick);
        Sleep();
        NeverBack(clock, tick, tick + 1);
        WokenLater(clock, before + 1, tick);
        t := Time();
        PollOn(id, from, before, tick - 1, tick, deadline);
        FloorDrops(deadline - clock(before), deadline - t);
      }
      assert WaitedUntil(id, start, tick, tick);
    }

    /** Any of the four calls. */
    method Perform(call: Call) returns (ok: bool)
      requires Valid()
      modifies this
      ensures Valid() && Called(old(world), call, world)
    {
      match call
      case Ensure(p) =>
        var r := Ensure(p);
        ok := r.Ok?;
      case Start(slug, userOk) =>
        var r := Start(slug, userOk);
        ok := r.Ok?;
      case Stop(slug) =>
        var error := Stop(slug);
        ok := error.None?;
      case Remove(slug, keepVolume) =>
        var error := Remove(slug, keepVolume);
        ok := error.None?;
    }
  }
}
