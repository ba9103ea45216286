/** How calls on a tenant's Postgres can change the server, and what follows over runs
    of such calls. */
module TenantState {
  import opened Text
  import opened Docker
  import opened TenantNames

  const MAX_MEM: nat := 4 * 1024 * 1024 * 1024

  /** `userOk` says whether `POSTGRES_USER` passes `_ident`; `memLimit` is what
      `parse_bytes` makes of the given limit. */
  datatype Params = Params(
    slug: string, userOk: bool, memLimit: int, pidsLimit: int, command: seq<string>, image: string,
    walArchiving: bool, recreate: bool, pull: bool)

  /** Where a call failed. */
  datatype Error =
    | Rejected | Missing | NetworkFailed | PullFailed | ClearFailed | LookupFailed | StopFailed | RenameFailed
    | CreateFailed | ImageUnavailable | StartFailed | NotReady | ChownFailed | PutBackFailed | CleanupFailed
    | RemoveFailed

  datatype Status = Created | Ready

  datatype Call =
    | Ensure(p: Params)
    | Start(slug: string, userOk: bool)
    | Stop(slug: string)
    | Remove(slug: string, keepVolume: bool)

  predicate Acceptable(p: Params)
  {
    && ValidSlug(p.slug) && p.userOk && p.memLimit <= MAX_MEM && 1 <= p.pidsLimit <= 1000
    && p.command != [] && p.command[0] == "postgres"
    && |p.image| >= 9 && p.image[..9] == "postgres:"
  }

  /** The container asked for, running once started. */
  function Wanted(p: Params): Container
  {
    Container(ContainerName(p.slug), true, p.command,
              {DataName(p.slug), ScratchName(p.slug)} + if p.walArchiving then {WalName(p.slug)} else {})
  }

  /** Each bound on the parameters, met by itself. */
  lemma AcceptableBounds(p: Params, n: int, word: string, more: seq<string>)
    requires Acceptable(p)
    ensures Acceptable(p.(memLimit := n)) <==> n <= 4294967296
    ensures Acceptable(p.(pidsLimit := n)) <==> 0 < n < 1001
    ensures Acceptable(p.(command := [word] + more)) <==> word == "postgres"
    ensures !Acceptable(p.(command := [])) && !Acceptable(p.(userOk := false))
    ensures Acceptable(p.(image := "postgres:" + word)) && !Acceptable(p.(image := "postgres"))
    ensures Acceptable(p.(recreate := n > 0, pull := n > 1, walArchiving := n > 2))
  {
    assert ("postgres:" + word)[..9] == "postgres:";
  }

  /** A container of the tenant's that runs what was asked for on the tenant's own volumes,
      the data among them, the WAL exactly on request. */
  ghost predicate Serves(c: Container, p: Params)
  {
    && c.name == ContainerName(p.slug) && c.command == p.command
    && DataName(p.slug) in c.mounts && ScratchName(p.slug) in c.mounts
    && (WalName(p.slug) in c.mounts <==> p.walArchiving)
    && c.mounts <= VolumeNames(p.slug)
  }

  lemma WantedServes(p: Params, running: bool)
    ensures Serves(Wanted(p).(running := running), p)
    ensures ChownCount(Wanted(p), p.slug) == if p.walArchiving then 2 else 1
  {
    VolumesApart(p.slug);
  }

  /** Such a container runs under the tenant's name, and its volumes are there. */
  ghost predicate Up(w: World, p: Params)
  {
    exists id :: Named(w.daemon, id, p.slug) && UpAs(w.daemon[id], w.volumes, p)
  }

  ghost predicate UpAs(c: Container, volumes: set<string>, p: Params)
  {
    c.running && Serves(c, p) && c.mounts <= volumes
  }

  lemma WantedUp(w: World, id: nat, p: Params)
    requires id in w.daemon && w.daemon[id] == Wanted(p) && Wanted(p).mounts <= w.volumes
    ensures Up(w, p)
  {
    WantedServes(p, true);
    hide Serves;
    assert Named(w.daemon, id, p.slug) && UpAs(w.daemon[id], w.volumes, p);
  }

  /** The daemon without what an earlier call left set aside. */
  function Cleared(d: Daemon, slug: string): Daemon
  {
    Without(d, OldName(slug))
  }

  function Aside(d: Daemon, id: nat, slug: string): Daemon
    requires id in d
  {
    d[id := d[id].(name := OldName(slug), running := false)]
  }

  ghost predicate Named(d: Daemon, id: nat, slug: string)
  {
    id in d && d[id].name == ContainerName(slug)
  }

  ghost predicate TurnedOn(d: Daemon, id: nat, slug: string, d': Daemon)
  {
    Named(d, id, slug) && d' == WithRunning(d, id, true)
  }

  ghost predicate Added(d: Daemon, id: nat, c: Container, d': Daemon)
  {
    id !in d && NameFree(d, c.name) && d' == d[id := c]
  }

  /** The tenant's container under its name, started or created from `d`, with
      whatever a failing call leaves half done. */
  ghost predicate Attempted(d: Daemon, p: Params, d': Daemon)
  {
    || d' == d
    || (exists id: nat :: TurnedOn(d, id, p.slug, d'))
    || (exists id: nat, running :: Added(d, id, Wanted(p).(running := running), d'))
  }

  /** The tenant's container runs: the one that was there, or a new one as asked for. */
  ghost predicate BroughtUp(d: Daemon, p: Params, d': Daemon, status: Status)
  {
    match status
    case Ready => exists id: nat :: TurnedOn(d, id, p.slug, d')
    case Created => exists id: nat :: Added(d, id, Wanted(p), d')
  }

  /** A new container as asked for took the place of all the tenant had. */
  ghost predicate Replaced(d: Daemon, p: Params, d': Daemon)
  {
    exists id: nat :: ReplacedBy(d, id, p, d')
  }

  ghost predicate ReplacedBy(d: Daemon, id: nat, p: Params, d': Daemon)
  {
    id !in Cleared(d, p.slug) && d' == Vacated(d, p.slug)[id := Wanted(p)]
  }

  /** The daemon without the tenant's containers. */
  function Vacated(d: Daemon, slug: string): Daemon
  {
    map i | i in d && d[i].name !in ContainerNames(slug) :: d[i]
  }

  /** No container that was set aside is running. */
  ghost predicate AsideStopped(d: Daemon)
  {
    forall i | i in d && IsAside(d[i].name) :: !d[i].running
  }

  ghost predicate Sound(d: Daemon)
  {
    UniqueNames(d) && AsideStopped(d)
  }

  lemma SwitchKeeps(d: Daemon, id: nat, slug: string, running: bool, d': Daemon, ok: bool)
    requires Sound(d) && SwitchCall(d, id, running, d', ok) && ValidSlug(slug) && Named(d, id, slug)
    ensures Sound(d') && OnlyOwn(d, slug, d')
  {
    CallsKeepNamesUnique(d, id, "", d[id], d', ok);
    ContainerIsNotAside(slug);
    hide UniqueNames, IsAside, ContainerName, OldName, ValidSlug;
  }

  lemma RemoveKeeps(d: Daemon, id: nat, slug: string, d': Daemon, ok: bool)
    requires Sound(d) && RemoveCall(d, id, d', ok) && id in d && d[id].name in ContainerNames(slug)
    ensures Sound(d') && OnlyOwn(d, slug, d')
  {
    CallsKeepNamesUnique(d, id, "", d[id], d', ok);
    hide UniqueNames, IsAside, ContainerName, OldName;
  }

  lemma RenameKeeps(d: Daemon, id: nat, slug: string, name: string, d': Daemon, ok: bool)
    requires Sound(d) && RenameCall(d, id, name, d', ok) && id in d && d[id].name in ContainerNames(slug)
    requires name in ContainerNames(slug) && !d[id].running
    ensures Sound(d') && OnlyOwn(d, slug, d')
  {
    CallsKeepNamesUnique(d, id, name, d[id], d', ok);
    hide UniqueNames, IsAside, ContainerName, OldName;
  }

  lemma AddedKeeps(d: Daemon, id: nat, slug: string, c: Container, d': Daemon)
    requires Sound(d) && Added(d, id, c, d') && ValidSlug(slug) && c.name == ContainerName(slug)
    ensures Sound(d') && OnlyOwn(d, slug, d')
  {
    ContainerIsNotAside(slug);
    hide IsAside, ContainerName, OldName, ValidSlug;
    assert forall i | i in d' :: i == id || (i in d && d'[i] == d[i]);
  }

  /** The daemon without what bears a name. */
  function Without(d: Daemon, name: string): Daemon
  {
    map i | i in d && d[i].name != name :: d[i]
  }

  lemma WithoutOne(d: Daemon, id: nat, name: string)
    requires UniqueNames(d) && id in d && d[id].name == name
    ensures d - {id} == Without(d, name)
  {}

  lemma WithoutFree(d: Daemon, name: string)
    ensures NameFree(Without(d, name), name)
  {}

  /** Stopping the container leaves its name set aside free, once cleared. */
  lemma StillFree(d0: Daemon, id: nat, slug: string)
    ensures NameFree(WithRunning(Cleared(d0, slug), id, false), OldName(slug))
  {}

  lemma WithoutNone(d: Daemon, name: string)
    requires NameFree(d, name)
    ensures d == Without(d, name)
  {}

  /** The same container, perhaps renamed, started or stopped. */
  predicate SameBut(a: Container, b: Container)
  {
    a == b.(name := a.name, running := a.running)
  }

  /** What the put-back leaves: nothing else under the tenant's name, and the
      container set aside running under it again. */
  function Restored(d: Daemon, id: nat, slug: string): Daemon
    requires id in d
  {
    Without(d, ContainerName(slug))[id := d[id].(name := ContainerName(slug), running := true)]
  }

  /** Putting back what was set aside, whatever came under the tenant's name in the
      meantime, gives the daemon as it was, with the container running. */
  lemma PutBackUndoes(d: Daemon, id: nat, p: Params, d': Daemon)
    requires UniqueNames(d) && Named(d, id, p.slug) && ValidSlug(p.slug)
    requires Attempted(Aside(d, id, p.slug), p, d')
    ensures id in d' && d'[id] == Aside(d, id, p.slug)[id]
    ensures Restored(d', id, p.slug) == WithRunning(d, id, true)
  {
    NeverOld(p.slug, p.slug);
    hide ContainerName, OldName, ValidSlug;
    var aside := Aside(d, id, p.slug);
    assert forall i | i in aside :: aside[i].name != ContainerName(p.slug);
    AttemptedAdds(aside, p, d');
    hide Attempted, UniqueNames;
    assert forall i | i in d && i != id :: d'[i] == aside[i];
    RestoredExactly(d, id, p.slug, d');
  }

  /** What was added goes again, and the container gets its name back. */
  lemma RestoredExactly(d: Daemon, id: nat, slug: string, d': Daemon)
    requires Named(d, id, slug) && id in d' && d'[id] == Aside(d, id, slug)[id] && OldName(slug) != ContainerName(slug)
    requires forall i | i in d && i != id :: i in d' && d'[i] == d[i] && d[i].name != ContainerName(slug)
    requires forall i | i in d' && i !in d :: d'[i].name == ContainerName(slug)
    ensures Restored(d', id, slug) == WithRunning(d, id, true)
  {
    hide ContainerName, OldName;
    assert Restored(d', id, slug).Keys == d.Keys;
    assert Restored(d', id, slug)[id] == d[id].(running := true);
  }

  /** Where nothing bears the tenant's name, an attempt only adds what does. */
  lemma AttemptedAdds(d: Daemon, p: Params, d': Daemon)
    requires Attempted(d, p, d') && forall i | i in d :: d[i].name != ContainerName(p.slug)
    ensures forall i | i in d :: i in d' && d'[i] == d[i]
    ensures forall i | i in d' && i !in d :: d'[i].name == ContainerName(p.slug)
  {
    hide NameFree, ContainerName;
  }

  /** How a replacement can end, from the daemon `d0`; `undoFailed` says whether a call of
      the put-back failed. */
  ghost predicate EndsAs(d0: Daemon, p: Params, r: Result<Status, Error>, undoFailed: bool, d': Daemon)
  {
    var d := Cleared(d0, p.slug);
    match r
    case Ok(status) => status == Created && Replaced(d0, p, d')
    case Err(PullFailed) => d' == d0
    case Err(ClearFailed) => d' == d0 || d' == d
    case Err(LookupFailed) => d' == d
    case Err(CleanupFailed) => exists id: nat :: Succeeded(d, id, p, d')
    case Err(PutBackFailed) => undoFailed && exists id: nat :: Named(d, id, p.slug) && id in d' && SameBut(d'[id],
          d[id])
    case Err(e) =>
      if FromTry(e) then
        || (exists id: nat :: Named(d, id, p.slug) && d' == WithRunning(d, id, true))
        || (NameFree(d, ContainerName(p.slug)) && Attempted(d, p, d'))
      else
        && (e == StopFailed || e == RenameFailed)
        && exists id: nat :: Named(d, id, p.slug) && (d' == d || d' == WithRunning(d, id, false))
  }

  lemma PullFailedEnds(d: Daemon, p: Params)
    ensures EndsAs(d, p, Err(PullFailed), false, d)
  {}

  lemma SetAsideEnds(d0: Daemon, p: Params, e: Error, d': Daemon)
    requires var d := Cleared(d0, p.slug);
             match e
             case ClearFailed => d' == d0 || d' == d
             case LookupFailed => d' == d
             case _ =>
               && (e == StopFailed || e == RenameFailed)
               && exists id: nat | Named(d, id, p.slug) ::
                    d' == WithRunning(d, id, false) || (e == StopFailed && d' == d)
    ensures EndsAs(d0, p, Err(e), false, d')
  {
    hide Cleared, ContainerName;
  }

  lemma PutBackEnds(d0: Daemon, id: nat, p: Params, e: Error, back: bool, d': Daemon)
    requires var d := Cleared(d0, p.slug);
             && Named(d, id, p.slug) && FromTry(e)
             && if back then d' == WithRunning(d, id, true) else id in d' && SameBut(d'[id], d[id])
    ensures EndsAs(d0, p, Err(if back then e else PutBackFailed), !back, d')
  {
    hide Cleared, ContainerName;
  }

  lemma TryFailureRestores(d0: Daemon, id: nat, p: Params, e: Error, undoFailed: bool, d': Daemon)
    requires UniqueNames(d0) && Named(Cleared(d0, p.slug), id, p.slug) && EndsAs(d0, p, Err(e), undoFailed,
          d') && FromTry(e)
    ensures d' == WithRunning(Cleared(d0, p.slug), id, true)
  {
    hide ContainerName, UniqueNames, NameFree, Wanted, Attempted, Cleared;
    var d := Cleared(d0, p.slug);
    ClearedUnique(d0, p.slug);
    NamedOnce(d, p.slug);
  }

  lemma CleanupFailureReplaces(d: Daemon, id: nat, p: Params, d': Daemon)
    requires Succeeded(d, id, p, d')
    ensures exists new_: nat :: new_ in d' && d'[new_] == Wanted(p)
  {
    hide ContainerName, OldName, Wanted;
    var new_: nat :| new_ !in d && (d' == Aside(d, id,
          p.slug)[new_ := Wanted(p)] || d' == (d - {id})[new_ := Wanted(p)]);
    assert new_ in d' && d'[new_] == Wanted(p);
  }

  lemma OtherFailureKeeps(d0: Daemon, id: nat, p: Params, e: Error, undoFailed: bool, d': Daemon)
    requires UniqueNames(d0) && Named(Cleared(d0, p.slug), id, p.slug) && EndsAs(d0, p, Err(e), undoFailed, d')
    requires !FromTry(e) && e != CleanupFailed
    ensures id in d' && SameBut(d'[id], d0[id])
    ensures e == PullFailed || e == ClearFailed || e == LookupFailed ==> d'[id] == d0[id]
  {
    hide ContainerName, UniqueNames, NameFree, Wanted, Attempted, Cleared, Replaced, Succeeded;
    var d := Cleared(d0, p.slug);
    ClearedSame(d0, id, p.slug);
    ClearedUnique(d0, p.slug);
    NamedOnce(d, p.slug);
    if e == PutBackFailed {
      var i: nat :| Named(d, i, p.slug) && i in d' && SameBut(d'[i], d[i]);
      assert i == id;
    } else if e == StopFailed || e == RenameFailed {
      var i: nat :| Named(d, i, p.slug) && (d' == d || d' == WithRunning(d, i, false));
      assert i == id;
    }
  }

  lemma ClearedSame(d0: Daemon, id: nat, slug: string)
    requires id in Cleared(d0, slug)
    ensures id in d0 && Cleared(d0, slug)[id] == d0[id]
  {}

  /** What a tenant can count on when a replacement fails: past the set-aside, and with no
      call of the put-back failing, its container is back under its name and running; in
      any case it is still there, unless its replacement took over. */
  lemma FailureKeepsDatabase(d0: Daemon, id: nat, p: Params, e: Error, undoFailed: bool, d': Daemon)
    requires UniqueNames(d0) && ValidSlug(p.slug) && Named(d0, id, p.slug) && EndsAs(d0, p, Err(e), undoFailed, d')
    ensures AfterSetAside(e) && !undoFailed ==>
              d' == WithRunning(Cleared(d0, p.slug), id, true) && Named(d', id, p.slug) && d'[id].running
    ensures e != CleanupFailed ==> id in d' && SameBut(d'[id], d0[id])
    ensures e == PullFailed || e == ClearFailed || e == LookupFailed ==> d'[id] == d0[id]
    ensures e == CleanupFailed ==> exists new_: nat :: new_ in d' && d'[new_] == Wanted(p)
  {
    NeverOld(p.slug, p.slug);
    assert Named(Cleared(d0, p.slug), id, p.slug) && Cleared(d0, p.slug)[id] == d0[id];
    hide ContainerName, OldName, ValidSlug, UniqueNames, NameFree, Wanted, Cleared;
    if FromTry(e) {
      TryFailureRestores(d0, id, p, e, undoFailed, d');
    } else if e == CleanupFailed {
      var old_: nat :| Succeeded(Cleared(d0, p.slug), old_, p, d');
      CleanupFailureReplaces(Cleared(d0, p.slug), old_, p, d');
    } else {
      hide EndsAs;
      OtherFailureKeeps(d0, id, p, e, undoFailed, d');
    }
  }

  /** The container that was there still is, and past the set-aside, with no call of the
      put-back failing, everything is back with it running. */
  ghost predicate Unharmed(d0: Daemon, id: nat, p: Params, e: Error, undoFailed: bool, d': Daemon)
    requires id in d0
  {
    && id in d' && SameBut(d'[id], d0[id])
    && (AfterSetAside(e) && !undoFailed ==>
          d' == WithRunning(Cleared(d0, p.slug), id, true) && Named(d', id, p.slug) && d'[id].running)
  }

  lemma FailureUnharmed(d0: Daemon, id: nat, p: Params, e: Error, undoFailed: bool, d': Daemon)
    requires UniqueNames(d0) && ValidSlug(p.slug) && Named(d0, id, p.slug) && EndsAs(d0, p, Err(e), undoFailed, d')
    requires e != CleanupFailed
    ensures Unharmed(d0, id, p, e, undoFailed, d')
  {
    hide UniqueNames, ValidSlug, EndsAs, Cleared, ContainerName;
    FailureKeepsDatabase(d0, id, p, e, undoFailed, d');
  }

  lemma EndingParts(d0: Daemon, p: Params, r: Result<Status, Error>, undoFailed: bool, d': Daemon)
    requires EndsAs(d0, p, r, undoFailed, d') && UniqueNames(d0) && ValidSlug(p.slug)
    ensures r.Ok? ==> r.value == Created && Replaced(d0, p, d')
    ensures r == Err(PullFailed) ==> d' == d0
    ensures r == Err(CleanupFailed) ==> exists new_: nat :: new_ in d' && d'[new_] == Wanted(p)
    ensures r != Err(Rejected) && r != Err(NetworkFailed)
    ensures forall id | Named(d0, id, p.slug) :: Named(Cleared(d0, p.slug), id, p.slug)
  {
    NeverOld(p.slug, p.slug);
    hide ContainerName, OldName, ValidSlug, UniqueNames, NameFree, Wanted, Replaced;
    if r == Err(CleanupFailed) {
      var d := Cleared(d0, p.slug);
      var id: nat :| Succeeded(d, id, p, d');
      CleanupFailureReplaces(d, id, p, d');
    }
  }

  lemma AttemptedNothing(d: Daemon, p: Params)
    ensures Attempted(d, p, d)
  {}

  lemma AttemptedKeeps(d: Daemon, p: Params, d': Daemon)
    requires Attempted(d, p, d')
    ensures forall id | id in d :: id in d' && SameBut(d'[id], d[id])
  {
    hide NameFree, ContainerName;
  }

  /** The volumes `remove` takes. */
  function Doomed(slug: string, keepVolume: bool): set<string>
  {
    {ScratchName(slug)} + if keepVolume then {} else {WalName(slug), DataName(slug)}
  }

  function Removed(w: World, slug: string, keepVolume: bool): World
  {
    World(Without(w.daemon, ContainerName(slug)), w.volumes - Doomed(slug, keepVolume),
          w.networks - {NetworkName(slug)})
  }

  /** Docker refuses to remove a volume that a container mounts, running or not. */
  ghost predicate Removable(w: World, slug: string, keepVolume: bool)
  {
    forall v | v in Doomed(slug, keepVolume) && v in w.volumes ::
      Unmounted(Without(w.daemon, ContainerName(slug)), v)
  }

  lemma VolumesApart(slug: string)
    ensures DataName(slug) != ScratchName(slug) && DataName(slug) != WalName(slug) && ScratchName(slug) != WalName(slug)
  {
    DifferAt(DataName(slug), ScratchName(slug), 6);
    DifferAt(DataName(slug), WalName(slug), 6);
    DifferAt(ScratchName(slug), WalName(slug), 6);
  }

  /** A predecessor left set aside (its removal failed, or the put-back did) keeps the
      tenant from being removed: `remove` looks only for the container under its name. */
  lemma LeftoverBlocksRemoval(w: World, id: nat, slug: string, keepVolume: bool)
    requires id in w.daemon && w.daemon[id].name == OldName(slug)
    requires ScratchName(slug) in w.daemon[id].mounts && ScratchName(slug) in w.volumes
    ensures !Removable(w, slug, keepVolume)
  {
    assert |OldName(slug)| != |ContainerName(slug)|;
    hide ContainerName, OldName, ScratchName;
    assert id in Without(w.daemon, ContainerName(slug));
    assert !Unmounted(Without(w.daemon, ContainerName(slug)), ScratchName(slug));
  }

  lemma SameKept(w: World, slug: string)
    ensures OthersKept(w, slug, w)
  {}

  /** Failures inside the `try`, after which what was set aside is put back. */
  predicate FromTry(e: Error)
  {
    e == CreateFailed || e == ImageUnavailable || e == StartFailed || e == NotReady || e == ChownFailed
  }

  /** Failures past the set-aside that the put-back answers. */
  predicate AfterSetAside(e: Error)
  {
    FromTry(e) || e == PutBackFailed
  }

  /** How many mounts `ensure` hands over to postgres. */
  function ChownCount(c: Container, slug: string): nat
  {
    (if ScratchName(slug) in c.mounts then 1 else 0) + if WalName(slug) in c.mounts then 1 else 0
  }

  /** Volumes are only added, and only those the container asked for mounts. */
  predicate MoreVolumes(w: World, p: Params, w': World)
  {
    w.volumes <= w'.volumes <= w.volumes + Wanted(p).mounts && w'.networks == w.networks
  }

  lemma MountsAreOwn(p: Params)
    ensures Wanted(p).mounts <= VolumeNames(p.slug)
  {}

  lemma AttemptedAfter(d: Daemon, p: Params, d': Daemon, r: Result<nat, Error>, status: Status)
    requires var stopped := Wanted(p).(running := false);
             match r
             case Err(_) => d' == d || exists id: nat :: Added(d, id, stopped, d')
             case Ok(id) =>
               match status
               case Ready => Named(d, id, p.slug) && d' == d
               case Created => Added(d, id, stopped, d')
    ensures Attempted(d, p, d')
    ensures r.Ok? ==> Named(d', r.value, p.slug)
  {
    var stopped := Wanted(p).(running := false);
    if d' != d {
      var id: nat :| Added(d, id, stopped, d');
      assert Added(d, id, Wanted(p).(running := false), d');
    }
  }

  lemma StartedOrNot(d: Daemon, p: Params, d1: Daemon, id: nat, status: Status, d2: Daemon)
    requires match status
             case Ready => Named(d, id, p.slug) && d1 == d
             case Created => Added(d, id, Wanted(p).(running := false), d1)
    requires d2 == d1 || d2 == WithRunning(d1, id, true)
    ensures Attempted(d, p, d2)
  {
    if d2 != d1 {
      Started(d, p, d1, id, status, d2);
    } else if status.Created? {
      assert Added(d, id, Wanted(p).(running := false), d2);
    }
  }

  lemma Started(d: Daemon, p: Params, d1: Daemon, id: nat, status: Status, d2: Daemon)
    requires match status
             case Ready => Named(d, id, p.slug) && d1 == d
             case Created => Added(d, id, Wanted(p).(running := false), d1)
    requires d2 == WithRunning(d1, id, true) || (d2 == d1 && d1[id].running)
    ensures BroughtUp(d, p, d2, status) && Attempted(d, p, d2)
    ensures Named(d2, id, p.slug) && d2[id].running
  {
    hide NameFree, ContainerName;
    match status
    case Ready =>
      assert d2 == WithRunning(d, id, true);
      assert TurnedOn(d, id, p.slug, d2);
    case Created =>
      assert d2 == d[id := Wanted(p)];
      assert Added(d, id, Wanted(p), d2);
      assert Wanted(p).(running := true) == Wanted(p);
      assert Added(d, id, Wanted(p).(running := true), d2);
  }

  lemma OnlyOwnTransitive(a: Daemon, slug: string, b: Daemon, c: Daemon)
    requires OnlyOwn(a, slug, b) && OnlyOwn(b, slug, c)
    ensures OnlyOwn(a, slug, c)
  {}

  /** With what the tenant had set aside, or nothing there to set aside, a replacement
      brought up is a newly created one. */
  lemma ReplacementIsNew(d: Daemon, base: Daemon, p: Params, d': Daemon, status: Status)
    requires NameFree(base, ContainerName(p.slug)) && BroughtUp(base, p, d', status)
    requires base.Keys == d.Keys
    ensures status == Created
    ensures exists id: nat :: id !in d && d' == base[id := Wanted(p)]
  {
    hide ContainerName;
    assert status.Created?;
    var id: nat :| Added(base, id, Wanted(p), d');
    assert id !in d && d' == base[id := Wanted(p)];
  }

  lemma ClearedUnique(d: Daemon, slug: string)
    requires UniqueNames(d)
    ensures UniqueNames(Cleared(d, slug))
  {
    hide OldName;
  }

  lemma NamedOnce(d: Daemon, slug: string)
    requires UniqueNames(d)
    ensures forall i, j | Named(d, i, slug) && Named(d, j, slug) :: i == j
    ensures NameFree(d, ContainerName(slug)) ==> forall i :: !Named(d, i, slug)
  {
    hide ContainerName;
  }

  lemma StoppedAside(d: Daemon, id: nat, slug: string)
    requires Sound(d) && ValidSlug(slug) && id in d && d[id].name == OldName(slug)
    ensures !d[id].running && OldName(slug) != ContainerName(slug)
  {
    OldIsAside(slug);
    NeverOld(slug, slug);
  }

  lemma AsideFreesName(d: Daemon, id: nat, slug: string)
    requires UniqueNames(d) && Named(d, id, slug) && ValidSlug(slug)
    ensures NameFree(Aside(d, id, slug), ContainerName(slug))
    ensures Aside(d, id, slug).Keys == d.Keys
  {
    NeverOld(slug, slug);
  }

  /** The replacement in place, its predecessor set aside or gone. */
  ghost predicate Succeeded(d: Daemon, id: nat, p: Params, d': Daemon)
  {
    && Named(d, id, p.slug)
    && exists new_: nat | new_ !in d ::
         d' == Aside(d, id, p.slug)[new_ := Wanted(p)] || d' == (d - {id})[new_ := Wanted(p)]
  }

  lemma AsideIsVacated(d0: Daemon, d: Daemon, id: nat, p: Params, new_: nat)
    requires UniqueNames(d0) && d == Cleared(d0, p.slug) && Named(d, id, p.slug) && new_ !in d
    ensures (Aside(d, id, p.slug)[new_ := Wanted(p)]) - {id} == Vacated(d0, p.slug)[new_ := Wanted(p)]
    ensures (d - {id})[new_ := Wanted(p)] == Vacated(d0, p.slug)[new_ := Wanted(p)]
  {
    hide ContainerName, OldName, Wanted;
    assert d - {id} == Vacated(d0, p.slug);
    assert Aside(d, id, p.slug) - {id} == d - {id};
  }

  lemma NothingAside(d0: Daemon, slug: string)
    requires NameFree(Cleared(d0, slug), ContainerName(slug))
    ensures Cleared(d0, slug) == Vacated(d0, slug)
  {
    hide ContainerName, OldName;
    assert forall i | i in d0 && d0[i].name == ContainerName(slug) :: i !in Cleared(d0, slug);
  }

  function SlugOf(call: Call): string
  {
    if call.Ensure? then call.p.slug else call.slug
  }

  /** What every call keeps to, however it ends. */
  ghost predicate Called(w: World, call: Call, w': World)
  {
    && (Sound(w.daemon) ==> Sound(w'.daemon))
    && if ValidSlug(SlugOf(call)) then OthersKept(w, SlugOf(call), w') else w' == w
  }

  ghost predicate Run(worlds: seq<World>, calls: seq<Call>)
  {
    |worlds| == |calls| + 1 && forall i | 0 <= i < |calls| :: Called(worlds[i], calls[i], worlds[i + 1])
  }

  /** Over any run of calls, however they fail: a tenant that no call names has all its
      containers, those set aside included, its volumes and its network as they were. */
  lemma {:induction false} RunIsolated(worlds: seq<World>, calls: seq<Call>, tenant: string)
    requires Run(worlds, calls) && ValidSlug(tenant)
    requires forall i | 0 <= i < |calls| :: SlugOf(calls[i]) != tenant
    ensures Part(worlds[|calls|], tenant) == Part(worlds[0], tenant)
    decreases |calls|
  {
    hide Part, OthersKept, ValidSlug;
    if calls == [] {
    } else {
      var last := |calls| - 1;
      assert Called(worlds[last], calls[last], worlds[last + 1]);
      if ValidSlug(SlugOf(calls[last])) {
        OtherTenantUntouched(worlds[last], SlugOf(calls[last]), worlds[last + 1], tenant);
      }
      assert Run(worlds[..|calls|], calls[..last]);
      RunIsolated(worlds[..|calls|], calls[..last], tenant);
    }
  }

  /** And no container that was set aside ever runs. */
  lemma {:induction false} RunKeepsAsideStopped(worlds: seq<World>, calls: seq<Call>)
    requires Run(worlds, calls) && Sound(worlds[0].daemon)
    ensures forall i | i in worlds[|calls|].daemon && IsAside(worlds[|calls|].daemon[i].name) ::
              !worlds[|calls|].daemon[i].running
    ensures Sound(worlds[|calls|].daemon)
    decreases |calls|
  {
    if calls == [] {
    } else {
      var last := |calls| - 1;
      assert Called(worlds[last], calls[last], worlds[last + 1]);
      assert Run(worlds[..|calls|], calls[..last]);
      RunKeepsAsideStopped(worlds[..|calls|], calls[..last]);
    }
  }

  predicate Unmounted(d: Daemon, volume: string)
  {
    forall i | i in d :: volume !in d[i].mounts
  }
}
