/** The Docker daemon as far as the agent drives it: containers with unique names,
    and calls that may fail before or after taking effect. */
module Docker {

  datatype Container = Container(name: string, running: bool, command: seq<string>, mounts: set<string>)

  /** How the call made at one moment goes. `flag` decides what is left open beyond
      its outcome: whether `run` left the container running, or an image was found. */
  datatype Outcome = Works | FailsBefore | FailsAfter

  datatype Event = Event(outcome: Outcome, flag: bool)

  /** The time at each moment: it never runs back, and it does pass. */
  type Clock = c: nat -> real | Ticks(c) ghost witness Seconds()

  ghost predicate Ticks(c: nat -> real)
  {
    && (forall i: nat, j: nat | i <= j :: c(i) <= c(j))
    && (forall t: real :: Passes(c, t))
  }

  ghost predicate Passes(c: nat -> real, t: real)
  {
    exists k: nat :: c(k) >= t
  }

  ghost function Seconds(): (c: nat -> real)
    ensures Ticks(c)
  {
    var c := (k: nat) => k as real;
    SecondsTick(c);
    c
  }

  lemma SecondsTick(c: nat -> real)
    requires forall k: nat :: c(k) == k as real
    ensures Ticks(c)
  {
    forall t: real ensures Passes(c, t) {
      var k: nat := if t <= 0.0 then 0 else t.Floor + 1;
      assert c(k) >= t;
    }
  }

  /** Some later moment is at least a second away. */
  lemma SecondPasses(c: Clock, now: nat) returns (later: nat)
    ensures now < later && c(now) + 1.0 <= c(later)
  {
    assert Passes(c, c(now) + 1.0);
    later :| c(later) >= c(now) + 1.0;
    assert !(later <= now);
  }

  /** A sleep of one second begun at `now` is over at the first moment at least as much
      later. */
  ghost predicate Wakes(c: Clock, now: nat, woken: nat)
  {
    now < woken && c(now) + 1.0 <= c(woken) && forall k | now < k < woken :: c(k) < c(now) + 1.0
  }

  lemma WokenLater(c: Clock, now: nat, woken: nat)
    requires Wakes(c, now, woken)
    ensures now < woken && c(now) + 1.0 <= c(woken)
  {}

  lemma NeverBack(c: Clock, earlier: nat, later: nat)
    requires earlier <= later
    ensures c(earlier) <= c(later)
  {}

  /** Containers by identity. */
  type Daemon = map<nat, Container>

  ghost predicate UniqueNames(d: Daemon)
  {
    forall i, j | i in d && j in d && d[i].name == d[j].name :: i == j
  }

  predicate NameFree(d: Daemon, name: string)
  {
    forall i | i in d :: d[i].name != name
  }

  function WithRunning(d: Daemon, id: nat, running: bool): Daemon
  {
    if id in d then d[id := d[id].(running := running)] else d
  }

  function WithName(d: Daemon, id: nat, name: string): Daemon
  {
    if id in d then d[id := d[id].(name := name)] else d
  }

  /** `stop` and `start`: a failed call may or may not have taken effect. */
  predicate SwitchCall(d: Daemon, id: nat, running: bool, d': Daemon, ok: bool)
  {
    && (d' == d || d' == WithRunning(d, id, running))
    && (ok ==> id in d && d' == WithRunning(d, id, running))
  }

  /** `remove`, likewise. */
  predicate RemoveCall(d: Daemon, id: nat, d': Daemon, ok: bool)
  {
    && (d' == d || d' == d - {id})
    && (ok ==> id in d && d' == d - {id})
  }

  /** `rename`: all or nothing, refused when the name is taken. */
  predicate RenameCall(d: Daemon, id: nat, name: string, d': Daemon, ok: bool)
  {
    if ok then id in d && NameFree(d, name) && d' == WithName(d, id, name) else d' == d
  }

  /** `create` and `run`: a failed call may leave the container, running or not. */
  predicate CreateCall(d: Daemon, id: nat, c: Container, d': Daemon, ok: bool)
  {
    && id !in d
    && (d' == d || (NameFree(d, c.name) && (d' == d[id := c] || d' == d[id := c.(running := !c.running)])))
    && (ok ==> NameFree(d, c.name) && d' == d[id := c])
  }

  /** Without any call, a container may stop or disappear. */
  ghost predicate OutsideChange(d: Daemon, d': Daemon)
  {
    exists id :: d' == d - {id} || d' == WithRunning(d, id, false)
  }

  lemma CallsKeepNamesUnique(d: Daemon, id: nat, name: string, c: Container, d': Daemon, ok: bool)
    requires UniqueNames(d)
    requires SwitchCall(d, id, true, d', ok) || SwitchCall(d, id, false, d', ok) || RemoveCall(d, id, d', ok)
             || RenameCall(d, id, name, d', ok) || CreateCall(d, id, c, d', ok)
    ensures UniqueNames(d')
  {}

  /** An identity the daemon has not used. */
  method FreshId(d: Daemon, id: nat) returns (fresh_: nat)
    ensures fresh_ !in d && fresh_ != id
  {
    fresh_ := id + 1;
    ghost var rest := d.Keys;
    while fresh_ in d
      invariant rest <= d.Keys && fresh_ > id
      invariant forall i | i in d.Keys && i >= fresh_ :: i in rest
      decreases |rest|
    {
      rest := rest - {fresh_};
      fresh_ := fresh_ + 1;
    }
  }

  /** A deadline comes closer by a whole second at each sleep. */
  lemma FloorDrops(a: real, b: real)
    requires b <= a - 1.0
    ensures b.Floor < a.Floor
  {}
}
