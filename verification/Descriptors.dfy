/** Descriptors on the way down a path: each directory is opened relative to its
    parent's descriptor, without following links, while anyone may change the tree
    (`_open_dir`, `_parent_fd`, `mkdir`, `read_bytes`). */
module Descriptors {
  import opened Text

  datatype Entry = Directory(inode: nat) | File(inode: nat) | Symlink

  /** What others have made of a name by some moment: nothing, so that it is what this
      process made of it; or something of their own, its absence included. */
  datatype Others = Untouched | Theirs(entry: Option<Entry>)

  /** `Unclosable`: the close of a directory just left failed; `CloseFailed`: another's. */
  datatype Error = AtRoot | Loop | Unopenable | Uncreatable | Unclosable | Unreadable | CloseFailed

  datatype Made = Created | Existed | Failed

  /** What the system answers a call with, where the tree leaves it open: a fault, which
      error an entry that is no directory gives, whether a close reports success, and
      the inode a new directory gets. */
  datatype Answer = Answer(fault: bool, loop: bool, closes: bool, inode: nat)

  /** The directories this process made, by parent and name. */
  type Making = map<(nat, string), nat>

  const ROOT: nat := 0

  /** The system's side. Each call takes one moment. */
  class Kernel {
    const others: (nat, nat, string) -> Others
    const answer: nat -> Answer
    var tick: nat
    /** The descriptors the process holds, with what they were opened on. */
    var open: map<nat, nat>
    var made: Making
    /** Closes of a descriptor that was not open. */
    ghost var badCloses: nat

    constructor (others: (nat, nat, string) -> Others, answer: nat -> Answer)
      ensures this.others == others && this.answer == answer
      ensures tick == 0 && open == map[] && made == map[] && badCloses == 0
    {
      this.others, this.answer := others, answer;
      tick, open, made, badCloses := 0, map[], map[], 0;
    }

    /** What a name in a directory is at a moment. */
    function Entry(made: Making, t: nat, dir: nat, name: string): Option<Entry>
    {
      match others(t, dir, name)
      case Theirs(entry) => entry
      case Untouched => if (dir, name) in made then Some(Directory(made[(dir, name)])) else None
    }

    /** After a `mkdir` that no fault stopped: a name that was absent is a directory. */
    function After(made: Making, t: nat, dir: nat, name: string): Making
    {
      if Entry(made, t, dir, name).None? then made[(dir, name) := answer(t).inode] else made
    }

    method NextAnswer() returns (a: Answer)
      modifies this`tick
      ensures tick == old(tick) + 1 && a == answer(old(tick))
    {
      a := answer(tick);
      tick := tick + 1;
    }

    /** A descriptor not in use. */
    method Unused() returns (fd: nat)
      ensures fd !in open
    {
      fd := 0;
      ghost var rest := open.Keys;
      while fd in open
        invariant rest <= open.Keys && forall i | i in open.Keys && i >= fd :: i in rest
        decreases |rest|
      {
        rest := rest - {fd};
        fd := fd + 1;
      }
    }

    /** `os.open(self._data_root, ...)` */
    method OpenRoot() returns (r: Result<nat, Error>)
      modifies this`tick, this`open
      ensures tick == old(tick) + 1 && (r.Ok? <==> !answer(old(tick)).fault)
      ensures match r
              case Ok(fd) => fd !in old(open) && open == old(open)[fd := ROOT]
              case Err(e) => e == Unopenable && open == old(open)
    {
      var a := NextAnswer();
      if a.fault {
        return Err(Unopenable);
      }
      var fd := Unused();
      open := open[fd := ROOT];
      r := Ok(fd);
    }

    /** `os.open(name, O_DIRECTORY | O_NOFOLLOW, dir_fd=dir)` */
    method OpenAt(dir: nat, name: string) returns (r: Result<nat, Error>)
      requires dir in open
      modifies this`tick, this`open
      ensures tick == old(tick) + 1
      ensures r.Ok? <==> !answer(old(tick)).fault && IsDirectory(Entry(made, old(tick), old(open)[dir], name))
      ensures match r
              case Ok(fd) =>
                && fd !in old(open) && fd in open && open == old(open)[fd := open[fd]]
                && Entry(made, old(tick), old(open)[dir], name) == Some(Directory(open[fd]))
              case Err(e) => (e == Loop || e == Unopenable) && open == old(open)
    {
      var found := Entry(made, tick, open[dir], name);
      var a := NextAnswer();
      if a.fault || !IsDirectory(found) {
        return Err(if a.loop then Loop else Unopenable);
      }
      var fd := Unused();
      open := open[fd := found.value.inode];
      r := Ok(fd);
    }

    /** `os.open(name, O_RDONLY | O_NOFOLLOW, dir_fd=dir)` */
    method OpenFileAt(dir: nat, name: string) returns (r: Result<nat, Error>)
      requires dir in open
      modifies this`tick, this`open
      ensures tick == old(tick) + 1
      ensures r.Ok? <==> !answer(old(tick)).fault && IsReal(Entry(made, old(tick), old(open)[dir], name))
      ensures match r
              case Ok(fd) =>
                && fd !in old(open) && fd in open && open == old(open)[fd := open[fd]]
                && Entry(made, old(tick), old(open)[dir], name) in {Some(Directory(open[fd])), Some(File(open[fd]))}
              case Err(e) => (e == Loop || e == Unopenable) && open == old(open)
    {
      var found := Entry(made, tick, open[dir], name);
      var a := NextAnswer();
      if a.fault || found.None? || found.value.Symlink? {
        return Err(if a.loop then Loop else Unopenable);
      }
      var fd := Unused();
      open := open[fd := found.value.inode];
      r := Ok(fd);
    }

    /** `os.mkdir(name, dir_fd=dir)` */
    method MkdirAt(dir: nat, name: string) returns (result: Made)
      requires dir in open
      modifies this`tick, this`made
      ensures tick == old(tick) + 1
      ensures result.Failed? <==> answer(old(tick)).fault
      ensures made == if result.Failed? then old(made) else After(old(made), old(tick), open[dir], name)
    {
      var existed := Entry(made, tick, open[dir], name).Some?;
      var a := NextAnswer();
      if a.fault {
        return Failed;
      }
      if existed {
        return Existed;
      }
      made := made[(open[dir], name) := a.inode];
      result := Created;
    }

    /** `os.close(fd)`: an open descriptor is closed even when an error is reported. */
    method Close(fd: nat) returns (ok: bool)
      modifies this`tick, this`open, this`badCloses
      ensures tick == old(tick) + 1
      ensures open == old(open) - {fd}
      ensures badCloses == old(badCloses) + if fd in old(open) then 0 else 1
      ensures ok == (fd in old(open) && answer(old(tick)).closes)
    {
      ok := fd in open;
      if fd !in open {
        badCloses := badCloses + 1;
      }
      open := open - {fd};
      var a := NextAnswer();
      ok := ok && a.closes;
    }

    /** A call on an open file. */
    method Use(fd: nat) returns (ok: bool)
      requires fd in open
      modifies this`tick
      ensures tick == old(tick) + 1 && ok == !answer(old(tick)).fault
    {
      var a := NextAnswer();
      ok := !a.fault;
    }
  }

  predicate IsDirectory(entry: Option<Entry>)
  {
    entry.Some? && entry.value.Directory?
  }

  /** There, and no link. */
  predicate IsReal(entry: Option<Entry>)
  {
    entry.Some? && !entry.value.Symlink?
  }

  /** The directory reached after so many hops. */
  function Reached(hops: seq<nat>): nat
  {
    if hops == [] then ROOT else hops[|hops| - 1]
  }

  /** The moment of the `k`-th open of a walk whose first call below the root is at `t`:
      each name takes an open and a close, and a `mkdir` before them when it makes. */
  function OpensAt(t: nat, makes: bool, k: nat): nat
  {
    if makes then t + 3 * k + 1 else t + 2 * k
  }

  /** What the process has made after `k` names of a walk. */
  ghost function MadeBy(kernel: Kernel, made: Making, t: nat, makes: bool, hops: seq<nat>, parts: seq<string>,
      k: nat): Making
    requires k <= |parts| && k <= |hops| + 1
    decreases k
  {
    if !makes || k == 0 then made
    else kernel.After(MadeBy(kernel, made, t, makes, hops, parts, k - 1), OpensAt(t, makes, k - 1) - 1,
                      Reached(hops[..k - 1]), parts[k - 1])
  }

  /** What the `k`-th open finds. */
  ghost function Found(kernel: Kernel, made: Making, t: nat, makes: bool, hops: seq<nat>, parts: seq<string>,
      k: nat): Option<Entry>
    requires k < |parts| && k <= |hops|
  {
    kernel.Entry(MadeBy(kernel, made, t, makes, hops, parts, k + 1), OpensAt(t, makes, k), Reached(hops[..k]), parts[k])
  }

  /** Each name in turn was, when it was opened, a directory in the one before: no link
      was followed and nothing above the root was ever opened. */
  ghost predicate Descended(kernel: Kernel, made: Making, t: nat, makes: bool, hops: seq<nat>, parts: seq<string>)
  {
    |hops| <= |parts|
    && forall k | 0 <= k < |hops| :: Found(kernel, made, t, makes, hops, parts, k) == Some(Directory(hops[k]))
  }

  /** Some close of a directory just left fails on the way down `parts` from `dir`: no
      fault and no missing directory comes before it. */
  ghost predicate CloseFails(kernel: Kernel, made: Making, t: nat, makes: bool, dir: nat, parts: seq<string>)
    decreases |parts|
  {
    parts != [] && !(makes && kernel.answer(t).fault)
    && var made' := if makes then kernel.After(made, t, dir, parts[0]) else made;
       var at := OpensAt(t, makes, 0);
       var found := kernel.Entry(made', at, dir, parts[0]);
       && !kernel.answer(at).fault && IsDirectory(found)
       && (!kernel.answer(at + 1).closes || CloseFails(kernel, made', at + 2, makes, found.value.inode, parts[1..]))
  }

  /** Between a `mkdir` and the open that follows it, only others can keep the name from
      being a directory. */
  lemma OnlyOthersInterfere(kernel: Kernel, made: Making, t: nat, dir: nat, name: string)
    requires kernel.others(t, dir, name).Untouched? && kernel.others(t + 1, dir, name).Untouched?
    ensures IsDirectory(kernel.Entry(kernel.After(made, t, dir, name), t + 1, dir, name))
  {}

  lemma SameMade(kernel: Kernel, made: Making, t: nat, makes: bool, hops: seq<nat>, hop: nat, parts: seq<string>,
      k: nat)
    requires k <= |parts| && k <= |hops| + 1
    ensures MadeBy(kernel, made, t, makes, hops + [hop], parts, k) == MadeBy(kernel, made, t, makes, hops, parts, k)
    decreases k
  {
    if makes && k > 0 {
      assert (hops + [hop])[..k - 1] == hops[..k - 1];
      SameMade(kernel, made, t, makes, hops, hop, parts, k - 1);
    }
  }

  lemma OneFurther(kernel: Kernel, made: Making, t: nat, makes: bool, hops: seq<nat>, parts: seq<string>, hop: nat)
    requires Descended(kernel, made, t, makes, hops, parts) && |hops| < |parts|
    requires Found(kernel, made, t, makes, hops, parts, |hops|) == Some(Directory(hop))
    ensures Descended(kernel, made, t, makes, hops + [hop], parts) && Reached(hops + [hop]) == hop
    ensures MadeBy(kernel, made, t, makes, hops + [hop], parts, |hops| + 1)
         == MadeBy(kernel, made, t, makes, hops, parts, |hops| + 1)
  {
    hide MadeBy;
    var all := hops + [hop];
    SameMade(kernel, made, t, makes, hops, hop, parts, |hops| + 1);
    forall k | 0 <= k < |all| ensures Found(kernel, made, t, makes, all, parts, k) == Some(Directory(all[k])) {
      assert all[..k] == hops[..k];
      assert hops[..|hops|] == hops;
      SameMade(kernel, made, t, makes, hops, hop, parts, k + 1);
    }
  }

  /** Where a walk stands after `i` names, its descriptor on the last directory, and
      whether a close will yet fail unchanged since its start. */
  ghost predicate Underway(kernel: Kernel, made: Making, t: nat, makes: bool, hops: seq<nat>, parts: seq<string>,
                           i: nat, tick: nat, made': Making)
  {
    && i == |hops| <= |parts| && tick == t + (if makes then 3 else 2) * i
    && Descended(kernel, made, t, makes, hops, parts)
    && made' == MadeBy(kernel, made, t, makes, hops, parts, i)
    && (CloseFails(kernel, made, t, makes, ROOT, parts) <==>
          CloseFails(kernel, made', tick, makes, Reached(hops), parts[i..]))
  }

  lemma SetOut(kernel: Kernel, made: Making, t: nat, makes: bool, parts: seq<string>)
    ensures Underway(kernel, made, t, makes, [], parts, 0, t, made) && Reached([]) == ROOT
  {
    assert parts[0..] == parts;
  }

  /** `CloseFails` one name on, `found` being what the first open comes upon. */
  lemma CloseFailsNext(kernel: Kernel, made: Making, t: nat, makes: bool, dir: nat, parts: seq<string>, i: nat)
    requires i < |parts|
    ensures var made' := if makes then kernel.After(made, t, dir, parts[i]) else made;
            var at := OpensAt(t, makes, 0);
            var found := kernel.Entry(made', at, dir, parts[i]);
            CloseFails(kernel, made, t, makes, dir, parts[i..]) <==>
              && !(makes && kernel.answer(t).fault) && !kernel.answer(at).fault && IsDirectory(found)
              && (!kernel.answer(at + 1).closes
                  || CloseFails(kernel, made', at + 2, makes, found.value.inode, parts[i + 1..]))
  {
    assert parts[i..][0] == parts[i] && parts[i..][1..] == parts[i + 1..];
    hide Kernel.After, Kernel.Entry;
  }

  /** What the next name's open comes upon. */
  lemma NextFound(kernel: Kernel, made: Making, t: nat, makes: bool, hops: seq<nat>, parts: seq<string>, i: nat,
                  tick: nat, made': Making)
    requires Underway(kernel, made, t, makes, hops, parts, i, tick, made') && i < |parts|
    ensures var made2 := if makes then kernel.After(made', tick, Reached(hops), parts[i]) else made';
            var at := OpensAt(tick, makes, 0);
            && at == OpensAt(t, makes, i) && made2 == MadeBy(kernel, made, t, makes, hops, parts, i + 1)
            && Found(kernel, made, t, makes, hops, parts, i) == kernel.Entry(made2, at, Reached(hops), parts[i])
    ensures Descended(kernel, made, t, makes, hops, parts)
  {
    hide CloseFails, Kernel.After, Kernel.Entry, Descended;
    assert hops[..i] == hops;
  }

  /** What it means for the closes. */
  lemma NextOpen(kernel: Kernel, made: Making, t: nat, makes: bool, hops: seq<nat>, parts: seq<string>, i: nat,
                 tick: nat, made': Making)
    requires Underway(kernel, made, t, makes, hops, parts, i, tick, made') && i < |parts|
    ensures var made2 := if makes then kernel.After(made', tick, Reached(hops), parts[i]) else made';
            var at, found := OpensAt(tick, makes, 0), Found(kernel, made, t, makes, hops, parts, i);
            CloseFails(kernel, made, t, makes, ROOT, parts) <==>
              && !(makes && kernel.answer(tick).fault) && !kernel.answer(at).fault && IsDirectory(found)
              && (!kernel.answer(at + 1).closes
                  || CloseFails(kernel, made2, at + 2, makes, found.value.inode, parts[i + 1..]))
  {
    NextFound(kernel, made, t, makes, hops, parts, i, tick, made');
    CloseFailsNext(kernel, made', tick, makes, Reached(hops), parts, i);
    hide CloseFails, Kernel.After, Kernel.Entry, Descended, Found, MadeBy, Reached;
  }

  lemma WentDown(kernel: Kernel, made: Making, t: nat, makes: bool, hops: seq<nat>, parts: seq<string>, i: nat,
                 tick: nat, made': Making, hop: nat)
    requires Underway(kernel, made, t, makes, hops, parts, i, tick, made') && i < |parts|
    requires Found(kernel, made, t, makes, hops, parts, i) == Some(Directory(hop))
    requires var at := OpensAt(tick, makes, 0);
             !(makes && kernel.answer(tick).fault) && !kernel.answer(at).fault && kernel.answer(at + 1).closes
    ensures Underway(kernel, made, t, makes, hops + [hop], parts, i + 1, OpensAt(tick, makes, 0) + 2,
                     if makes then kernel.After(made', tick, Reached(hops), parts[i]) else made')
    ensures Reached(hops + [hop]) == hop
  {
    NextFound(kernel, made, t, makes, hops, parts, i, tick, made');
    NextOpen(kernel, made, t, makes, hops, parts, i, tick, made');
    OneFurther(kernel, made, t, makes, hops, parts, hop);
    hide CloseFails, MadeBy, Found, Descended;
  }

  /** Descriptors before and after a call: nothing it opened is left open, save the
      descriptor it returns, nothing else was closed, and nothing closed twice. */
  predicate Balanced(open: map<nat, nat>, badCloses: nat, result: Result<nat, Error>, open': map<nat, nat>,
      badCloses': nat)
  {
    && badCloses' == badCloses
    && match result
       case Ok(fd) => fd !in open && fd in open' && open' == open[fd := open'[fd]]
       case Err(_) => open' == open
  }

  /** One descriptor is open that nobody holds. */
  ghost predicate Lost(held: map<nat, nat>, open: map<nat, nat>)
  {
    exists lost: nat :: lost !in held && open.Keys == held.Keys + {lost}
  }

  /** Why a walk stopped short: a fault, or a name that was no directory when opened. */
  ghost predicate Stopped(kernel: Kernel, made: Making, t: nat, makes: bool, hops: seq<nat>, parts: seq<string>)
  {
    && |hops| < |parts| && Descended(kernel, made, t, makes, hops, parts)
    && var at := OpensAt(t, makes, |hops|);
       || (makes && kernel.answer(at - 1).fault)
       || kernel.answer(at).fault
       || !IsDirectory(Found(kernel, made, t, makes, hops, parts, |hops|))
  }

  lemma StopsHere(kernel: Kernel, made: Making, t: nat, makes: bool, hops: seq<nat>, parts: seq<string>, i: nat,
      tick: nat, made': Making)
    requires Underway(kernel, made, t, makes, hops, parts, i, tick, made') && i < |parts|
    requires || (makes && kernel.answer(tick).fault)
             || kernel.answer(OpensAt(tick, makes, 0)).fault
             || !IsDirectory(Found(kernel, made, t, makes, hops, parts, i))
    ensures Stopped(kernel, made, t, makes, hops, parts) && !CloseFails(kernel, made, t, makes, ROOT, parts)
  {
    NextFound(kernel, made, t, makes, hops, parts, i, tick, made');
    NextOpen(kernel, made, t, makes, hops, parts, i, tick, made');
    hide CloseFails, MadeBy, Found, Descended;
  }

  lemma FailsHere(kernel: Kernel, made: Making, t: nat, makes: bool, hops: seq<nat>, parts: seq<string>, i: nat,
      tick: nat, made': Making)
    requires Underway(kernel, made, t, makes, hops, parts, i, tick, made') && i < |parts|
    requires var at := OpensAt(tick, makes, 0);
             && !(makes && kernel.answer(tick).fault) && !kernel.answer(at).fault && !kernel.answer(at + 1).closes
             && IsDirectory(Found(kernel, made, t, makes, hops, parts, i))
    ensures CloseFails(kernel, made, t, makes, ROOT, parts)
  {
    NextFound(kernel, made, t, makes, hops, parts, i, tick, made');
    NextOpen(kernel, made, t, makes, hops, parts, i, tick, made');
    hide CloseFails, MadeBy, Found, Descended;
  }

  /** Where the walk stands one directory further down. */
  ghost predicate Further(kernel: Kernel, made: Making, t: nat, makes: bool, hops: seq<nat>, hop: nat,
                          parts: seq<string>, tick: nat, made': Making)
  {
    Underway(kernel, made, t, makes, hops + [hop], parts, |hops| + 1, tick, made') && Reached(hops + [hop]) == hop
  }

  /** Whether the open of a name and the close of the directory left went through. */
  ghost predicate Answered(kernel: Kernel, at: nat, found: Option<Entry>, r: Result<nat, Error>)
  {
    var works := !kernel.answer(at).fault && IsDirectory(found);
    && (r.Ok? <==> works && kernel.answer(at + 1).closes)
    && (r == Err(Unclosable) <==> works && !kernel.answer(at + 1).closes)
  }

  /** What a turn of the walk leaves of the descriptors, `held` being others': one on the
      directory reached; none; or one that nobody holds, and another closed twice. */
  ghost predicate Handed(held: map<nat, nat>, badCloses: nat, r: Result<nat, Error>, hop: nat, open: map<nat, nat>,
                         badCloses': nat)
  {
    match r
    case Ok(next) => next !in held && open == held[next := hop] && badCloses' == badCloses
    case Err(Unclosable) => Lost(held, open) && badCloses' == badCloses + 1
    case Err(e) => (e == Uncreatable || e == Loop || e == Unopenable) && open == held && badCloses' == badCloses
  }

  /** Where it leaves the walk. */
  ghost predicate Turned(kernel: Kernel, made: Making, t: nat, makes: bool, hops: seq<nat>, parts: seq<string>,
                         r: Result<nat, Error>, hop: nat, tick: nat, made': Making)
  {
    match r
    case Ok(_) => Further(kernel, made, t, makes, hops, hop, parts, tick, made')
    case Err(Unclosable) =>
      CloseFails(kernel, made, t, makes, ROOT, parts) && Descended(kernel, made, t, makes, hops, parts)
    case Err(_) => !CloseFails(kernel, made, t, makes, ROOT, parts) && Stopped(kernel, made, t, makes, hops, parts)
  }

  function InodeOf(entry: Option<Entry>): nat
  {
    if IsDirectory(entry) then entry.value.inode else 0
  }

  lemma SameFound(kernel: Kernel, made: Making, t: nat, makes: bool, hops: seq<nat>, parts: seq<string>, tick: nat,
                  made': Making)
    requires |hops| < |parts| && Underway(kernel, made, t, makes, hops, parts, |hops|, tick, made')
    ensures Descended(kernel, made, t, makes, hops, parts)
    ensures Found(kernel, made, t, makes, hops, parts, |hops|)
         == kernel.Entry(if makes then kernel.After(made', tick, Reached(hops), parts[|hops|]) else made',
                         OpensAt(tick, makes, 0), Reached(hops), parts[|hops|])
  {
    NextFound(kernel, made, t, makes, hops, parts, |hops|, tick, made');
  }

  /** All that can come of the next name, by what the system answers. */
  lemma Onward(kernel: Kernel, made: Making, t: nat, makes: bool, hops: seq<nat>, parts: seq<string>, tick: nat,
               made': Making, r: Result<nat, Error>, tick': nat, made2: Making)
    requires |hops| < |parts| && Underway(kernel, made, t, makes, hops, parts, |hops|, tick, made')
    requires made2 == if makes then kernel.After(made', tick, Reached(hops), parts[|hops|]) else made'
    requires !(makes && kernel.answer(tick).fault)
    requires var at := OpensAt(tick, makes, 0);
             && Answered(kernel, at, kernel.Entry(made2, at, Reached(hops), parts[|hops|]), r)
             && (r.Ok? ==> tick' == at + 2)
    ensures var found := kernel.Entry(made2, OpensAt(tick, makes, 0), Reached(hops), parts[|hops|]);
            Turned(kernel, made, t, makes, hops, parts, r, InodeOf(found), tick', made2)
  {
    var i, found := |hops|, Found(kernel, made, t, makes, hops, parts, |hops|);
    hide Underway, CloseFails, MadeBy, Found, Descended, Stopped, Kernel.Entry, Kernel.After, OpensAt, Reached;
    SameFound(kernel, made, t, makes, hops, parts, tick, made');
    match r
    case Ok(_) => WentDown(kernel, made, t, makes, hops, parts, i, tick, made', found.value.inode);
    case Err(Unclosable) => FailsHere(kernel, made, t, makes, hops, parts, i, tick, made');
    case Err(_) => StopsHere(kernel, made, t, makes, hops, parts, i, tick, made');
  }

  /** How a whole walk ends that opens the root at `t`: going by a failed close exactly
      when there is one, down all the names with everything made, or short of them. */
  ghost predicate Walked(kernel: Kernel, made: Making, t: nat, makes: bool, parts: seq<string>,
                         r: Result<nat, Error>, hops: seq<nat>, made': Making)
  {
    && (r == Err(Unclosable) <==>
          !kernel.answer(t).fault && CloseFails(kernel, made, t + 1, makes, ROOT, parts))
    && Descended(kernel, made, t + 1, makes, hops, parts)
    && (r.Ok? ==>
          && !kernel.answer(t).fault && |hops| == |parts|
          && made' == MadeBy(kernel, made, t + 1, makes, hops, parts, |parts|))
    && (r.Err? && r != Err(Unclosable) ==>
          kernel.answer(t).fault || Stopped(kernel, made, t + 1, makes, hops, parts))
  }

  /** When a walk down so many names is over. */
  function WalkEnds(t: nat, makes: bool, n: nat): nat
  {
    t + 1 + (if makes then 3 else 2) * n
  }

  lemma AnyDescriptor(kernel: Kernel, made: Making, t: nat, makes: bool, parts: seq<string>, r: Result<nat, Error>,
                      hops: seq<nat>, made': Making)
    requires r.Ok? && Walked(kernel, made, t, makes, parts, r, hops, made')
    ensures Walked(kernel, made, t, makes, parts, Ok(0), hops, made')
  {}

  lemma NoRoot(kernel: Kernel, made: Making, t: nat, makes: bool, parts: seq<string>)
    requires kernel.answer(t).fault
    ensures Walked(kernel, made, t, makes, parts, Err(Unopenable), [], made)
  {}

  lemma CutShort(kernel: Kernel, made: Making, t: nat, makes: bool, parts: seq<string>, r: Result<nat, Error>,
                 hops: seq<nat>, hop: nat, tick: nat, made': Making)
    requires !kernel.answer(t).fault && r.Err?
    requires Turned(kernel, made, t + 1, makes, hops, parts, r, hop, tick, made')
    ensures Walked(kernel, made, t, makes, parts, r, hops, made')
  {
    hide CloseFails, Found;
  }

  lemma Arrived(kernel: Kernel, made: Making, t: nat, makes: bool, parts: seq<string>, r: Result<nat, Error>,
                hops: seq<nat>, tick: nat, made': Making)
    requires !kernel.answer(t).fault && r.Ok?
    requires Underway(kernel, made, t + 1, makes, hops, parts, |parts|, tick, made')
    ensures Walked(kernel, made, t, makes, parts, r, hops, made') && tick == WalkEnds(t, makes, |parts|)
  {}

  /** A walk that makes what is missing stops only at a fault, or at a name that others
      had a hand in. */
  lemma MakingStopsOnlyForOthers(kernel: Kernel, made: Making, t: nat, hops: seq<nat>, parts: seq<string>)
    requires Stopped(kernel, made, t, true, hops, parts)
    ensures var at, dir, name := OpensAt(t, true, |hops|), Reached(hops), parts[|hops|];
            || kernel.answer(at - 1).fault || kernel.answer(at).fault
            || !kernel.others(at - 1, dir, name).Untouched? || !kernel.others(at, dir, name).Untouched?
  {
    var at, dir, name := OpensAt(t, true, |hops|), Reached(hops), parts[|hops|];
    assert hops[..|hops|] == hops;
    if kernel.others(at - 1, dir, name).Untouched? && kernel.others(at, dir, name).Untouched? {
      OnlyOthersInterfere(kernel, MadeBy(kernel, made, t, true, hops, parts, |hops|), at - 1, dir, name);
    }
  }

  ghost predicate UsesWork(kernel: Kernel, at: nat)
  {
    !kernel.answer(at).fault && !kernel.answer(at + 1).fault && !kernel.answer(at + 2).fault
  }

  /** A file opens, being no link, three calls on it work, and it closes. */
  ghost predicate FileReads(kernel: Kernel, made: Making, at: nat, dir: nat, name: string)
  {
    && !kernel.answer(at).fault && IsReal(kernel.Entry(made, at, dir, name))
    && UsesWork(kernel, at + 1) && kernel.answer(at + 4).closes
  }

  /** And so does its parent. */
  ghost predicate Readable(kernel: Kernel, made: Making, at: nat, dir: nat, name: string)
  {
    FileReads(kernel, made, at, dir, name) && kernel.answer(at + 5).closes
  }

  class FsCommands {
    const kernel: Kernel

    constructor (kernel: Kernel)
      ensures this.kernel == kernel
    {
      this.kernel := kernel;
    }

    /** The step all three walks make, with their handlers: open the next directory,
        close the one left. `held` are the descriptors that are not the walk's. */
    method Down(fd: nat, name: string, ghost held: map<nat, nat>, ghost dir: nat) returns (r: Result<nat, Error>)
      requires fd !in held && kernel.open == held[fd := dir]
      modifies kernel`tick, kernel`open, kernel`badCloses
      ensures r.Ok? ==> kernel.tick == old(kernel.tick) + 2
      ensures var found := kernel.Entry(kernel.made, old(kernel.tick), dir, name);
              && Answered(kernel, old(kernel.tick), found, r)
              && Handed(held, old(kernel.badCloses), r, InodeOf(found), kernel.open, kernel.badCloses)
    {
      hide Kernel.Entry;
      assert kernel.open - {fd} == held && kernel.open[fd] == dir;
      r := kernel.OpenAt(fd, name);
      if r.Err? {
        var _ := kernel.Close(fd);
        return;
      }
      var closed := kernel.Close(fd);
      if !closed {
        // The handler closes it again; the descriptor just opened is lost.
        var _ := kernel.Close(fd);
        assert kernel.open.Keys == held.Keys + {r.value};
        assert Lost(held, kernel.open);
        return Err(Unclosable);
      }
    }

    /** One turn of such a loop, the directory made first where the walk makes. */
    method NextDirectory(fd: nat, name: string, makes: bool, ghost held: map<nat, nat>,
                         ghost made: Making, ghost t: nat, ghost hops: seq<nat>, ghost parts: seq<string>)
      returns (r: Result<nat, Error>, ghost hop: nat)
      requires fd !in held && kernel.open == held[fd := Reached(hops)]
      requires |hops| < |parts| && parts[|hops|] == name
      requires Underway(kernel, made, t, makes, hops, parts, |hops|, kernel.tick, kernel.made)
      modifies kernel
      ensures !makes ==> kernel.made == old(kernel.made)
      ensures Handed(held, old(kernel.badCloses), r, hop, kernel.open, kernel.badCloses)
      ensures Turned(kernel, made, t, makes, hops, parts, r, hop, kernel.tick, kernel.made)
    {
      ghost var dir, tick, made' := Reached(hops), kernel.tick, kernel.made;
      hop := 0;
      hide Underway, Further, CloseFails, MadeBy, Found, Descended, Stopped, Reached, Kernel.Entry, Kernel.After;
      if makes {
        var result := kernel.MkdirAt(fd, name);
        if result.Failed? {
          assert kernel.open - {fd} == held;
          var _ := kernel.Close(fd);
          StopsHere(kernel, made, t, makes, hops, parts, |hops|, tick, made');
          return Err(Uncreatable), hop;
        }
      }
      hide Handed, Turned, Answered, InodeOf;
      hop := InodeOf(kernel.Entry(kernel.made, kernel.tick, dir, name));
      r := this.Down(fd, name, held, dir);
      Onward(kernel, made, t, makes, hops, parts, tick, made', r, kernel.tick, kernel.made);
    }

    /** The walk `_open_dir`, `_parent_fd` and `mkdir` make: the root opened, then one
        name after the other. The descriptors balance except exactly when, on the way, the
        close of a directory just left fails. */
    method Walk(parts: seq<string>, makes: bool) returns (r: Result<nat, Error>, ghost hops: seq<nat>)
      modifies kernel
      ensures !makes ==> kernel.made == old(kernel.made)
      ensures r.Err? ==> r.error != AtRoot && r.error != CloseFailed
      ensures r != Err(Unclosable) <==>
                Balanced(old(kernel.open), old(kernel.badCloses), r, kernel.open, kernel.badCloses)
      ensures r == Err(Unclosable) ==>
                kernel.badCloses == old(kernel.badCloses) + 1 && Lost(old(kernel.open), kernel.open)
      ensures r.Ok? ==> kernel.open[r.value] == Reached(hops)
      ensures r.Ok? ==> kernel.tick == WalkEnds(old(kernel.tick), makes, |parts|)
      ensures Walked(kernel, old(kernel.made), old(kernel.tick), makes, parts, r, hops, kernel.made)
    {
      hops := [];
      ghost var made, t := kernel.made, kernel.tick;
      hide CloseFails, Descended, Walked, Lost;
      r := kernel.OpenRoot();
      if r.Err? {
        NoRoot(kernel, made, t, makes, parts);
        return;
      }
      r, hops := this.Descend(r.value, parts, makes, old(kernel.open), made, t);
    }

    /** The loop, from the root's descriptor. */
    method Descend(fd: nat, parts: seq<string>, makes: bool, ghost held: map<nat, nat>, ghost made: Making,
                   ghost t: nat)
      returns (r: Result<nat, Error>, ghost hops: seq<nat>)
      requires fd !in held && kernel.open == held[fd := ROOT]
      requires made == kernel.made && kernel.tick == t + 1 && !kernel.answer(t).fault
      modifies kernel
      ensures !makes ==> kernel.made == old(kernel.made)
      ensures Handed(held, old(kernel.badCloses), r, Reached(hops), kernel.open, kernel.badCloses)
      ensures r.Ok? ==> kernel.tick == WalkEnds(t, makes, |parts|)
      ensures Walked(kernel, made, t, makes, parts, r, hops, kernel.made)
    {
      hops, r := [], Ok(fd);
      SetOut(kernel, made, t + 1, makes, parts);
      hide Underway, CloseFails, MadeBy, Found, Descended, Stopped, Walked, Lost;
      for i := 0 to |parts|
        invariant r.Ok? && r.value !in held && kernel.open == held[r.value := Reached(hops)]
        invariant kernel.badCloses == old(kernel.badCloses) && (!makes ==> kernel.made == made)
        invariant |hops| == i && Underway(kernel, made, t + 1, makes, hops, parts, i, kernel.tick, kernel.made)
      {
        ghost var hop;
        r, hop := this.NextDirectory(r.value, parts[i], makes, held, made, t + 1, hops, parts);
        if r.Err? {
          CutShort(kernel, made, t, makes, parts, r, hops, hop, kernel.tick, kernel.made);
          return;
        }
        hops := hops + [hop];
      }
      Arrived(kernel, made, t, makes, parts, r, hops, kernel.tick, kernel.made);
    }

    /** `_open_dir` */
    method OpenDir(parts: seq<string>) returns (r: Result<nat, Error>, ghost hops: seq<nat>)
      modifies kernel
      ensures kernel.made == old(kernel.made)
      ensures r != Err(Unclosable) <==>
                Balanced(old(kernel.open), old(kernel.badCloses), r, kernel.open, kernel.badCloses)
      ensures r == Err(Unclosable) ==>
                kernel.badCloses == old(kernel.badCloses) + 1 && Lost(old(kernel.open), kernel.open)
      ensures r.Ok? ==> kernel.open[r.value] == Reached(hops)
      ensures r.Ok? ==> kernel.tick == WalkEnds(old(kernel.tick), false, |parts|)
      ensures Walked(kernel, old(kernel.made), old(kernel.tick), false, parts, r, hops, kernel.made)
    {
      hide Walked, Lost;
      r, hops := this.Walk(parts, false);
    }

    /** `_parent_fd` up to its `yield`: the descriptor of the last name's parent, parents
        created on the way when asked for. */
    method ParentFd(parts: seq<string>, createParents: bool) returns (r: Result<nat, Error>, ghost hops: seq<nat>)
      modifies kernel
      ensures r != Err(Unclosable) <==>
                Balanced(old(kernel.open), old(kernel.badCloses), r, kernel.open, kernel.badCloses)
      ensures r == Err(AtRoot) <==> parts == []
      ensures parts == [] ==> kernel.tick == old(kernel.tick)
      ensures !createParents ==> kernel.made == old(kernel.made)
      ensures parts != [] ==>
                && Walked(kernel, old(kernel.made), old(kernel.tick), createParents, parts[..|parts| - 1], r, hops,
                          kernel.made)
                && (r.Ok? ==> kernel.open[r.value] == Reached(hops)
                              && kernel.tick == WalkEnds(old(kernel.tick), createParents, |parts| - 1))
    {
      if parts == [] {
        return Err(AtRoot), [];
      }
      hide Walked, Lost;
      r, hops := this.Walk(parts[..|parts| - 1], createParents);
    }

    /** `mkdir`: a walk that makes what is missing, its last descriptor closed again. */
    method Mkdir(parts: seq<string>) returns (r: Result<nat, Error>, ghost hops: seq<nat>)
      modifies kernel
      ensures kernel.open == old(kernel.open) && kernel.badCloses == old(kernel.badCloses) <==> r != Err(Unclosable)
      ensures r != Err(AtRoot)
      ensures r.Ok? || r == Err(CloseFailed) ==>
                (r.Ok? <==> kernel.answer(WalkEnds(old(kernel.tick), true, |parts|)).closes)
      ensures Walked(kernel, old(kernel.made), old(kernel.tick), true, parts,
                     if r == Err(CloseFailed) then Ok(0) else r, hops, kernel.made)
    {
      hide Walked, Lost;
      r, hops := this.Walk(parts, true);
      if r.Ok? {
        AnyDescriptor(kernel, old(kernel.made), old(kernel.tick), true, parts, r, hops, kernel.made);
        assert kernel.open - {r.value} == old(kernel.open);
        var closed := kernel.Close(r.value);
        if !closed {
          r := Err(CloseFailed);
        }
      }
    }

    /** `read_bytes`: the file is opened below its parent, used, and both are closed,
        whichever of the calls in between raises. */
    method ReadBytes(parts: seq<string>) returns (r: Result<nat, Error>, ghost hops: seq<nat>)
      modifies kernel
      ensures kernel.open == old(kernel.open) && kernel.badCloses == old(kernel.badCloses) <==> r != Err(Unclosable)
      ensures r == Err(Unclosable) <==>
                && parts != [] && !kernel.answer(old(kernel.tick)).fault
                && CloseFails(kernel, old(kernel.made), old(kernel.tick) + 1, false, ROOT, parts[..|parts| - 1])
      ensures r == Err(AtRoot) <==> parts == []
      ensures parts != [] && r != Err(Unclosable) ==>
                var made, t, parents := old(kernel.made), old(kernel.tick), parts[..|parts| - 1];
                && Descended(kernel, made, t + 1, false, hops, parents)
                && if kernel.answer(t).fault || Stopped(kernel, made, t + 1, false, hops, parents) then r.Err?
                   else
                     && |hops| == |parents|
                     && (r.Ok? <==> Readable(kernel, made, WalkEnds(t, false, |parents|), Reached(hops),
                                             parts[|parts| - 1]))
    {
      hide CloseFails, Descended, Found, MadeBy, FileReads;
      var parent;
      parent, hops := this.ParentFd(parts, false);
      if parent.Err? {
        return parent, hops;
      }
      ghost var below := kernel.open;
      assert below - {parent.value} == old(kernel.open);
      r := this.ReadFile(parent.value, parts[|parts| - 1]);
      var left := kernel.Close(parent.value);
      if !left {
        r := Err(CloseFailed);
      }
    }

    /** lseek, read and fstat: the first to raise ends the body of the `try`. */
    method UseFile(fd: nat) returns (ok: bool)
      requires fd in kernel.open
      modifies kernel`tick
      ensures ok <==> UsesWork(kernel, old(kernel.tick))
      ensures ok ==> kernel.tick == old(kernel.tick) + 3
    {
      ok := kernel.Use(fd);
      if ok {
        ok := kernel.Use(fd);
      }
      if ok {
        ok := kernel.Use(fd);
      }
    }

    /** The file opened below its parent, used and closed again. */
    method ReadFile(parent: nat, name: string) returns (r: Result<nat, Error>)
      requires parent in kernel.open
      modifies kernel`tick, kernel`open, kernel`badCloses
      ensures kernel.open == old(kernel.open) && kernel.badCloses == old(kernel.badCloses)
      ensures r.Ok? <==> FileReads(kernel, kernel.made, old(kernel.tick), old(kernel.open)[parent], name)
      ensures r.Ok? ==> kernel.tick == old(kernel.tick) + 5
      ensures r.Err? ==> r.error != Unclosable && r.error != AtRoot
    {
      ghost var below := kernel.open;
      r := kernel.OpenFileAt(parent, name);
      if r.Err? {
        return;
      }
      var fd := r.value;
      var used := this.UseFile(fd);
      var closed := kernel.Close(fd);
      assert kernel.open == below;
      if !used || !closed {
        r := Err(if closed then Unreadable else CloseFailed);
      }
    }
  }

  /** It can happen: opening "a" with the close of the root reported as failed leaves a
      descriptor open that nobody holds, and closes another twice. */
  method LosesDescriptor() returns (kernel: Kernel)
    ensures kernel.open != map[] && kernel.badCloses == 1
  {
    kernel := new Kernel((t: nat, dir: nat, name: string) => Theirs(Some(Directory(dir + 1))),
                         (t: nat) => Answer(false, false, false, 0));
    var fs := new FsCommands(kernel);
    assert CloseFails(kernel, map[], 1, false, ROOT, ["a"]);
    var r, _ := fs.OpenDir(["a"]);
    assert r == Err(Unclosable);
  }
}
