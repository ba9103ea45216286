/** The paginated listing (`FsCommands.list_dir`): one page of the walk, the whole
    walk page by page, and what its client gets. */
module ListDir {
  import opened Text
  import opened Paths
  import opened DirWalk
  import opened ListCursor

  datatype FileEntry = FileEntry(path: string, size: nat)

  datatype Error = InvalidCursor | OutsideRoot | Symlink | Unopenable | TooDeep | NeedsPagination

  datatype Page = Page(files: seq<FileEntry>, nextCursor: Option<seq<Frame>>)

  /** The regular files among the entries met, with their relative paths. */
  function FilesOf(seen: seq<Seen>): seq<FileEntry>
  {
    if seen == [] then []
    else
      var last := seen[|seen| - 1];
      FilesOf(seen[..|seen| - 1]) + if last.kind.Regular? then [FileEntry(PathOf(last.path), last.kind.size)] else []
  }

  lemma NoFiles()
    ensures FilesOf([]) == []
  {}

  lemma {:induction false} FilesOfConcat(a: seq<Seen>, b: seq<Seen>)
    ensures FilesOf(a + b) == FilesOf(a) + FilesOf(b)
    decreases |b|
  {
    if b == [] {
      assert a + b == a;
    } else {
      assert (a + b)[..|a + b| - 1] == a + b[..|b| - 1];
      FilesOfConcat(a, b[..|b| - 1]);
    }
  }

  /** The world as seen below one directory. */
  ghost function Below(w: World, base: seq<string>): World
  {
    (t: nat, p: seq<string>) => w(t, base + Normal(p))
  }

  lemma BelowProper(w: World, base: seq<string>)
    requires ProperWorld(w)
    ensures ProperWorld(Below(w, base))
  {
    var below := Below(w, base);
    forall t, p | below(t, p).Opened? ensures ProperListing(below(t, p).listing) {
      assert below(t, p) == w(t, base + Normal(p));
    }
  }

  function Insert(d: Dirent, sorted: seq<Dirent>): seq<Dirent>
  {
    if sorted == [] || Less(d.name, sorted[0].name) then [d] + sorted
    else [sorted[0]] + Insert(d, sorted[1..])
  }

  /** `sorted(name for name in os.listdir(fd) if name > after)` */
  function SortedAfter(listing: seq<Dirent>, after: string): seq<Dirent>
  {
    if listing == [] then []
    else
      var rest := SortedAfter(listing[1..], after);
      if Less(after, listing[0].name) then Insert(listing[0], rest) else rest
  }

  ghost predicate Sorted(ds: seq<Dirent>)
  {
    forall i, j | 0 <= i < j < |ds| :: Less(ds[i].name, ds[j].name)
  }

  lemma {:induction false} InsertSorted(d: Dirent, ds: seq<Dirent>)
    requires Sorted(ds) && forall e | e in ds :: e.name != d.name
    ensures Sorted(Insert(d, ds))
    ensures forall e :: e in Insert(d, ds) <==> e == d || e in ds
  {
    if ds == [] {
    } else if Less(d.name, ds[0].name) {
      forall j | 0 <= j < |ds| ensures Less(d.name, ds[j].name) {
        if j > 0 {
          LessTransitive(d.name, ds[0].name, ds[j].name);
        }
      }
    } else {
      assert ds[0] in ds;
      LessTotal(d.name, ds[0].name);
      InsertSorted(d, ds[1..]);
      var rest := Insert(d, ds[1..]);
      forall j | 0 <= j < |rest| ensures Less(ds[0].name, rest[j].name) {
        assert rest[j] in rest;
      }
      assert ds == [ds[0]] + ds[1..];
    }
  }

  lemma {:induction false} SortedAfterCorrect(listing: seq<Dirent>, after: string)
    requires ProperListing(listing)
    ensures Sorted(SortedAfter(listing, after))
    ensures forall d :: d in SortedAfter(listing, after) <==> d in listing && Less(after, d.name)
  {
    if listing == [] {
    } else {
      SortedAfterCorrect(listing[1..], after);
      assert listing == [listing[0]] + listing[1..];
      if Less(after, listing[0].name) {
        InsertSorted(listing[0], SortedAfter(listing[1..], after));
      }
    }
  }

  /** The name the top frame stands at before entry `i` of the sorted rest. */
  function StandsAt(ds: seq<Dirent>, after: string, i: nat): string
    requires i <= |ds|
  {
    if i == 0 then after else ds[i - 1].name
  }

  lemma NotPast(ds: seq<Dirent>, i: nat, k: nat)
    requires Sorted(ds) && k < i <= |ds|
    ensures !Less(ds[i - 1].name, ds[k].name)
  {
    LessIrreflexive(ds[k].name);
    if k < i - 1 {
      LessAsymmetric(ds[k].name, ds[i - 1].name);
    }
  }

  lemma StillAhead(listing: seq<Dirent>, after: string, ds: seq<Dirent>, i: nat, e: Dirent)
    requires ProperListing(listing) && ds == SortedAfter(listing, after) && i <= |ds|
    requires e in listing && Less(StandsAt(ds, after, i), e.name)
    ensures exists j :: i <= j < |ds| && ds[j] == e
  {
    SortedAfterCorrect(listing, after);
    hide SortedAfter, ProperListing, Less;
    if i > 0 {
      assert ds[i - 1] in ds;
      LessTransitive(after, ds[i - 1].name, e.name);
    }
    assert e in ds;
    var j :| 0 <= j < |ds| && ds[j] == e;
    if j < i {
      NotPast(ds, i, j);
    }
  }

  /** Whatever of the listing is past where the top frame stands comes at or after `i`. */
  lemma AllAhead(listing: seq<Dirent>, after: string, ds: seq<Dirent>, i: nat)
    requires ProperListing(listing) && ds == SortedAfter(listing, after) && i <= |ds|
    ensures forall e | e in listing && Less(StandsAt(ds, after, i), e.name) :: exists j :: i <= j < |ds| && ds[j] == e
  {
    hide SortedAfter, ProperListing, Less, StandsAt;
    forall e | e in listing && Less(StandsAt(ds, after, i), e.name)
      ensures exists j :: i <= j < |ds| && ds[j] == e
    {
      StillAhead(listing, after, ds, i, e);
    }
  }

  lemma InListing(listing: seq<Dirent>, after: string, ds: seq<Dirent>, i: nat)
    requires ProperListing(listing) && ds == SortedAfter(listing, after) && i < |ds|
    ensures ds[i] in listing && EntryName(ds[i].name) && Less(after, ds[i].name)
    ensures Less(StandsAt(ds, after, i), ds[i].name) && Sorted(ds)
  {
    SortedAfterCorrect(listing, after);
    hide SortedAfter, Less;
    assert ds[i] in ds;
  }

  lemma NextInSorted(listing: seq<Dirent>, after: string, ds: seq<Dirent>, i: nat)
    requires ProperListing(listing) && ds == SortedAfter(listing, after) && i <= |ds|
    ensures i < |ds| ==> NextEntry(listing, StandsAt(ds, after, i), ds[i])
    ensures i < |ds| ==> ds[i] in listing && EntryName(ds[i].name)
    ensures i == |ds| ==> forall d | d in listing :: !Less(StandsAt(ds, after, i), d.name)
  {
    hide SortedAfter, ProperListing, Less, StandsAt, EntryName;
    AllAhead(listing, after, ds, i);
    if i < |ds| {
      InListing(listing, after, ds, i);
      forall e | e in listing && Less(StandsAt(ds, after, i), e.name)
        ensures e.name == ds[i].name || Less(ds[i].name, e.name)
      {
        var j :| i <= j < |ds| && ds[j] == e;
      }
    }
  }

  /** The directory read next: the first one past where the frame stands. */
  ghost predicate FirstDirectory(listing: seq<Dirent>, after: string, d: Dirent)
  {
    && d in listing && d.kind.Directory? && Less(after, d.name)
    && forall e | e in listing && e.kind.Directory? && Less(after, e.name) :: e == d || Less(d.name, e.name)
  }

  ghost predicate NoDirectory(listing: seq<Dirent>, after: string)
  {
    forall e | e in listing && e.kind.Directory? :: !Less(after, e.name)
  }

  lemma FirstOfSorted(listing: seq<Dirent>, after: string, ds: seq<Dirent>, i: nat)
    requires ProperListing(listing) && ds == SortedAfter(listing, after) && i <= |ds|
    requires forall j | 0 <= j < i :: !ds[j].kind.Directory?
    ensures i < |ds| && ds[i].kind.Directory? ==> FirstDirectory(listing, after, ds[i])
    ensures i == |ds| ==> NoDirectory(listing, after)
  {
    SortedAfterCorrect(listing, after);
    hide SortedAfter, ProperListing, Less;
    forall e | e in listing && e.kind.Directory? && Less(after, e.name)
      ensures i < |ds| && ds[i].kind.Directory? ==> e == ds[i] || Less(ds[i].name, e.name)
      ensures i < |ds|
    {
      var j :| 0 <= j < |ds| && ds[j] == e;
    }
    if i < |ds| {
      assert ds[i] in ds;
    }
  }

  /** The directory the top frame stands in. */
  function Standing(pos: seq<string>): seq<string>
    requires pos != []
  {
    pos[..|pos| - 1]
  }

  /** From one place to the next: into the first directory past the frame, or out of one
      with none left, of one that is gone and of one that cannot be opened; a directory
      reached by a link leads nowhere. */
  ghost predicate NextStop(w: World, t: nat, here: seq<string>, there: seq<string>)
  {
    here != []
    && match w(t, Standing(here))
       case Opened(listing) =>
         var after := here[|here| - 1];
         || (there == Standing(here) && NoDirectory(listing, after))
         || exists d :: FirstDirectory(listing, after, d) && there == Standing(here) + [d.name, ""]
       case Looped => false
       case _ => there == Standing(here)
  }

  /** The places a walk opens one after the other, one each moment from `t0` on; the last
      is where it stands when it is over. */
  ghost predicate Trail(w: World, t0: nat, from: seq<string>, stops: seq<seq<string>>)
  {
    && stops != [] && stops[0] == from
    && forall k | 0 <= k < |stops| - 1 :: NextStop(w, t0 + k, stops[k], stops[k + 1])
  }

  lemma TrailOn(w: World, t0: nat, from: seq<string>, stops: seq<seq<string>>, there: seq<string>)
    requires Trail(w, t0, from, stops) && NextStop(w, t0 + |stops| - 1, stops[|stops| - 1], there)
    ensures Trail(w, t0, from, stops + [there])
  {
    hide NextStop;
    var all := stops + [there];
    forall k | 0 <= k < |all| - 1 ensures NextStop(w, t0 + k, all[k], all[k + 1]) {
    }
  }

  /** How such a walk ends: at the end, at a link, or in a directory it was reading when a
      page was full or the tree too deep. */
  ghost predicate Ended(w: World, t0: nat, t1: nat, from: seq<string>, stops: seq<seq<string>>, error: Option<Error>,
                        done: bool)
  {
    && Trail(w, t0, from, stops)
    && var last, t := stops[|stops| - 1], t0 + |stops| - 1;
       if done then t == t1 && last == [] && error.None?
       else
         && t + 1 == t1 && last != []
         && if error == Some(Symlink) then w(t, Standing(last)).Looped? else w(t, Standing(last)).Opened?
  }

  lemma TrailStart(w: World, t0: nat, from: seq<string>)
    ensures Trail(w, t0, from, [from])
  {}

  lemma EndsIn(w: World, t0: nat, t: nat, from: seq<string>, stops: seq<seq<string>>, error: Option<Error>,
               here: seq<string>)
    requires Trail(w, t0, from, stops) && t0 + |stops| - 1 == t && stops[|stops| - 1] == here != []
    requires var view := w(t, Standing(here)); if error == Some(Symlink) then view.Looped? else view.Opened?
    ensures Ended(w, t0, t + 1, from, stops, error, false)
  {
    hide Trail;
  }

  lemma EndsOut(w: World, t0: nat, t: nat, from: seq<string>, stops: seq<seq<string>>)
    requires Trail(w, t0, from, stops) && t0 + |stops| - 1 == t && stops[|stops| - 1] == []
    ensures Ended(w, t0, t, from, stops, None, true)
  {
    hide Trail;
  }

  /** Where the walk stood when it gave up. */
  ghost predicate GaveUp(w: World, t0: nat, t1: nat, from: seq<string>, error: Error)
  {
    match error
    case TooDeep =>
      exists s: Seen :: s.kind.Directory? && |s.path| >= MAX_DEPTH && ShownBetween(w, t0, t1,
            s) && (Plain(from) ==> Named(s.path))
    case Symlink =>
      exists t: nat, seen, pos ::
        t0 <= t < t1 && Segment(w, t0, t, from, seen, pos) && pos != [] && w(t, pos[..|pos| - 1]).Looped?
    case _ => false
  }

  lemma TooDeepHere(w: World, t: nat, pre: seq<string>, after: string, d: Dirent)
    requires ProperWorld(w) && w(t, pre).Opened? && d in w(t, pre).listing && d.kind.Directory?
    requires |pre| + 1 >= MAX_DEPTH
    ensures GaveUp(w, t, t + 1, pre + [after], TooDeep)
  {
    var s := Seen(pre + [d.name], d.kind);
    assert s.path[..|s.path| - 1] == pre && Shown(w, t, s);
    assert forall i | 0 <= i < |pre| :: s.path[i] == (pre + [after])[i];
    assert ShownBetween(w, t, t + 1, s);
  }

  lemma MoveOver(w: World, t: nat, from: seq<string>, seen: seq<Seen>, pre: seq<string>, at: string, d: Dirent)
    returns (after: seq<Seen>)
    requires ProperWorld(w) && w(t, pre).Opened? && NextEntry(w(t, pre).listing, at, d)
    requires d.kind.Directory? ==> |pre| + 1 < MAX_DEPTH
    requires Segment(w, t, t + 1, from, seen, pre + [at])
    ensures after == seen + [Seen(pre + [d.name], d.kind)]
    ensures Segment(w, t, t + 1, from, after, if d.kind.Directory? then pre + [d.name, ""] else pre + [d.name])
    ensures FilesOf(after) == FilesOf(seen)
                              + if d.kind.Regular? then [FileEntry(PathOf(pre + [d.name]), d.kind.size)] else []
  {
    var s := Seen(pre + [d.name], d.kind);
    StepEntry(w, t, pre, at, d);
    Join(w, t, t + 1, t, t + 1, from, seen, pre + [at], [s],
         if d.kind.Directory? then pre + [d.name, ""] else pre + [d.name]);
    FilesOfConcat(seen, [s]);
    assert [s][..0] == [];
    after := seen + [s];
  }

  /** The walk so far, continued by what happened at moment `t`. */
  lemma Extend(w: World, t0: nat, t1: nat, t: nat, from: seq<string>, seen: seq<Seen>, mid: seq<string>,
      met: seq<Seen>, to: seq<string>)
    returns (all: seq<Seen>)
    requires Segment(w, t0, t1, from, seen, mid) && Segment(w, t, t + 1, mid, met, to) && t1 <= t + 1
    requires t0 <= t
    ensures all == seen + met && Segment(w, t0, t + 1, from, all, to)
    ensures met == [] ==> all == seen
  {
    Join(w, t0, t1, t, t + 1, from, seen, mid, met, to);
    all := seen + met;
  }

  lemma DropFrame(w: World, t0: nat, t1: nat, t: nat, from: seq<string>, seen: seq<Seen>, stack: seq<Frame>)
    requires Accepted(stack) && Segment(w, t0, t1, from, seen, Afters(stack))
    requires t0 <= t && t1 <= t + 1
    requires var view := w(t, Afters(stack)[..|stack| - 1]);
             view.Opened? ==> forall d | d in view.listing :: !Less(stack[|stack| - 1].after, d.name)
    ensures Segment(w, t0, t + 1, from, seen, Afters(stack[..|stack| - 1]))
    ensures |stack| > 1 ==> Accepted(stack[..|stack| - 1])
  {
    hide Segment, Accepted;
    TopFrame(stack);
    var pre, top := Afters(stack)[..|stack| - 1], stack[|stack| - 1].after;
    assert Afters(stack) == pre + [top];
    StepPop(w, t, pre, top);
    Join(w, t0, t1, t, t + 1, from, seen, pre + [top], [], pre);
    assert seen + [] == seen;
    PopAccepted(stack);
  }

  lemma GaveUpLater(w: World, t0: nat, t: nat, from: seq<string>, seen: seq<Seen>, here: seq<string>)
    requires Segment(w, t0, t, from, seen, here) && GaveUp(w, t, t + 1, here, TooDeep)
    ensures GaveUp(w, t0, t + 1, from, TooDeep)
  {
    var s: Seen :| s.kind.Directory? && |s.path| >= MAX_DEPTH && ShownBetween(w, t, t + 1,
          s) && (Plain(here) ==> Named(s.path));
    ShownLonger(w, t, t + 1, t0, t + 1, s);
  }

  lemma OutOf(w: World, t0: nat, t: nat, from: seq<string>, stops: seq<seq<string>>) returns (all: seq<seq<string>>)
    requires Trail(w, t0, from, stops) && t0 + |stops| - 1 == t && stops[|stops| - 1] != []
    requires var view := w(t, Standing(stops[|stops| - 1])); view.Missing? || view.Refused?
    ensures all == stops + [Standing(stops[|stops| - 1])] && Trail(w, t0, from, all)
  {
    all := stops + [Standing(stops[|stops| - 1])];
    TrailOn(w, t0, from, stops, Standing(stops[|stops| - 1]));
  }

  lemma LoopedHere(w: World, t0: nat, t: nat, from: seq<string>, seen: seq<Seen>, here: seq<string>)
    requires Segment(w, t0, t, from, seen, here) && here != [] && w(t, here[..|here| - 1]).Looped?
    ensures GaveUp(w, t0, t + 1, from, Symlink)
  {}

  class FsCommands {
    const root: seq<string>
    const inputRoot: seq<string>
    const world: World
    var clock: nat

    ghost predicate Configured()
      reads this
    {
      Components(root) && Components(inputRoot) && Compatible(root, inputRoot) && ProperWorld(world)
    }

    constructor (root: seq<string>, inputRoot: seq<string>, world: World)
      ensures this.root == root && this.inputRoot == inputRoot && this.world == world && clock == 0
    {
      this.root, this.inputRoot, this.world := root, inputRoot, world;
      clock := 0;
    }

    /** `_open_dir` followed by `os.listdir`: None when the path is outside the root. */
    method OpenDir(raw: string) returns (view: Option<View>)
      modifies this`clock
      ensures var parts := RelativeParts(root, inputRoot, raw);
              if parts.Some? then view == Some(world(old(clock), parts.value)) && clock == old(clock) + 1
              else view == None && clock == old(clock)
    {
      var parts := RelativeParts(root, inputRoot, raw);
      if parts.None? {
        return None;
      }
      view := Some(world(clock, parts.value));
      clock := clock + 1;
    }

    /** Time passes between two calls. */
    method Pass(ticks: nat)
      modifies this`clock
      ensures clock == old(clock) + ticks
    {
      clock := clock + ticks;
    }

    /** One entry: the top frame moves to it, a regular file is returned, a directory gets
        a frame unless it is too deep. */
    static method Visit(ghost w: World, ghost t: nat, ghost listing: seq<Dirent>, start: seq<Frame>, d: Dirent,
                        given: seq<FileEntry>, ghost pre: seq<string>, ghost after: string, ghost at: string,
                        ghost met: seq<Seen>)
      returns (tooDeep: bool, stack: seq<Frame>, files: seq<FileEntry>, descended: bool, ghost seen: seq<Seen>)
      requires Accepted(start) && Afters(start) == pre + [at] && ProperWorld(w)
      requires w(t, pre).Opened? && w(t, pre).listing == listing && d in listing && EntryName(d.name)
      requires NextEntry(listing, at, d)
      requires Segment(w, t, t + 1, pre + [after], met, pre + [at]) && given == FilesOf(met)
      ensures tooDeep ==> GaveUp(w, t, t + 1, pre + [after], TooDeep)
      ensures !tooDeep ==> Accepted(stack) && Segment(w, t, t + 1, pre + [after], seen, Afters(stack))
      ensures !tooDeep ==> |seen| == |met| + 1 && files == FilesOf(seen) && |files| <= |given| + 1
      ensures !tooDeep ==> (descended <==> d.kind.Directory?)
      ensures !tooDeep && descended ==> |files| == |given| && Afters(stack) == pre + [d.name, ""]
      ensures !tooDeep && !descended ==> Afters(stack) == pre + [d.name]
    {
      hide Segment, GaveUp, Accepted, NextEntry, FilesOf, PathOf, EntryPath, Less, ProperListing, EntryName, Harmless,
        Named, Plain;
      files, descended, seen, tooDeep := given, false, met, false;
      AdvanceAccepted(start, d.name);
      stack := Advanced(start, d.name);
      assert Afters(stack) == pre + [d.name];
      TopFrame(stack);
      if d.kind.Directory? && |stack| >= MAX_DEPTH {
        TooDeepHere(w, t, pre, after, d);
        tooDeep := true;
        return;
      }
      seen := MoveOver(w, t, pre + [after], met, pre, at, d);
      if d.kind.Regular? {
        files := files + [FileEntry(EntryPath(stack[|stack| - 1]), d.kind.size)];
      } else if d.kind.Directory? {
        PushAccepted(stack);
        stack := Pushed(stack);
        assert Afters(stack) == pre + [d.name, ""];
        descended := true;
      }
    }

    /** One directory read: the top frame moves over its sorted names until it meets
        a directory, which gets a frame, or a limit is reached. */
    static method ReadFrame(ghost w: World, ghost t: nat, listing: seq<Dirent>, start: seq<Frame>, entries: nat,
        slots: nat)
      returns (tooDeep: bool, stack: seq<Frame>, files: seq<FileEntry>, visited: nat, descended: bool,
            ghost seen: seq<Seen>)
      requires Accepted(start) && ProperWorld(w) && entries >= 1 && slots >= 1
      requires var top := Afters(start)[..|start| - 1]; w(t, top).Opened? && w(t, top).listing == listing
      ensures tooDeep ==> GaveUp(w, t, t + 1, Afters(start), TooDeep)
      ensures !tooDeep ==> Segment(w, t, t + 1, Afters(start), seen, Afters(stack)) && Accepted(stack)
      ensures !tooDeep ==> visited == |seen| <= entries && files == FilesOf(seen) && |files| <= slots
      ensures !tooDeep && descended ==> visited >= 1
      ensures !tooDeep && descended ==> NextStop(w, t, Afters(start), Afters(stack))
      ensures !tooDeep && !descended && visited < entries && |files| < slots ==>
                NextStop(w, t, Afters(start), Standing(Afters(start)))
      ensures !tooDeep && !descended && visited < entries && |files| < slots ==>
                |stack| == |start| && Afters(stack)[..|stack| - 1] == Afters(start)[..|start| - 1]
                && forall d | d in listing :: !Less(stack[|stack| - 1].after, d.name)
    {
      hide Segment, GaveUp, Accepted, NextEntry, FilesOf, PathOf, EntryPath, SortedAfter, Less, ProperListing,
          EntryName, Harmless, Advanced, Pushed, Named, Plain, FirstDirectory, NoDirectory;
      TopFrame(start);
      ghost var from := Afters(start);
      ghost var pre := from[..|start| - 1];
      var after := start[|start| - 1].after;
      stack, files, visited, seen, tooDeep, descended := start, [], 0, [], false, false;
      var names := SortedAfter(listing, after);
      StepIdle(w, t, from);
      NoFiles();
      assert from == pre + [after];
      var i := 0;
      while i < |names|
        invariant i == visited == |seen| <= |names| && visited < entries && |files| < slots
        invariant !tooDeep && !descended
        invariant Accepted(stack) && Afters(stack) == pre + [StandsAt(names, after, i)]
        invariant Segment(w, t, t + 1, from, seen, Afters(stack))
        invariant files == FilesOf(seen)
        invariant forall j | 0 <= j < i :: !names[j].kind.Directory?
      {
        var d := names[i];
        ghost var at := StandsAt(names, after, i);
        NextInSorted(listing, after, names, i);
        FirstOfSorted(listing, after, names, i);
        tooDeep, stack, files, descended, seen := Visit(w, t, listing, stack, d, files, pre, after, at, seen);
        visited := visited + 1;
        i := i + 1;
        if tooDeep || descended {
          return;
        }
        if visited >= entries || |files| >= slots {
          return;
        }
      }
      NextInSorted(listing, after, names, i);
      FirstOfSorted(listing, after, names, i);
    }

    /** One page of the walk: from the frames `start` until the stack is empty or a
        limit is reached, whatever happens to the tree meanwhile. */
    method Walk(raw: string, start: seq<Frame>, maxEntries: nat, maxFiles: nat, ghost base: seq<string>)
      returns (error: Option<Error>, stack: seq<Frame>, files: seq<FileEntry>, ghost seen: seq<Seen>,
               ghost stops: seq<seq<string>>)
      requires Configured() && raw != "" && RelativeParts(root, inputRoot, raw) == Some(base)
      requires Accepted(start) && maxEntries >= 1 && maxFiles >= 1
      modifies this`clock
      ensures old(clock) <= clock
      ensures error.Some? ==> GaveUp(Below(world, base), old(clock), clock, Afters(start), error.value)
      ensures error.None? ==> Segment(Below(world, base), old(clock), clock, Afters(start), seen, Afters(stack))
      ensures error.None? ==> files == FilesOf(seen) && |files| <= maxFiles && |seen| <= maxEntries
      ensures error.None? && stack != [] ==> Accepted(stack) && (|seen| == maxEntries || |files| == maxFiles)
      ensures Ended(Below(world, base), old(clock), clock, Afters(start), stops, error, error.None? && stack == [])
    {
      hide NextStop, Trail, Ended, Segment, GaveUp, Accepted, FilesOf, PathOf, EntryPath, Less, ProperListing,
        Named, Plain, PagePath, Afters, RelativeParts;
      ghost var w, from, t0 := Below(world, base), Afters(start), clock;
      stack, files, seen, error, stops := start, [], [], None, [from];
      var visited := 0;
      SegmentStart(w, t0, from);
      NoFiles();
      BelowProper(world, base);
      TrailStart(w, t0, from);
      while stack != [] && visited < maxEntries && |files| < maxFiles
        invariant t0 <= clock
        invariant Trail(w, t0, from, stops) && t0 + |stops| - 1 == clock && stops[|stops| - 1] == Afters(stack)
        invariant Segment(w, t0, clock, from, seen, Afters(stack))
        invariant stack != [] ==> Accepted(stack)
        invariant visited < maxEntries && |files| < maxFiles
        invariant visited == |seen| <= maxEntries && files == FilesOf(seen) && |files| <= maxFiles
        decreases maxEntries - visited, |stack|
      {
        var frame := stack[|stack| - 1];
        ghost var here, t := Afters(stack), clock;
        ghost var pre := here[..|stack| - 1];
        TopFrame(stack);
        PagePathParts(root, inputRoot, raw, pre);
        var view := OpenDir(PagePath(raw, frame.path));
        assert view == Some(w(t, pre));
        if view.value.Looped? {
          LoopedHere(w, t0, t, from, seen, here);
          error := Some(Symlink);
          EndsIn(w, t0, t, from, stops, error, here);
          return;
        }
        if !view.value.Opened? {
          DropFrame(w, t0, t, t, from, seen, stack);
          stack := stack[..|stack| - 1];
          stops := OutOf(w, t0, t, from, stops);
          continue;
        }
        var tooDeep, moved, found, count, descended, met :=
          ReadFrame(w, t, view.value.listing, stack, maxEntries - visited, maxFiles - |files|);
        if tooDeep {
          GaveUpLater(w, t0, t, from, seen, here);
          error := Some(TooDeep);
          EndsIn(w, t0, t, from, stops, error, here);
          return;
        }
        FilesOfConcat(seen, met);
        seen := Extend(w, t0, t, t, from, seen, here, met, Afters(moved));
        stack, files, visited := moved, files + found, visited + count;
        if visited >= maxEntries || |files| >= maxFiles {
          TopFrame(moved);
          EndsIn(w, t0, t, from, stops, None, here);
          return;
        }
        if descended {
          TrailOn(w, t0, from, stops, Afters(stack));
          stops := stops + [Afters(stack)];
          continue;
        }
        TrailOn(w, t0, from, stops, pre);
        stops := stops + [pre];
        DropFrame(w, t0, t + 1, t, from, seen, stack);
        stack := stack[..|stack| - 1];
      }
      EndsOut(w, t0, clock, from, stops);
    }

    /** `list_dir`: one page, from the start or from a cursor handed back. */
    method ListDir(raw: string, cursor: Option<Json>, pagination: bool, maxEntries: nat, maxFiles: nat)
      returns (r: Result<Page, Error>, ghost start: seq<Frame>, ghost seen: seq<Seen>)
      requires Configured() && raw != "" && maxEntries >= 1 && maxFiles >= 1
      modifies this`clock
      ensures old(clock) <= clock
      ensures r != Err(InvalidCursor) <==> Starts(cursor, start)
      ensures r == Err(InvalidCursor) ==> forall frames :: !Starts(cursor, frames)
      ensures r.Ok? ==> RelativeParts(root, inputRoot, raw).Some? && old(clock) < clock
                        && PageOf(Below(world, RelativeParts(root, inputRoot, raw).value),
                                  old(clock), clock, Afters(start), seen, r.value, maxEntries, maxFiles)
      ensures r.Ok? && !pagination ==> r.value.nextCursor.None?
      ensures r == Err(OutsideRoot) <==> r != Err(InvalidCursor) && RelativeParts(root, inputRoot, raw).None?
      ensures r != Err(InvalidCursor) && RelativeParts(root, inputRoot, raw).Some? ==>
                Listed(Below(world, RelativeParts(root, inputRoot, raw).value), old(clock), clock, Afters(start), r)
      ensures r.Err? && r.error != InvalidCursor ==>
                if RelativeParts(root, inputRoot, raw).None? then r.error == OutsideRoot
                else Failed(Below(world, RelativeParts(root, inputRoot, raw).value),
                            old(clock), clock, Afters(start), r.error, pagination, maxEntries, maxFiles)
    {
      hide Segment, GaveUp, Accepted, FilesOf, PathOf, RelativeParts, WentOn, PageOf, Cut;
      seen := [];
      start := [];
      var stack := [Frame("", "")];
      FreshAccepted();
      if cursor.Some? && cursor.value != JNull {
        var decoded := ValidateCursor(cursor.value);
        if decoded.None? {
          return Err(InvalidCursor), start, seen;
        }
        stack := decoded.value;
      }
      start := stack;
      var view := OpenDir(raw);
      if view.None? {
        return Err(OutsideRoot), start, seen;
      }
      ghost var base := RelativeParts(root, inputRoot, raw).value;
      ghost var w, from, t := Below(world, base), Afters(start), old(clock);
      assert view.value == w(t, []) by { assert base + Normal([]) == base; }
      if view.value.Refused? {
        return Err(Unopenable), start, seen;
      }
      if view.value.Looped? {
        return Err(Symlink), start, seen;
      }
      if view.value.Missing? {
        AbsentPage(w, t, from, maxEntries, maxFiles);
        return Ok(Page([], None)), start, seen;
      }
      r, seen := this.ListOpened(raw, stack, pagination, maxEntries, maxFiles, base, t);
    }

    /** The page itself, the directory having opened at the moment `t`. */
    method ListOpened(raw: string, start: seq<Frame>, pagination: bool, maxEntries: nat, maxFiles: nat,
                      ghost base: seq<string>, ghost t: nat)
      returns (r: Result<Page, Error>, ghost seen: seq<Seen>)
      requires Configured() && raw != "" && maxEntries >= 1 && maxFiles >= 1 && Accepted(start)
      requires RelativeParts(root, inputRoot, raw) == Some(base)
      requires Below(world, base)(t, []).Opened? && clock == t + 1
      modifies this`clock
      ensures t < clock
      ensures r.Ok? ==> PageOf(Below(world, base), t, clock, Afters(start), seen, r.value, maxEntries, maxFiles)
      ensures r.Ok? && !pagination ==> r.value.nextCursor.None?
      ensures r.Err? ==> r.error == NeedsPagination || r.error == Symlink || r.error == TooDeep
      ensures r.Err? ==>
                Failed(Below(world, base), t, clock, Afters(start), r.error, pagination, maxEntries, maxFiles)
      ensures WentOn(Below(world, base), t + 1, clock, Afters(start), r)
    {
      hide Segment, GaveUp, Accepted, FilesOf, PathOf, RelativeParts, Ended, WentOn, Below, Afters;
      ghost var w, from := Below(world, base), Afters(start);
      StepIdle(w, t, from);
      ghost var stops;
      var error, rest, files;
      error, rest, files, seen, stops := Walk(raw, start, maxEntries, maxFiles, base);
      if error.Some? {
        GaveUpEarlier(w, t, t + 1, clock, from, error.value);
        r := Err(error.value);
        WentHere(w, t + 1, clock, from, stops, r);
        return;
      }
      Join(w, t, t + 1, t + 1, clock, from, [], from, seen, Afters(rest));
      assert [] + seen == seen;
      if rest != [] && !pagination {
        assert Cut(w, t, clock, from, seen, Afters(rest), maxEntries, maxFiles);
        r := Err(NeedsPagination);
      } else {
        r := Ok(Page(files, if rest == [] then None else Some(rest)));
      }
      WentHere(w, t + 1, clock, from, stops, r);
    }
  }

  lemma FreshAccepted()
    ensures Accepted([Frame("", "")]) && Afters([Frame("", "")]) == [""]
  {
    assert Linked([Frame("", "")], 0);
  }

  /** The frames a listing starts from: given by a valid cursor, or fresh. */
  ghost predicate Starts(cursor: Option<Json>, frames: seq<Frame>)
  {
    if cursor.None? || cursor.value.JNull? then frames == [Frame("", "")]
    else Denotes(cursor.value, frames) && Accepted(frames)
  }

  function NextPosition(page: Page): seq<string>
  {
    if page.nextCursor.None? then [] else Afters(page.nextCursor.value)
  }

  /** A page: a segment of the walk, its files in order, cut at a limit exactly when
      a cursor is handed out, and that cursor acceptable. */
  ghost predicate PageOf(w: World, t0: nat, t1: nat, from: seq<string>, seen: seq<Seen>, page: Page,
      maxEntries: nat, maxFiles: nat)
  {
    && Segment(w, t0, t1, from, seen, NextPosition(page))
    && page.files == FilesOf(seen)
    && |seen| <= maxEntries && |page.files| <= maxFiles
    && (page.nextCursor.Some? ==> Accepted(page.nextCursor.value) && (|seen| == maxEntries || |page.files| == maxFiles))
  }

  /** What the directory's own open means for the answer, and that past it the walk opened
      one directory after the other and met a link exactly if that is the answer. */
  ghost predicate Listed(w: World, t0: nat, t1: nat, from: seq<string>, r: Result<Page, Error>)
  {
    && (r == Err(Unopenable) <==> w(t0, []).Refused?)
    && match w(t0, [])
       case Missing => r == Ok(Page([], None))
       case Refused => true
       case Looped => r == Err(Symlink)
       case Opened(_) => WentOn(w, t0 + 1, t1, from, r)
  }

  ghost predicate WentOn(w: World, t0: nat, t1: nat, from: seq<string>, r: Result<Page, Error>)
  {
    exists stops :: Ended(w, t0, t1, from, stops, StopOf(r), WholeOf(r))
  }

  /** The error that stopped the walk itself. */
  function StopOf(r: Result<Page, Error>): Option<Error>
  {
    if r.Ok? || r.error == NeedsPagination then None else Some(r.error)
  }

  predicate WholeOf(r: Result<Page, Error>)
  {
    r.Ok? && r.value.nextCursor.None?
  }

  lemma AbsentPage(w: World, t: nat, from: seq<string>, maxEntries: nat, maxFiles: nat)
    requires w(t, []).Missing?
    ensures PageOf(w, t, t + 1, from, [], Page([], None), maxEntries, maxFiles)
  {
    hide Segment;
    StepAbsent(w, t, from);
  }

  lemma WentHere(w: World, t0: nat, t1: nat, from: seq<string>, stops: seq<seq<string>>, r: Result<Page, Error>)
    requires Ended(w, t0, t1, from, stops, StopOf(r), WholeOf(r))
    ensures WentOn(w, t0, t1, from, r)
  {}

  /** Why a listing with a valid cursor below the root can fail. */
  ghost predicate Failed(w: World, t0: nat, t1: nat, from: seq<string>, error: Error, pagination: bool,
      maxEntries: nat, maxFiles: nat)
  {
    match error
    case Unopenable => w(t0, []).Refused?
    case Symlink => w(t0, []).Looped? || GaveUp(w, t0, t1, from, Symlink)
    case TooDeep => GaveUp(w, t0, t1, from, TooDeep)
    case NeedsPagination => !pagination && exists seen, to :: Cut(w, t0, t1, from, seen, to, maxEntries, maxFiles)
    case _ => false
  }

  /** A page's worth of the walk that reached a limit with something left on the stack. */
  ghost predicate Cut(w: World, t0: nat, t1: nat, from: seq<string>, seen: seq<Seen>, to: seq<string>,
      maxEntries: nat, maxFiles: nat)
  {
    && to != [] && Segment(w, t0, t1, from, seen, to)
    && |seen| <= maxEntries && |FilesOf(seen)| <= maxFiles
    && (|seen| == maxEntries || |FilesOf(seen)| == maxFiles)
  }

  lemma GaveUpEarlier(w: World, t0: nat, t1: nat, t2: nat, from: seq<string>, error: Error)
    requires Segment(w, t0, t1, from, [], from) && GaveUp(w, t1, t2, from, error)
    ensures GaveUp(w, t0, t2, from, error)
    ensures error == TooDeep || error == Symlink
  {
    if error == TooDeep {
      var s: Seen :| s.kind.Directory? && |s.path| >= MAX_DEPTH && ShownBetween(w, t1, t2,
            s) && (Plain(from) ==> Named(s.path));
      ShownLonger(w, t1, t2, t0, t2, s);
    } else {
      var t: nat, seen, pos :|
        t1 <= t < t2 && Segment(w, t1, t, from, seen, pos) && pos != [] && w(t, pos[..|pos| - 1]).Looped?;
      Join(w, t0, t1, t1, t, from, [], from, seen, pos);
    }
  }
}
