/** Whole listings: pages followed from the first to a null cursor. */
module ListRuns {
  import opened Text
  import opened Paths
  import opened DirWalk
  import opened DirTree
  import opened ListCursor
  import opened ListDir

  /** One page as its client sees it: when it ran, where it stood before and after,
      and what it met. */
  datatype PageRun = PageRun(t0: nat, t1: nat, from: seq<string>, seen: seq<Seen>, to: seq<string>)

  /** Pages in order, each resuming where the one before stopped. */
  ghost predicate PagesOf(w: World, pages: seq<PageRun>)
  {
    && (forall i | 0 <= i < |pages| :: Segment(w, pages[i].t0, pages[i].t1, pages[i].from, pages[i].seen, pages[i].to))
    && (forall i | 0 < i < |pages| :: pages[i - 1].t1 <= pages[i].t0 && pages[i].from == pages[i - 1].to)
  }

  function AllSeen(pages: seq<PageRun>): seq<Seen>
  {
    if pages == [] then [] else AllSeen(pages[..|pages| - 1]) + pages[|pages| - 1].seen
  }

  lemma {:induction false} PagesJoin(w: World, pages: seq<PageRun>)
    requires pages != [] && PagesOf(w, pages)
    ensures Segment(w, pages[0].t0, pages[|pages| - 1].t1, pages[0].from, AllSeen(pages), pages[|pages| - 1].to)
    decreases |pages|
  {
    hide Segment;
    var last := pages[|pages| - 1];
    if |pages| == 1 {
      assert pages[..0] == [];
      assert AllSeen(pages) == [] + last.seen == last.seen;
    } else {
      var init := pages[..|pages| - 1];
      assert forall i | 0 <= i < |init| :: init[i] == pages[i];
      PagesJoin(w, init);
      SegmentTimes(w, init[0].t0, init[|init| - 1].t1, init[0].from, AllSeen(init), init[|init| - 1].to);
      SegmentTimes(w, last.t0, last.t1, last.from, last.seen, last.to);
      Join(w, init[0].t0, init[|init| - 1].t1, last.t0, last.t1, init[0].from, AllSeen(init), last.from, last.seen,
            last.to);
    }
  }

  lemma SegmentTimes(w: World, t0: nat, t1: nat, from: seq<string>, seen: seq<Seen>, to: seq<string>)
    requires Segment(w, t0, t1, from, seen, to)
    ensures t0 <= t1
  {}

  /** A regular file that stays, at every moment a regular file. */
  ghost predicate StaysFile(w: World, t0: nat, t1: nat, p: seq<string>)
  {
    && Stays(w, t0, t1, p)
    && forall t: nat, kind | t0 <= t < t1 && Shown(w, t, Seen(p, kind)) :: kind.Regular?
  }

  /** How often a path is returned. */
  function Count(files: seq<FileEntry>, path: string): nat
  {
    if files == [] then 0
    else Count(files[..|files| - 1], path) + if files[|files| - 1].path == path then 1 else 0
  }

  ghost predicate FilesIncreasing(files: seq<FileEntry>)
  {
    forall i, j | 0 <= i < j < |files| :: PathLess(Split(files[i].path, '/'), Split(files[j].path, '/'))
  }

  lemma NamedIsClean(p: seq<string>)
    requires Named(p)
    ensures Components(p)
  {
    forall i | 0 <= i < |p| ensures Component(p[i]) {
      assert EntryName(p[i]);
    }
  }

  /** The file returned is a regular one among the entries met. */
  ghost predicate ComesFrom(file: FileEntry, seen: seq<Seen>)
  {
    exists i | 0 <= i < |seen| :: IsEntry(file, seen[i])
  }

  predicate IsEntry(file: FileEntry, s: Seen)
  {
    s.kind.Regular? && Split(file.path, '/') == s.path
  }

  lemma ComesFromMore(file: FileEntry, seen: seq<Seen>, s: Seen)
    ensures ComesFrom(file, seen) ==> ComesFrom(file, seen + [s])
    ensures IsEntry(file, s) ==> ComesFrom(file, seen + [s])
  {
    hide IsEntry;
    var all := seen + [s];
    assert forall i | 0 <= i < |seen| :: all[i] == seen[i];
    assert all[|seen|] == s;
  }

  lemma {:induction false} FilesComeFrom(seen: seq<Seen>)
    requires forall i | 0 <= i < |seen| :: Named(seen[i].path) && seen[i].path != []
    ensures forall k | 0 <= k < |FilesOf(seen)| :: ComesFrom(FilesOf(seen)[k], seen)
    decreases |seen|
  {
    hide Split, PathOf, Named, ComesFrom;
    if seen == [] {
    } else {
      var init, last := seen[..|seen| - 1], seen[|seen| - 1];
      assert seen == init + [last];
      FilesComeFrom(init);
      NamedIsClean(last.path);
      SplitPathOf(last.path);
      forall k | 0 <= k < |FilesOf(seen)| ensures ComesFrom(FilesOf(seen)[k], seen) {
        ComesFromMore(FilesOf(seen)[k], init, last);
      }
    }
  }

  lemma {:induction false} FilesInOrder(seen: seq<Seen>)
    requires Increasing(seen) && forall i | 0 <= i < |seen| :: Named(seen[i].path) && seen[i].path != []
    ensures FilesIncreasing(FilesOf(seen))
    ensures forall k | 0 <= k < |FilesOf(seen)| :: ComesFrom(FilesOf(seen)[k], seen)
    decreases |seen|
  {
    hide PathLess, Split, PathOf, Named;
    FilesComeFrom(seen);
    if seen == [] {
    } else {
      var init, last := seen[..|seen| - 1], seen[|seen| - 1];
      FilesInOrder(init);
      var files := FilesOf(init);
      if last.kind.Regular? {
        NamedIsClean(last.path);
        SplitPathOf(last.path);
        forall k | 0 <= k < |files| ensures PathLess(Split(files[k].path, '/'), last.path) {
          assert ComesFrom(files[k], init);
          var i :| 0 <= i < |init| && IsEntry(files[k], init[i]);
          assert seen[i] == init[i];
        }
      }
    }
  }

  lemma {:induction false} CountConcat(a: seq<FileEntry>, b: seq<FileEntry>, path: string)
    ensures Count(a + b, path) == Count(a, path) + Count(b, path)
    decreases |b|
  {
    if b == [] {
      assert a + b == a;
    } else {
      assert (a + b)[..|a + b| - 1] == a + b[..|b| - 1];
      CountConcat(a, b[..|b| - 1], path);
    }
  }

  lemma CountSingle(file: FileEntry, path: string)
    ensures Count([file], path) == if file.path == path then 1 else 0
  {
    assert [file][..0] == [];
  }

  ghost predicate Absent(seen: seq<Seen>, p: seq<string>)
  {
    forall i | 0 <= i < |seen| :: Components(seen[i].path) && seen[i].path != [] && seen[i].path != p
  }

  lemma {:induction false} CountAbsent(seen: seq<Seen>, p: seq<string>)
    requires Components(p) && p != [] && Absent(seen, p)
    ensures Count(FilesOf(seen), PathOf(p)) == 0
    decreases |seen|
  {
    if seen == [] {
    } else {
      var init, last := seen[..|seen| - 1], seen[|seen| - 1];
      CountAbsent(init, p);
      assert FilesOf(init) + [] == FilesOf(init);
      SplitPathOf(p);
      SplitPathOf(last.path);
      if last.kind.Regular? {
        CountSingle(FileEntry(PathOf(last.path), last.kind.size), PathOf(p));
        CountConcat(FilesOf(init), [FileEntry(PathOf(last.path), last.kind.size)], PathOf(p));
      }
    }
  }

  lemma CountOnce(a: seq<Seen>, s: Seen, b: seq<Seen>)
    requires s.kind.Regular? && Components(s.path) && s.path != []
    requires Absent(a, s.path) && Absent(b, s.path)
    ensures Count(FilesOf(a + [s] + b), PathOf(s.path)) == 1
  {
    hide Absent, Components, PathOf, FilesOf, Count;
    FilesOfConcat(a + [s], b);
    FilesOfConcat(a, [s]);
    FilesOfOne(s);
    var path, one := PathOf(s.path), FilesOf([s]);
    CountConcat(FilesOf(a) + one, FilesOf(b), path);
    CountConcat(FilesOf(a), one, path);
    CountSingle(one[0], path);
    CountAbsent(a, s.path);
    CountAbsent(b, s.path);
  }

  lemma FilesOfOne(s: Seen)
    requires s.kind.Regular?
    ensures FilesOf([s]) == [FileEntry(PathOf(s.path), s.kind.size)]
  {
    assert [s][..0] == [];
  }

  /** Over any tree, changing arbitrarily between reads and between pages, a listing
      followed to a null cursor returns paths in strictly increasing component-wise
      order, so nothing twice, and every regular file that stays exactly once. */
  lemma AnyListing(w: World, pages: seq<PageRun>)
    requires ProperWorld(w) && pages != [] && PagesOf(w, pages)
    requires pages[0].from == [""] && pages[|pages| - 1].to == [] && pages[0].t0 < pages[|pages| - 1].t1
    ensures FilesIncreasing(FilesOf(AllSeen(pages)))
    ensures forall p | StaysFile(w, pages[0].t0, pages[|pages| - 1].t1, p) ::
              Count(FilesOf(AllSeen(pages)), PathOf(p)) == 1
  {
    hide Segment, FilesOf;
    PagesJoin(w, pages);
    var seen, t0, t1 := AllSeen(pages), pages[0].t0, pages[|pages| - 1].t1;
    SegmentNames(w, t0, t1, seen);
    FilesInOrder(seen);
    forall p | StaysFile(w, t0, t1, p) ensures Count(FilesOf(seen), PathOf(p)) == 1 {
      FileOnce(w, t0, t1, seen, p);
    }
  }

  lemma SegmentNames(w: World, t0: nat, t1: nat, seen: seq<Seen>)
    requires Segment(w, t0, t1, [""], seen, [])
    ensures Increasing(seen)
    ensures forall i | 0 <= i < |seen| ::
              Named(seen[i].path) && Components(seen[i].path) && seen[i].path != [] && ShownBetween(w, t0, t1, seen[i])
  {
    forall i | 0 <= i < |seen| ensures Components(seen[i].path) && seen[i].path != [] {
      NamedIsClean(seen[i].path);
    }
  }

  lemma OthersAbsent(seen: seq<Seen>, i: nat)
    requires i < |seen| && forall j | 0 <= j < |seen| && j != i :: seen[j].path != seen[i].path
    requires forall j | 0 <= j < |seen| :: Components(seen[j].path) && seen[j].path != []
    ensures seen == seen[..i] + [seen[i]] + seen[i + 1..]
    ensures Absent(seen[..i], seen[i].path) && Absent(seen[i + 1..], seen[i].path)
  {
    hide Components;
    var b := seen[i + 1..];
    assert forall j | 0 <= j < |b| :: b[j] == seen[j + i + 1];
  }

  lemma ShownAsFile(w: World, t0: nat, t1: nat, p: seq<string>, kind: Kind)
    requires StaysFile(w, t0, t1, p) && ShownBetween(w, t0, t1, Seen(p, kind))
    ensures kind.Regular?
  {}

  lemma FileOnce(w: World, t0: nat, t1: nat, seen: seq<Seen>, p: seq<string>)
    requires ProperWorld(w) && t0 < t1 && Segment(w, t0, t1, [""], seen, []) && StaysFile(w, t0, t1, p)
    ensures Count(FilesOf(seen), PathOf(p)) == 1
  {
    hide Segment, Stays, PathOf, FilesOf, Count, Absent, Components, Named, ShownBetween, ProperWorld, Increasing;
    CompleteWalk(w, t0, t1, seen);
    SegmentNames(w, t0, t1, seen);
    var i: nat :| i < |seen| && seen[i].path == p && forall j | 0 <= j < |seen| && j != i :: seen[j].path != p;
    ShownAsFile(w, t0, t1, p, seen[i].kind);
    OthersAbsent(seen, i);
    CountOnce(seen[..i], seen[i], seen[i + 1..]);
  }

  /** In an unchanging tree the directory a frame names never turns out a symlink. */
  lemma FramesOpen(w: World, entries: seq<Entry>, t0: nat, t: nat, seen: seq<Seen>, pos: seq<string>)
    requires WellFormed(entries) && Shows(w, entries)
    requires Segment(w, t0, t, [""], seen, pos) && pos != []
    ensures !w(t, pos[..|pos| - 1]).Looped?
  {
    var i := |pos| - 1;
    var dir := pos[..i];
    if i > 0 {
      assert FrameKnown([""], seen, pos, i);
      var s := Seen(dir, Directory);
      var k :| 0 <= k < |seen| && seen[k] == s;
      ShownIsListed(w, entries, t0, t, s);
      ListingHolds([], entries, s);
      assert dir[0..] == dir;
      assert NodeAt(entries, dir).Some? && NodeAt(entries, dir).value.Dir?;
    }
    assert Named(dir) by {
      forall j | 0 <= j < |dir| ensures EntryName(dir[j]) {
        assert dir[j] == pos[j];
      }
    }
    assert ViewOf(w(t, dir), entries, dir);
  }

  /** No page over an unchanging shallow tree fails. */
  lemma NoFailure(w: World, entries: seq<Entry>, t0: nat, t1: nat, t2: nat, t3: nat,
                  seen: seq<Seen>, pos: seq<string>, error: Error, maxEntries: nat, maxFiles: nat)
    requires WellFormed(entries) && Shows(w, entries) && Shallow(entries)
    requires Segment(w, t0, t1, [""], seen, pos) && t1 <= t2
    ensures !Failed(w, t2, t3, pos, error, true, maxEntries, maxFiles)
  {
    assert ViewOf(w(t2, []), entries, []);
    if Failed(w, t2, t3, pos, error, true, maxEntries, maxFiles) {
      if error == TooDeep {
        var s: Seen :| s.kind.Directory? && |s.path| >= MAX_DEPTH && ShownBetween(w, t2, t3,
              s) && (Plain(pos) ==> Named(s.path));
        ShownIsListed(w, entries, t2, t3, s);
        assert false;
      } else {
        var t: nat, more, at :| t2 <= t < t3 && Segment(w, t2, t, pos, more, at) && at != [] && w(t,
              at[..|at| - 1]).Looped?;
        Join(w, t0, t1, t2, t, [""], seen, pos, more, at);
        FramesOpen(w, entries, t0, t, seen + more, at);
        assert false;
      }
    }
  }

  /** A fresh listing that hands out no cursor, as every successful one without
      pagination, gives the whole list. */
  lemma UncutPageIsWhole(w: World, entries: seq<Entry>, t0: nat, t1: nat, seen: seq<Seen>, page: Page,
                         maxEntries: nat, maxFiles: nat)
    requires ProperWorld(w) && WellFormed(entries) && Shows(w, entries) && t0 < t1
    requires PageOf(w, t0, t1, [""], seen, page, maxEntries, maxFiles) && page.nextCursor.None?
    ensures page.files == FilesOf(Listing([], entries))
  {
    hide Segment, Shows, WellFormed, ProperWorld, FilesOf, Listing;
    CompleteWalkOfTree(w, entries, t0, t1, seen);
  }

  lemma EncodedStart(frames: seq<Frame>, start: seq<Frame>)
    requires Accepted(frames) && Starts(Some(EncodeCursor(frames)), start)
    ensures start == frames
  {
    EncodeDenotes(frames);
    DenotesOne(EncodeCursor(frames), frames, start);
  }

  lemma EncodedStarts(frames: seq<Frame>)
    requires Accepted(frames)
    ensures Starts(Some(EncodeCursor(frames)), frames)
  {
    EncodeDenotes(frames);
  }

  /** Where a client stands with the cursor it was last given. */
  ghost function PositionOf(cursor: Option<seq<Frame>>): seq<string>
  {
    if cursor.None? then [""] else Afters(cursor.value)
  }

  /** One request of a client: from the start, or with the cursor it was given. */
  method NextPage(fs: FsCommands, raw: string, cursor: Option<seq<Frame>>, maxEntries: nat, maxFiles: nat,
                  ghost base: seq<string>)
    returns (r: Result<Page, Error>, ghost met: seq<Seen>)
    requires fs.Configured() && raw != "" && maxEntries >= 1 && maxFiles >= 1
    requires RelativeParts(fs.root, fs.inputRoot, raw) == Some(base) && (cursor.Some? ==> Accepted(cursor.value))
    modifies fs`clock
    ensures old(fs.clock) <= fs.clock
    ensures r.Ok? ==> old(fs.clock) < fs.clock
                      && PageOf(Below(fs.world, base), old(fs.clock), fs.clock, PositionOf(cursor), met, r.value,
                                maxEntries, maxFiles)
    ensures r.Err? ==> Failed(Below(fs.world, base), old(fs.clock), fs.clock, PositionOf(cursor), r.error, true,
                              maxEntries, maxFiles)
  {
    hide Failed, Starts, Accepted, RelativeParts, PageOf, Below;
    var given := if cursor.None? then None else Some(EncodeCursor(cursor.value));
    FreshStarts();
    if cursor.Some? {
      EncodedStarts(cursor.value);
    }
    ghost var start;
    r, start, met := fs.ListDir(raw, given, true, maxEntries, maxFiles);
    if cursor.Some? {
      if Starts(given, start) {
        EncodedStart(cursor.value, start);
      }
    } else if Starts(given, start) {
      FreshOnly(start);
    }
  }

  /** The client's loop: follow `next_cursor` from none to null. Over an unchanging
      tree, nested at most 127 directories deep, it gets exactly the recursive
      name-sorted depth-first list of regular files, and within one page more than
      the tree has entries. */
  method FollowCursors(fs: FsCommands, raw: string, maxEntries: nat, maxFiles: nat, ghost entries: seq<Entry>)
    returns (files: seq<FileEntry>, pages: nat)
    requires fs.Configured() && raw != "" && maxEntries >= 1 && maxFiles >= 1
    requires RelativeParts(fs.root, fs.inputRoot, raw).Some?
    requires WellFormed(entries) && Shallow(entries)
    requires Shows(Below(fs.world, RelativeParts(fs.root, fs.inputRoot, raw).value), entries)
    modifies fs`clock
    ensures files == FilesOf(Listing([], entries))
    ensures pages <= |Listing([], entries)| + 1
  {
    hide Segment, Failed, Starts, Accepted, Shows, Shallow, WellFormed, ProperWorld, RelativeParts, PathOf, FilesOf,
        Listing;
    ghost var base := RelativeParts(fs.root, fs.inputRoot, raw).value;
    ghost var w, t0 := Below(fs.world, base), fs.clock;
    BelowProperHere(fs.world, base);
    ghost var seen: seq<Seen> := [];
    var cursor: Option<seq<Frame>> := None;
    ghost var pos := [""];
    var done := false;
    files, pages := [], 0;
    NoFiles();
    SegmentStart(w, t0, pos);
    FreshStarts();
    while !done
      invariant t0 <= fs.clock && (pages > 0 ==> t0 < fs.clock)
      invariant Segment(w, t0, fs.clock, [""], seen, pos) && files == FilesOf(seen)
      invariant done ==> pos == [] && pages > 0
      invariant !done ==> pos == PositionOf(cursor) && (cursor.Some? ==> Accepted(cursor.value))
      invariant |seen| <= |Listing([], entries)|
      invariant pages <= |seen| + if done then 1 else 0
      decreases !done, |Listing([], entries)| - |seen|
    {
      ghost var t := fs.clock;
      var r, met := NextPage(fs, raw, cursor, maxEntries, maxFiles, base);
      if r.Err? {
        NoFailure(w, entries, t0, t, t, fs.clock, seen, pos, r.error, maxEntries, maxFiles);
        assert false;
      }
      var page := r.value;
      ghost var next := NextPosition(page);
      Join(w, t0, t, t, fs.clock, [""], seen, pos, met, next);
      FilesOfConcat(seen, met);
      PageMoved(w, t, fs.clock, pos, met, page, maxEntries, maxFiles);
      seen := seen + met;
      pos := next;
      files := files + page.files;
      pages := pages + 1;
      cursor := page.nextCursor;
      done := cursor.None?;
      PlainStart();
      SeenAtMostAll(w, entries, t0, fs.clock, [""], seen, pos);
    }
    CompleteWalkOfTree(w, entries, t0, fs.clock, seen);
  }

  lemma OneMorePage(w: World, pages: seq<PageRun>, page: PageRun)
    requires PagesOf(w, pages) && Segment(w, page.t0, page.t1, page.from, page.seen, page.to)
    requires pages != [] ==> pages[|pages| - 1].t1 <= page.t0 && page.from == pages[|pages| - 1].to
    ensures PagesOf(w, pages + [page])
  {
    hide Segment;
    var all := pages + [page];
    assert forall i | 0 <= i < |pages| :: all[i] == pages[i];
  }

  lemma OneMoreSeen(pages: seq<PageRun>, page: PageRun)
    ensures FilesOf(AllSeen(pages + [page])) == FilesOf(AllSeen(pages)) + FilesOf(page.seen)
  {
    hide FilesOf;
    assert (pages + [page])[..|pages|] == pages;
    FilesOfConcat(AllSeen(pages), page.seen);
  }

  /** A client over a tree that changes as it likes, also between pages, following at
      most `bound` cursors: when it comes to a null one it has paths in strictly
      increasing order and every regular file that stayed exactly once. It stops short of
      one only for a page that failed, with a cause, or after that many pages. */
  method FollowWhileChanging(fs: FsCommands, raw: string, maxEntries: nat, maxFiles: nat, gaps: nat -> nat, bound: nat)
    returns (files: seq<FileEntry>, done: bool, error: Option<Error>, pages: nat)
    requires fs.Configured() && raw != "" && maxEntries >= 1 && maxFiles >= 1
    requires RelativeParts(fs.root, fs.inputRoot, raw).Some?
    modifies fs`clock
    ensures done ==> FilesIncreasing(files)
    ensures done ==> var w := Below(fs.world, RelativeParts(fs.root, fs.inputRoot, raw).value);
                     forall p | StaysFile(w, old(fs.clock), fs.clock, p) :: Count(files, PathOf(p)) == 1
    ensures pages <= bound && (!done ==> error.Some? || pages == bound) && (done ==> error.None?)
    ensures error.Some? ==>
              FailedSince(Below(fs.world, RelativeParts(fs.root, fs.inputRoot, raw).value), old(fs.clock), fs.clock,
                          error.value, maxEntries, maxFiles)
  {
    hide Segment, Failed, Starts, Accepted, ProperWorld, RelativeParts, PathOf, FilesOf, PagesOf, StaysFile,
        FilesIncreasing, Count, FailedSince;
    ghost var base := RelativeParts(fs.root, fs.inputRoot, raw).value;
    ghost var w := Below(fs.world, base);
    BelowProperHere(fs.world, base);
    ghost var runs: seq<PageRun> := [];
    var cursor: Option<seq<Frame>> := None;
    files, done, error, pages := [], false, None, 0;
    NoPages(w);
    for n := 0 to bound
      invariant pages == n && error.None?
      invariant !done && PagesOf(w, runs) && files == FilesOf(AllSeen(runs))
      invariant (runs == [] <==> n == 0) && (runs == [] ==> cursor.None? && fs.clock == old(fs.clock))
      invariant runs != [] ==> runs[0].from == [""] && runs[0].t0 == old(fs.clock)
      invariant runs != [] ==> runs[|runs| - 1].t1 <= fs.clock
      invariant runs != [] ==> old(fs.clock) < fs.clock
      invariant runs != [] ==> cursor.Some? && runs[|runs| - 1].to == PositionOf(cursor)
      invariant cursor.Some? ==> Accepted(cursor.value)
    {
      ghost var t := fs.clock;
      var r, met := NextPage(fs, raw, cursor, maxEntries, maxFiles, base);
      if r.Err? {
        error := Some(r.error);
        FailedHere(w, old(fs.clock), t, fs.clock, PositionOf(cursor), r.error, maxEntries, maxFiles);
        return;
      }
      ghost var page := PageRun(t, fs.clock, PositionOf(cursor), met, NextPosition(r.value));
      OneMorePage(w, runs, page);
      OneMoreSeen(runs, page);
      runs := runs + [page];
      files := files + r.value.files;
      cursor := r.value.nextCursor;
      if cursor.None? {
        done := true;
        PagesJoin(w, runs);
        AnyListing(w, runs);
        return;
      }
      fs.Pass(gaps(n));
      pages := pages + 1;
    }
  }

  /** Some page since `t0`, the last one, failed for a cause. */
  ghost predicate FailedSince(w: World, t0: nat, t1: nat, error: Error, maxEntries: nat, maxFiles: nat)
  {
    exists t: nat, from :: t0 <= t && Failed(w, t, t1, from, error, true, maxEntries, maxFiles)
  }

  lemma FailedHere(w: World, t0: nat, t: nat, t1: nat, from: seq<string>, error: Error, maxEntries: nat,
                   maxFiles: nat)
    requires t0 <= t && Failed(w, t, t1, from, error, true, maxEntries, maxFiles)
    ensures FailedSince(w, t0, t1, error, maxEntries, maxFiles)
  {
    hide Failed;
  }

  lemma NoPages(w: World)
    ensures PagesOf(w, []) && FilesOf(AllSeen([])) == []
  {
    NoFiles();
  }

  lemma PlainStart()
    ensures Plain([""])
  {}

  lemma FreshStarts()
    ensures Starts(None, [Frame("", "")]) && Afters([Frame("", "")]) == [""]
  {}

  lemma FreshOnly(start: seq<Frame>)
    requires Starts(None, start)
    ensures Afters(start) == [""]
  {}

  lemma BelowProperHere(w: World, base: seq<string>)
    requires ProperWorld(w)
    ensures ProperWorld(Below(w, base))
  {
    BelowProper(w, base);
  }

  /** A page that hands out a cursor has met at least one entry. */
  lemma PageMoved(w: World, t0: nat, t1: nat, from: seq<string>, seen: seq<Seen>, page: Page, maxEntries: nat,
      maxFiles: nat)
    requires PageOf(w, t0, t1, from, seen, page, maxEntries, maxFiles) && maxEntries >= 1 && maxFiles >= 1
    ensures page.nextCursor.Some? ==> |seen| >= 1
  {
    NoFiles();
  }
}
