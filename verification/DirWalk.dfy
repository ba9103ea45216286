/** What one walk over a changing directory tree has passed and what it still
    owes, as a function of the positions in its stack of frames. */
module DirWalk {
  import opened Text
  import opened Paths

  /** What `os.stat` says of one entry; Vanished when it raises OSError. */
  datatype Kind = Regular(size: nat) | Directory | Special | Vanished

  datatype Dirent = Dirent(name: string, kind: Kind)

  /** Opening a directory by path and listing it, or why that failed: no such
      entry, a symlink on the way (ELOOP), or any other OSError. */
  datatype View = Missing | Looped | Refused | Opened(listing: seq<Dirent>)

  /** The file system as an adversary: what opening a path shows at each moment. */
  type World = (nat, seq<string>) -> View

  predicate EntryName(name: string)
  {
    Component(name) && '\0' !in name
  }

  /** Listings hold distinct real names, in any order. */
  ghost predicate ProperListing(listing: seq<Dirent>)
  {
    && (forall i | 0 <= i < |listing| :: EntryName(listing[i].name))
    && (forall i, j | 0 <= i < j < |listing| :: listing[i].name != listing[j].name)
  }

  ghost predicate ProperWorld(w: World)
  {
    forall t, p | w(t, p).Opened? :: ProperListing(w(t, p).listing)
  }

  /** Component-wise order on paths, a directory before what it holds. */
  ghost predicate PathLess(p: seq<string>, q: seq<string>)
  {
    exists i :: PathLessAt(p, q, i)
  }

  predicate PathLessAt(p: seq<string>, q: seq<string>, i: int)
  {
    0 <= i <= |p| && i < |q| && p[..i] == q[..i] && (i == |p| || Less(p[i], q[i]))
  }

  lemma PathLessIrreflexive(p: seq<string>)
    ensures !PathLess(p, p)
  {
    forall i ensures !PathLessAt(p, p, i) {
      if 0 <= i < |p| {
        LessIrreflexive(p[i]);
      }
    }
  }

  lemma PathLessTransitive(p: seq<string>, q: seq<string>, r: seq<string>)
    requires PathLess(p, q) && PathLess(q, r)
    ensures PathLess(p, r)
  {
    var i :| PathLessAt(p, q, i);
    var j :| PathLessAt(q, r, j);
    var m := if i <= j then i else j;
    assert p[..m] == p[..i][..m] == q[..i][..m] == q[..m];
    assert q[..m] == q[..j][..m] == r[..j][..m] == r[..m];
    if i < j {
      assert q[i] == q[..j][i] == r[..j][i] == r[i];
    } else if j < i {
      assert p[j] == p[..i][j] == q[..i][j] == q[j];
    } else if i < |p| {
      LessTransitive(p[i], q[i], r[i]);
    }
    assert PathLessAt(p, r, m);
  }

  /** `q` lies ahead of a walk whose frames stand at the names `pos`: at some
      frame's directory it branches off past the frame's name. */
  ghost predicate Pending(pos: seq<string>, q: seq<string>)
  {
    exists i :: PendingAt(pos, q, i)
  }

  predicate PendingAt(pos: seq<string>, q: seq<string>, i: int)
  {
    0 <= i < |pos| && i < |q| && q[..i] == pos[..i] && Less(pos[i], q[i])
  }

  datatype Seen = Seen(path: seq<string>, kind: Kind)

  ghost predicate Increasing(seen: seq<Seen>)
  {
    forall i, j | 0 <= i < j < |seen| :: PathLess(seen[i].path, seen[j].path)
  }

  ghost predicate SeenAt(seen: seq<Seen>, p: seq<string>)
  {
    exists i :: 0 <= i < |seen| && seen[i].path == p
  }

  /** At moment `t` the entry is in its parent's listing with this kind. */
  predicate Shown(w: World, t: nat, s: Seen)
  {
    && s.path != []
    && var parent := w(t, s.path[..|s.path| - 1]);
    && parent.Opened?
    && Dirent(s.path[|s.path| - 1], s.kind) in parent.listing
  }

  ghost predicate ShownBetween(w: World, t0: nat, t1: nat, s: Seen)
  {
    exists t: nat :: t0 <= t < t1 && Shown(w, t, s)
  }

  /** At moment `t` the directory `p[..i]` opens and lists `p[i]`, as a directory
      unless it is the last component. */
  ghost predicate LinkShown(w: World, t: nat, p: seq<string>, i: int)
    requires 0 <= i < |p|
  {
    && w(t, p[..i]).Opened?
    && exists d :: d in w(t, p[..i]).listing && d.name == p[i] && (i < |p| - 1 ==> d.kind.Directory?)
  }

  /** The entry stays in place, all its parents present and openable. */
  ghost predicate Stays(w: World, t0: nat, t1: nat, p: seq<string>)
  {
    && p != []
    && forall t: nat, i: nat {:trigger LinkShown(w, t, p, i)} | t0 <= t < t1 && i < |p| :: LinkShown(w, t, p, i)
  }

  const MAX_DEPTH := 128

  /** From moment t0 to t1 a walk moved from the positions `from` to `to` and met
      exactly the entries `seen`, in order. */
  ghost predicate Segment(w: World, t0: nat, t1: nat, from: seq<string>, seen: seq<Seen>, to: seq<string>)
  {
    && t0 <= t1
    && Met(w, t0, t1, from, seen)
    && Ahead(from, seen, to)
    && Owed(w, t0, t1, from, seen, to)
    && Framed(from, seen, to)
  }

  /** What was met lay ahead, was shown, and came in increasing order; directories
      met were entered, so they are not too deep. */
  ghost predicate Met(w: World, t0: nat, t1: nat, from: seq<string>, seen: seq<Seen>)
  {
    && Increasing(seen)
    && forall i | 0 <= i < |seen| ::
        && Pending(from, seen[i].path)
        && ShownBetween(w, t0, t1, seen[i])
        && (seen[i].kind.Directory? ==> |seen[i].path| < MAX_DEPTH)
        && (Plain(from) ==> Named(seen[i].path))
  }

  /** Nothing comes back ahead, and all that is ahead comes after all that was met. */
  ghost predicate Ahead(from: seq<string>, seen: seq<Seen>, to: seq<string>)
  {
    && (forall q :: Pending(to, q) ==> Pending(from, q))
    && (forall i, q | 0 <= i < |seen| && Pending(to, q) :: PathLess(seen[i].path, q))
  }

  /** An entry that lay ahead and stays was met or still lies ahead. */
  ghost predicate Owed(w: World, t0: nat, t1: nat, from: seq<string>, seen: seq<Seen>, to: seq<string>)
  {
    forall p | Stays(w, t0, t1, p) && Pending(from, p) :: SeenAt(seen, p) || Pending(to, p)
  }

  /** Each frame's directory was there from the start or was met on the way. */
  ghost predicate Framed(from: seq<string>, seen: seq<Seen>, to: seq<string>)
  {
    && (Plain(from) ==> Plain(to))
    && forall i | 0 < i < |to| :: FrameKnown(from, seen, to, i)
  }

  ghost predicate FrameKnown(from: seq<string>, seen: seq<Seen>, to: seq<string>, i: nat)
    requires i < |to|
  {
    (i < |from| && to[..i] == from[..i]) || Seen(to[..i], Directory) in seen
  }

  ghost predicate Named(p: seq<string>)
  {
    forall i | 0 <= i < |p| :: EntryName(p[i])
  }

  /** All but the top frame stand at names a listing can hold. */
  ghost predicate Plain(pos: seq<string>)
  {
    forall i | 0 <= i < |pos| - 1 :: EntryName(pos[i])
  }

  lemma StaysLess(w: World, t0: nat, t1: nat, u0: nat, u1: nat, p: seq<string>)
    requires t0 <= u0 && u1 <= t1 && Stays(w, t0, t1, p)
    ensures Stays(w, u0, u1, p)
  {}

  lemma ShownLonger(w: World, t0: nat, t1: nat, u0: nat, u1: nat, s: Seen)
    requires u0 <= t0 && t1 <= u1 && ShownBetween(w, t0, t1, s)
    ensures ShownBetween(w, u0, u1, s)
  {
    var t: nat :| t0 <= t < t1 && Shown(w, t, s);
    assert u0 <= t < u1;
  }

  lemma SegmentStart(w: World, t: nat, pos: seq<string>)
    ensures Segment(w, t, t, pos, [], pos)
  {}

  lemma JoinMet(w: World, t0: nat, t1: nat, u0: nat, u1: nat,
                from: seq<string>, seen1: seq<Seen>, mid: seq<string>, seen2: seq<Seen>)
    requires Met(w, t0, t1, from, seen1) && Ahead(from, seen1, mid) && Met(w, u0, u1, mid, seen2)
    requires Plain(from) ==> Plain(mid)
    requires t0 <= u0 && t1 <= u1
    ensures Met(w, t0, u1, from, seen1 + seen2)
  {
    var seen := seen1 + seen2;
    forall i | 0 <= i < |seen|
      ensures Pending(from, seen[i].path) && ShownBetween(w, t0, u1, seen[i])
      ensures seen[i].kind.Directory? ==> |seen[i].path| < MAX_DEPTH
      ensures Plain(from) ==> Named(seen[i].path)
    {
      if i < |seen1| {
        assert seen[i] == seen1[i];
        ShownLonger(w, t0, t1, t0, u1, seen[i]);
      } else {
        assert seen[i] == seen2[i - |seen1|];
        ShownLonger(w, u0, u1, t0, u1, seen[i]);
      }
    }
    forall i, j | 0 <= i < j < |seen| ensures PathLess(seen[i].path, seen[j].path) {
      if j < |seen1| {
        assert seen[i] == seen1[i] && seen[j] == seen1[j];
      } else if |seen1| <= i {
        assert seen[i] == seen2[i - |seen1|] && seen[j] == seen2[j - |seen1|];
      } else {
        assert seen[i] == seen1[i] && seen[j] == seen2[j - |seen1|];
      }
    }
  }

  lemma JoinAhead(from: seq<string>, seen1: seq<Seen>, mid: seq<string>, seen2: seq<Seen>, to: seq<string>)
    requires Ahead(from, seen1, mid) && Ahead(mid, seen2, to)
    ensures Ahead(from, seen1 + seen2, to)
  {
    var seen := seen1 + seen2;
    forall i, q | 0 <= i < |seen| && Pending(to, q) ensures PathLess(seen[i].path, q) {
      if i < |seen1| {
        assert seen[i] == seen1[i] && Pending(mid, q);
      } else {
        assert seen[i] == seen2[i - |seen1|];
      }
    }
  }

  lemma JoinOwed(w: World, t0: nat, t1: nat, u0: nat, u1: nat,
                 from: seq<string>, seen1: seq<Seen>, mid: seq<string>, seen2: seq<Seen>, to: seq<string>)
    requires Owed(w, t0, t1, from, seen1, mid) && Owed(w, u0, u1, mid, seen2, to)
    requires t0 <= u0 && t1 <= u1
    ensures Owed(w, t0, u1, from, seen1 + seen2, to)
  {
    var seen := seen1 + seen2;
    forall p | Stays(w, t0, u1, p) && Pending(from, p) ensures SeenAt(seen, p) || Pending(to, p) {
      StaysLess(w, t0, u1, t0, t1, p);
      StaysLess(w, t0, u1, u0, u1, p);
      if SeenAt(seen1, p) {
        var i :| 0 <= i < |seen1| && seen1[i].path == p;
        assert seen[i].path == p;
      } else if SeenAt(seen2, p) {
        var i :| 0 <= i < |seen2| && seen2[i].path == p;
        assert seen[i + |seen1|].path == p;
      }
    }
  }

  lemma JoinFramed(from: seq<string>, seen1: seq<Seen>, mid: seq<string>, seen2: seq<Seen>, to: seq<string>)
    requires Framed(from, seen1, mid) && Framed(mid, seen2, to)
    ensures Framed(from, seen1 + seen2, to)
  {
    forall i | 0 < i < |to| ensures FrameKnown(from, seen1 + seen2, to, i) {
      assert FrameKnown(mid, seen2, to, i);
      if i < |mid| && to[..i] == mid[..i] {
        assert FrameKnown(from, seen1, mid, i);
      }
    }
  }

  /** Segments of a walk join, whatever happened in between. */
  lemma Join(w: World, t0: nat, t1: nat, u0: nat, u1: nat,
             from: seq<string>, seen1: seq<Seen>, mid: seq<string>, seen2: seq<Seen>, to: seq<string>)
    requires Segment(w, t0, t1, from, seen1, mid) && Segment(w, u0, u1, mid, seen2, to)
    requires t0 <= u0 && t1 <= u1
    ensures Segment(w, t0, u1, from, seen1 + seen2, to)
  {
    JoinMet(w, t0, t1, u0, u1, from, seen1, mid, seen2);
    JoinAhead(from, seen1, mid, seen2, to);
    JoinOwed(w, t0, t1, u0, u1, from, seen1, mid, seen2, to);
    JoinFramed(from, seen1, mid, seen2, to);
  }

  /** `d` is the least name past `after` in the listing. */
  ghost predicate NextEntry(listing: seq<Dirent>, after: string, d: Dirent)
  {
    && d in listing && Less(after, d.name)
    && forall e | e in listing && Less(after, e.name) :: e.name == d.name || Less(d.name, e.name)
  }

  lemma SameNameSameEntry(listing: seq<Dirent>, d: Dirent, e: Dirent)
    requires ProperListing(listing) && d in listing && e in listing && d.name == e.name
    ensures d == e
  {
    var i :| 0 <= i < |listing| && listing[i] == d;
    var j :| 0 <= j < |listing| && listing[j] == e;
  }

  lemma StepAhead(pre: seq<string>, after: string, s: Seen, to: seq<string>)
    requires |s.path| == |pre| + 1 && s.path[..|pre|] == pre && Less(after, s.path[|pre|])
    requires to == s.path || to == s.path + [""]
    ensures Pending(pre + [after], s.path) && Ahead(pre + [after], [s], to)
  {
    var from, here := pre + [after], s.path;
    assert PendingAt(from, here, |pre|);
    forall q | Pending(to, q) ensures Pending(from, q) && PathLess(here, q) {
      var i :| PendingAt(to, q, i);
      if i < |pre| {
        assert to[..i] == from[..i] == here[..i];
        assert PendingAt(from, q, i) && PathLessAt(here, q, i);
      } else if i == |pre| {
        LessTransitive(after, here[i], q[i]);
        assert to[..i] == from[..i] == here[..i];
        assert PendingAt(from, q, i) && PathLessAt(here, q, i);
      } else {
        assert q[..i] == to[..i] == here;
        assert q[..|pre|] == q[..i][..|pre|] == pre && q[|pre|] == q[..i][|pre|] == here[|pre|];
        assert PendingAt(from, q, |pre|) && PathLessAt(here, q, i);
      }
    }
  }

  lemma StepOwed(w: World, t: nat, pre: seq<string>, after: string, d: Dirent, to: seq<string>)
    requires ProperWorld(w) && w(t, pre).Opened? && NextEntry(w(t, pre).listing, after, d)
    requires to == if d.kind.Directory? then pre + [d.name, ""] else pre + [d.name]
    ensures Owed(w, t, t + 1, pre + [after], [Seen(pre + [d.name], d.kind)], to)
  {
    var from, s := pre + [after], Seen(pre + [d.name], d.kind);
    forall p | Stays(w, t, t + 1, p) && Pending(from, p) ensures SeenAt([s], p) || Pending(to, p) {
      var i :| PendingAt(from, p, i);
      assert LinkShown(w, t, p, i);
      assert from[..i] == to[..i];
      if i < |pre| {
        assert PendingAt(to, p, i);
      } else {
        assert p[..i] == pre;
        var e :| e in w(t, pre).listing && e.name == p[i] && (i < |p| - 1 ==> e.kind.Directory?);
        if e.name == d.name {
          SameNameSameEntry(w(t, pre).listing, d, e);
          StepOnto(w, t, pre, d, p, to, s);
        } else {
          assert PendingAt(to, p, i);
        }
      }
    }
  }

  lemma StepFramed(pre: seq<string>, after: string, s: Seen, to: seq<string>)
    requires |s.path| == |pre| + 1 && s.path[..|pre|] == pre && EntryName(s.path[|pre|])
    requires to == if s.kind.Directory? then s.path + [""] else s.path
    ensures Framed(pre + [after], [s], to)
  {
    var from := pre + [after];
    assert forall i | 0 <= i < |pre| :: pre[i] == from[i] == to[i];
    forall i | 0 < i < |to| ensures FrameKnown(from, [s], to, i) {
      assert i <= |pre| ==> to[..i] == from[..i];
      assert i > |pre| ==> to[..i] == s.path;
    }
  }

  /** The top frame moves past the next entry and, when that is a directory,
      a frame for it is pushed. */
  lemma StepEntry(w: World, t: nat, pre: seq<string>, after: string, d: Dirent)
    requires ProperWorld(w) && w(t, pre).Opened? && NextEntry(w(t, pre).listing, after, d)
    requires d.kind.Directory? ==> |pre| + 1 < MAX_DEPTH
    ensures Segment(w, t, t + 1, pre + [after], [Seen(pre + [d.name], d.kind)],
                    if d.kind.Directory? then pre + [d.name, ""] else pre + [d.name])
  {
    var from, here := pre + [after], pre + [d.name];
    var to := if d.kind.Directory? then pre + [d.name, ""] else here;
    var s := Seen(here, d.kind);
    assert here[..|here| - 1] == pre && Shown(w, t, s);
    StepAhead(pre, after, s, to);
    StepOwed(w, t, pre, after, d, to);
    assert EntryName(d.name);
    assert to == if s.kind.Directory? then here + [""] else here;
    StepFramed(pre, after, s, to);
    hide FrameKnown, Owed, Pending, Stays, Shown, ProperListing, NextEntry, PathLess;
  }

  lemma StepOnto(w: World, t: nat, pre: seq<string>, d: Dirent, p: seq<string>, to: seq<string>, s: Seen)
    requires ProperWorld(w) && Stays(w, t, t + 1, p)
    requires |pre| < |p| && p[..|pre|] == pre && p[|pre|] == d.name
    requires |pre| < |p| - 1 ==> d.kind.Directory?
    requires s == Seen(pre + [d.name], d.kind)
    requires to == if d.kind.Directory? then pre + [d.name, ""] else pre + [d.name]
    ensures SeenAt([s], p) || Pending(to, p)
  {
    var i := |pre|;
    if |p| == i + 1 {
      assert p == pre + [d.name];
      assert [s][0].path == p;
    } else {
      assert LinkShown(w, t, p, i + 1);
      var e :| e in w(t, p[..i + 1]).listing && e.name == p[i + 1];
      assert EntryName(e.name);
      assert p[..i + 1] == pre + [d.name] == to[..i + 1];
      assert PendingAt(to, p, i + 1);
    }
  }

  /** The top frame is dropped: its directory does not open, or lists nothing more. */
  lemma StepPop(w: World, t: nat, pre: seq<string>, after: string)
    requires w(t, pre).Opened? ==> forall d | d in w(t, pre).listing :: !Less(after, d.name)
    ensures Segment(w, t, t + 1, pre + [after], [], pre)
  {
    var from := pre + [after];
    forall q | Pending(pre, q) ensures Pending(from, q) {
      var i :| PendingAt(pre, q, i);
      assert pre[..i] == from[..i] && PendingAt(from, q, i);
    }
    forall p | Stays(w, t, t + 1, p) && Pending(from, p) ensures Pending(pre, p) {
      var i :| PendingAt(from, p, i);
      assert LinkShown(w, t, p, i);
      assert from[..|pre|] == pre;
      assert i != |pre|;
      assert pre[..i] == from[..i] && PendingAt(pre, p, i);
    }
  }

  /** The listed directory itself does not open: nothing that stays is owed. */
  lemma StepAbsent(w: World, t: nat, pos: seq<string>)
    requires !w(t, []).Opened?
    ensures Segment(w, t, t + 1, pos, [], [])
  {
    var t1 := t + 1;
    forall p ensures !Stays(w, t, t1, p) {
      if p != [] {
        assert p[..0] == [];
        assert !LinkShown(w, t, p, 0);
      }
    }
  }

  /** A moment passes without a move. */
  lemma StepIdle(w: World, t: nat, pos: seq<string>)
    ensures Segment(w, t, t + 1, pos, [], pos)
  {}

  /** Everything with a non-empty first name is ahead of a fresh walk; nothing is
      ahead of a finished one. */
  lemma StartAndEnd(p: seq<string>)
    ensures Pending([""], p) <==> p != [] && p[0] != ""
    ensures !Pending([], p)
  {
    if p != [] && p[0] != "" {
      assert p[..0] == [""][..0] && PendingAt([""], p, 0);
    }
    if Pending([""], p) {
      var i :| PendingAt([""], p, i);
    }
  }

  lemma SeenOnce(seen: seq<Seen>, i: nat, j: nat)
    requires Increasing(seen) && i < |seen| && j < |seen| && i != j
    ensures seen[i].path != seen[j].path
  {
    PathLessIrreflexive(seen[i].path);
    var a, b := if i < j then i else j, if i < j then j else i;
    assert PathLess(seen[a].path, seen[b].path);
  }

  lemma StaysNamed(w: World, t0: nat, t1: nat, p: seq<string>)
    requires ProperWorld(w) && t0 < t1 && Stays(w, t0, t1, p)
    ensures p[0] != ""
  {
    assert LinkShown(w, t0, p, 0);
  }

  /** A complete walk over a tree that changes arbitrarily returns paths in strictly
      increasing order, so none twice, and every entry that stays, exactly once. */
  lemma CompleteWalk(w: World, t0: nat, t1: nat, seen: seq<Seen>)
    requires ProperWorld(w) && t0 < t1 && Segment(w, t0, t1, [""], seen, [])
    ensures Increasing(seen)
    ensures forall p | Stays(w, t0, t1, p) ::
              exists i :: 0 <= i < |seen| && seen[i].path == p
                          && forall j | 0 <= j < |seen| && j != i :: seen[j].path != p
  {
    forall p | Stays(w, t0, t1, p)
      ensures exists i :: 0 <= i < |seen| && seen[i].path == p
                          && forall j | 0 <= j < |seen| && j != i :: seen[j].path != p
    {
      StaysNamed(w, t0, t1, p);
      StartAndEnd(p);
      var i :| 0 <= i < |seen| && seen[i].path == p;
      forall j | 0 <= j < |seen| && j != i ensures seen[j].path != p {
        SeenOnce(seen, i, j);
      }
    }
  }
}
