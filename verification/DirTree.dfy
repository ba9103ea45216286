/** Unchanging directory trees, their plain recursive listing, and what a complete
    walk over one returns. */
module DirTree {
  import opened Text
  import opened DirWalk

  datatype Node = File(size: nat) | Dir(opens: bool, entries: seq<Entry>) | Odd

  datatype Entry = Entry(name: string, node: Node)

  function KindOf(node: Node): Kind
  {
    match node
    case File(size) => Regular(size)
    case Dir(_, _) => Directory
    case Odd => Special
  }

  /** Real names, sorted, at every level. */
  ghost predicate WellFormed(entries: seq<Entry>)
    decreases entries
  {
    && (entries == [] || (
          && EntryName(entries[0].name)
          && (forall j | 0 < j < |entries| :: Less(entries[0].name, entries[j].name))
          && (entries[0].node.Dir? ==> WellFormed(entries[0].node.entries))
          && WellFormed(entries[1..])))
  }

  /** The recursive listing: entries by name, each directory that opens followed
      by its own listing. */
  function Listing(at: seq<string>, entries: seq<Entry>): seq<Seen>
    decreases entries
  {
    if entries == [] then []
    else
      var e := entries[0];
      var path := at + [e.name];
      [Seen(path, KindOf(e.node))]
      + (if e.node.Dir? && e.node.opens then Listing(path, e.node.entries) else [])
      + Listing(at, entries[1..])
  }

  function Find(entries: seq<Entry>, name: string): Option<Node>
  {
    if entries == [] then None
    else if entries[0].name == name then Some(entries[0].node)
    else Find(entries[1..], name)
  }

  /** The contents of the directory `p` names, if every directory on the way opens. */
  function DirAt(entries: seq<Entry>, p: seq<string>): Option<seq<Entry>>
    decreases |p|
  {
    if p == [] then Some(entries)
    else
      match Find(entries, p[0])
      case Some(Dir(true, inner)) => DirAt(inner, p[1..])
      case _ => None
  }

  function NodeAt(entries: seq<Entry>, p: seq<string>): Option<Node>
    requires p != []
  {
    match DirAt(entries, p[..|p| - 1])
    case Some(inner) => Find(inner, p[|p| - 1])
    case None => None
  }

  /** `w` keeps showing this tree: directories that open list exactly their
      entries, in any order; those that do not are refused. */
  ghost predicate Shows(w: World, entries: seq<Entry>)
  {
    forall t, p {:trigger w(t, p)} | Named(p) :: ViewOf(w(t, p), entries, p)
  }

  ghost predicate ViewOf(view: View, entries: seq<Entry>, p: seq<string>)
  {
    match DirAt(entries, p)
    case Some(inner) =>
      view.Opened? && (forall n, k :: Dirent(n, k) in view.listing <==>
                        exists node :: Find(inner, n) == Some(node) && KindOf(node) == k)
    case None =>
      !view.Opened? && (p != [] && NodeAt(entries, p).Some? && NodeAt(entries, p).value.Dir? ==> view.Refused?)
  }

  lemma {:induction false} FindUnfold(at: seq<string>, entries: seq<Entry>, p: seq<string>)
    requires |p| > |at| && p[..|at|] == at && entries != []
    ensures Reached(at, entries, p) ==
            if entries[0].name == p[|at|] then
              (if |p| == |at| + 1 then Some(entries[0].node)
               else if entries[0].node.Dir? && entries[0].node.opens
               then Reached(at + [p[|at|]], entries[0].node.entries, p)
               else None)
            else Reached(at, entries[1..], p)
  {
    var rest := p[|at|..];
    if |rest| > 1 {
      assert rest[..|rest| - 1][0] == rest[0];
      assert rest[..|rest| - 1][1..] == rest[1..][..|rest| - 2];
      assert p[|at| + 1..] == rest[1..];
    }
  }

  /** The node a path below `at` names among `entries`. */
  function Reached(at: seq<string>, entries: seq<Entry>, p: seq<string>): Option<Node>
    requires |p| > |at|
  {
    NodeAt(entries, p[|at|..])
  }

  ghost predicate Listed(list: seq<Seen>, s: Seen)
  {
    s in list
  }

  /** The listing holds exactly the entries that paths reach. */
  lemma {:induction false} ListingHolds(at: seq<string>, entries: seq<Entry>, s: Seen)
    requires WellFormed(entries)
    ensures Listed(Listing(at, entries), s) <==>
            |s.path| > |at| && s.path[..|at|] == at
            && Reached(at, entries, s.path).Some? && KindOf(Reached(at, entries, s.path).value) == s.kind
    decreases entries
  {
    if entries == [] {
    } else {
      var e := entries[0];
      var path := at + [e.name];
      var head := if e.node.Dir? && e.node.opens then Listing(path, e.node.entries) else [];
      if e.node.Dir? && e.node.opens {
        ListingHolds(path, e.node.entries, s);
      }
      ListingHolds(at, entries[1..], s);
      assert s in Listing(at, entries) <==> s == Seen(path, KindOf(e.node)) || s in head || s in Listing(at,
            entries[1..]);
      if |s.path| > |at| && s.path[..|at|] == at {
        FindUnfold(at, entries, s.path);
        if e.name == s.path[|at|] {
          NotLater(at, entries, s.path);
          if |s.path| == |at| + 1 {
            assert s.path == path;
          } else {
            assert s.path[..|path|] == path;
          }
        } else {
          assert |s.path| >= |path| ==> s.path[..|path|][|at|] == s.path[|at|];
          assert |s.path| >= |path| ==> s.path[..|path|] != path;
        }
      } else {
        assert path[..|at|] == at;
        PrefixOfPrefix(at, path, s.path);
      }
    }
  }

  lemma PrefixOfPrefix(a: seq<string>, b: seq<string>, p: seq<string>)
    requires a <= b
    ensures b <= p ==> a <= p && p[..|a|] == a
  {}

  lemma NotLater(at: seq<string>, entries: seq<Entry>, p: seq<string>)
    requires WellFormed(entries) && entries != [] && |p| > |at| && p[|at|] == entries[0].name
    ensures Reached(at, entries[1..], p).None?
  {
    LessIrreflexive(entries[0].name);
    FindNone(entries[1..], p[|at|]);
    var rest := p[|at|..];
    if |rest| > 1 {
      assert rest[..|rest| - 1][0] == rest[0];
    }
  }

  lemma {:induction false} FindNone(entries: seq<Entry>, name: string)
    requires forall j | 0 <= j < |entries| :: entries[j].name != name
    ensures Find(entries, name).None?
  {
    if entries == [] {
    } else {
      FindNone(entries[1..], name);
    }
  }

  lemma {:induction false} ListingUnder(at: seq<string>, entries: seq<Entry>, s: Seen)
    requires s in Listing(at, entries)
    ensures exists j :: 0 <= j < |entries| && Under(at, entries[j].name, s.path)
    decreases entries
  {
    var e := entries[0];
    var path := at + [e.name];
    if s == Seen(path, KindOf(e.node)) {
      assert Under(at, entries[0].name, s.path);
    } else if e.node.Dir? && e.node.opens && s in Listing(path, e.node.entries) {
      ListingUnder(path, e.node.entries, s);
      PrefixOfPrefix(at, path, s.path);
      assert s.path[..|path|][|at|] == path[|at|];
      assert Under(at, entries[0].name, s.path);
    } else {
      ListingUnder(at, entries[1..], s);
      var k :| 0 <= k < |entries[1..]| && Under(at, entries[1..][k].name, s.path);
      assert Under(at, entries[k + 1].name, s.path);
    }
  }

  lemma IncreasingConcat(a: seq<Seen>, b: seq<Seen>)
    requires Increasing(a) && Increasing(b)
    requires forall s, r | s in a && r in b :: PathLess(s.path, r.path)
    ensures Increasing(a + b)
  {
    var c := a + b;
    forall i, j | 0 <= i < j < |c| ensures PathLess(c[i].path, c[j].path) {
      assert i < |a| ==> c[i] == a[i] && a[i] in a;
      assert j < |a| ==> c[j] == a[j];
      assert |a| <= i ==> c[i] == b[i - |a|];
      assert |a| <= j ==> c[j] == b[j - |a|] && b[j - |a|] in b;
    }
  }

  /** The listing is in strictly increasing component-wise order. */
  lemma {:induction false} ListingIncreasing(at: seq<string>, entries: seq<Entry>)
    requires WellFormed(entries)
    ensures Increasing(Listing(at, entries))
    decreases entries
  {
    if entries == [] {
    } else {
      var e := entries[0];
      var path := at + [e.name];
      var first := [Seen(path, KindOf(e.node))];
      var head := if e.node.Dir? && e.node.opens then Listing(path, e.node.entries) else [];
      var tail := Listing(at, entries[1..]);
      if e.node.Dir? && e.node.opens {
        ListingIncreasing(path, e.node.entries);
      }
      ListingIncreasing(at, entries[1..]);
      forall s, r | s in first && r in head ensures PathLess(s.path, r.path) {
        ListingUnder(path, e.node.entries, r);
        assert PathLessAt(s.path, r.path, |path|);
      }
      IncreasingConcat(first, head);
      forall s, r | s in first + head && r in tail ensures PathLess(s.path, r.path) {
        FirstBeforeTail(at, entries, s, r);
      }
      IncreasingConcat(first + head, tail);
    }
  }

  lemma FirstBeforeTail(at: seq<string>, entries: seq<Entry>, s: Seen, r: Seen)
    requires WellFormed(entries) && entries != []
    requires s.path == at + [entries[0].name]
             || (entries[0].node.Dir? && s in Listing(at + [entries[0].name], entries[0].node.entries))
    requires r in Listing(at, entries[1..])
    ensures PathLess(s.path, r.path)
  {
    var path := at + [entries[0].name];
    ListingUnder(at, entries[1..], r);
    var k :| 0 <= k < |entries[1..]| && Under(at, entries[1..][k].name, r.path);
    assert entries[1..][k] == entries[k + 1];
    if s.path != path {
      ListingUnder(path, entries[0].node.entries, s);
      PrefixOfPrefix(at, path, s.path);
      assert s.path[..|path|][|at|] == path[|at|];
    }
    assert PathLessAt(s.path, r.path, |at|);
  }

  predicate Under(at: seq<string>, name: string, p: seq<string>)
  {
    |p| > |at| && p[..|at|] == at && p[|at|] == name
  }

  /** Strictly increasing sequences with the same elements are equal. */
  lemma {:induction false} SameElementsSameOrder(a: seq<Seen>, b: seq<Seen>)
    requires Increasing(a) && Increasing(b)
    requires forall s :: s in a <==> s in b
    ensures a == b
    decreases |a|
  {
    if a == [] {
      EmptyTogether(a, b);
    } else {
      assert a[0] in b;
      FirstAgree(a, b);
      forall s ensures s in a[1..] <==> s in b[1..] {
        RestIsOthers(a, s);
        RestIsOthers(b, s);
      }
      SameElementsSameOrder(a[1..], b[1..]);
      assert a == [a[0]] + a[1..] && b == [b[0]] + b[1..];
    }
  }

  lemma EmptyTogether(a: seq<Seen>, b: seq<Seen>)
    requires forall s :: s in a <==> s in b
    ensures b != [] ==> a != []
  {
    if b != [] {
      assert b[0] in b;
    }
  }

  lemma FirstAgree(a: seq<Seen>, b: seq<Seen>)
    requires Increasing(a) && Increasing(b) && a != [] && b != []
    requires forall s :: s in a <==> s in b
    ensures a[0] == b[0]
  {
    assert a[0] in b && b[0] in a;
    var i :| 0 <= i < |b| && b[i] == a[0];
    var j :| 0 <= j < |a| && a[j] == b[0];
    if i > 0 && j > 0 {
      PathLessTransitive(a[0].path, a[j].path, a[0].path);
      PathLessIrreflexive(a[0].path);
    }
  }

  lemma RestIsOthers(a: seq<Seen>, s: Seen)
    requires Increasing(a) && a != []
    ensures s in a[1..] <==> s in a && s != a[0]
  {
    if s in a[1..] {
      var i :| 0 <= i < |a[1..]| && a[1..][i] == s;
      SeenOnce(a, 0, i + 1);
    }
    if s in a && s != a[0] {
      var i :| 0 <= i < |a| && a[i] == s;
      assert a[1..][i - 1] == s;
    }
  }

  /** Whatever is shown of an unchanging tree is in its listing. */
  lemma ShownIsListed(w: World, entries: seq<Entry>, t0: nat, t1: nat, s: Seen)
    requires WellFormed(entries) && Shows(w, entries) && ShownBetween(w, t0, t1, s) && Named(s.path)
    ensures s in Listing([], entries)
  {
    var t: nat :| t0 <= t < t1 && Shown(w, t, s);
    var parent, name := s.path[..|s.path| - 1], s.path[|s.path| - 1];
    assert ViewOf(w(t, parent), entries, parent);
    assert s.path[0..] == s.path;
    assert s.path[..0] == [];
    assert Reached([], entries, s.path) == NodeAt(entries, s.path);
    ListingHolds([], entries, s);
  }

  lemma {:induction false} ListingNamed(at: seq<string>, entries: seq<Entry>, s: Seen)
    requires WellFormed(entries) && Named(at) && s in Listing(at, entries)
    ensures Named(s.path)
    decreases entries
  {
    var e := entries[0];
    var path := at + [e.name];
    if e.node.Dir? && e.node.opens && s in Listing(path, e.node.entries) {
      ListingNamed(path, e.node.entries, s);
    } else if s in Listing(at, entries[1..]) {
      ListingNamed(at, entries[1..], s);
    }
  }

  /** Every listed entry stays in place for ever. */
  lemma ListedStays(w: World, entries: seq<Entry>, t0: nat, t1: nat, s: Seen)
    requires WellFormed(entries) && Shows(w, entries) && s in Listing([], entries)
    ensures Stays(w, t0, t1, s.path)
  {
    ListingHolds([], entries, s);
    ListingNamed([], entries, s);
    var p := s.path;
    assert p[0..] == p;
    forall t: nat, i: nat | t0 <= t < t1 && i < |p| ensures LinkShown(w, t, p, i) {
      PrefixReached(entries, p, i);
      assert ViewOf(w(t, p[..i]), entries, p[..i]);
      var node := Find(DirAt(entries, p[..i]).value, p[i]).value;
      assert Dirent(p[i], KindOf(node)) in w(t, p[..i]).listing;
    }
  }

  /** All directories on the way to a reached node open, and are directories. */
  lemma {:induction false} PrefixReached(entries: seq<Entry>, p: seq<string>, i: nat)
    requires i < |p| && NodeAt(entries, p).Some?
    ensures DirAt(entries, p[..i]).Some?
    ensures Find(DirAt(entries, p[..i]).value, p[i]).Some?
    ensures i < |p| - 1 ==> Find(DirAt(entries, p[..i]).value, p[i]).value.Dir?
    decreases i
  {
    var parent := p[..|p| - 1];
    if i == |p| - 1 {
    } else if i == 0 {
      assert parent[0] == p[0];
    } else {
      assert parent[0] == p[0] && parent[1..] == p[1..][..|p| - 2];
      var inner := Find(entries, p[0]).value.entries;
      PrefixReached(inner, p[1..], i - 1);
      assert p[..i][1..] == p[1..][..i - 1];
    }
  }

  lemma SamePathSameKind(entries: seq<Entry>, a: Seen, b: Seen)
    requires WellFormed(entries)
    requires a in Listing([], entries) && b in Listing([], entries) && a.path == b.path
    ensures a == b
  {
    ListingHolds([], entries, a);
    ListingHolds([], entries, b);
  }

  /** A complete walk over an unchanging tree meets exactly the recursive listing. */
  lemma CompleteWalkOfTree(w: World, entries: seq<Entry>, t0: nat, t1: nat, seen: seq<Seen>)
    requires ProperWorld(w) && WellFormed(entries) && Shows(w, entries)
    requires t0 < t1 && Segment(w, t0, t1, [""], seen, [])
    ensures seen == Listing([], entries)
  {
    var list := Listing([], entries);
    ListingIncreasing([], entries);
    forall s ensures s in seen <==> s in list {
      if s in seen {
        var i :| 0 <= i < |seen| && seen[i] == s;
        ShownIsListed(w, entries, t0, t1, s);
      }
      if s in list {
        ListedStays(w, entries, t0, t1, s);
        StaysNamed(w, t0, t1, s.path);
        StartAndEnd(s.path);
        var i :| 0 <= i < |seen| && seen[i].path == s.path;
        ShownIsListed(w, entries, t0, t1, seen[i]);
        SamePathSameKind(entries, s, seen[i]);
      }
    }
    SameElementsSameOrder(seen, list);
  }

  /** A walk over an unchanging tree meets at most as many entries as the tree has. */
  lemma SeenAtMostAll(w: World, entries: seq<Entry>, t0: nat, t1: nat, from: seq<string>, seen: seq<Seen>,
      to: seq<string>)
    requires WellFormed(entries) && Shows(w, entries) && Segment(w, t0, t1, from, seen, to) && Plain(from)
    ensures |seen| <= |Listing([], entries)|
  {
    var list := Listing([], entries);
    forall i | 0 <= i < |seen| ensures seen[i] in list {
      ShownIsListed(w, entries, t0, t1, seen[i]);
    }
    DistinctWithin(seen, set s | s in list);
    SetOfSeq(list);
  }

  lemma {:induction false} DistinctWithin(seen: seq<Seen>, all: set<Seen>)
    requires Increasing(seen) && forall i | 0 <= i < |seen| :: seen[i] in all
    ensures |seen| <= |all|
    decreases |seen|
  {
    if seen == [] {
    } else {
      var last := seen[|seen| - 1];
      forall i | 0 <= i < |seen| - 1 ensures seen[i] in all - {last} {
        SeenOnce(seen, i, |seen| - 1);
      }
      DistinctWithin(seen[..|seen| - 1], all - {last});
    }
  }

  lemma {:induction false} SetOfSeq(list: seq<Seen>)
    ensures |set s | s in list| <= |list|
    decreases |list|
  {
    if list == [] {
    } else {
      SetOfSeq(list[1..]);
      assert (set s | s in list) == {list[0]} + (set s | s in list[1..]);
    }
  }

  /** No listed directory is too deep for the stack to hold its frame. */
  ghost predicate Shallow(entries: seq<Entry>)
  {
    forall s | s in Listing([], entries) :: s.kind.Directory? ==> |s.path| < MAX_DEPTH
  }

  lemma SegmentShallow(w: World, t0: nat, t1: nat, from: seq<string>, seen: seq<Seen>, to: seq<string>, s: Seen)
    requires Segment(w, t0, t1, from, seen, to) && s in seen && s.kind.Directory?
    ensures |s.path| < MAX_DEPTH
  {
    var i :| 0 <= i < |seen| && seen[i] == s;
  }

  /** A complete walk is possible only over a tree shallow enough. */
  lemma CompleteWalkIsShallow(w: World, entries: seq<Entry>, t0: nat, t1: nat, seen: seq<Seen>)
    requires ProperWorld(w) && WellFormed(entries) && Shows(w, entries)
    requires t0 < t1 && Segment(w, t0, t1, [""], seen, [])
    ensures Shallow(entries)
  {
    CompleteWalkOfTree(w, entries, t0, t1, seen);
    forall s | s in seen && s.kind.Directory? ensures |s.path| < MAX_DEPTH {
      SegmentShallow(w, t0, t1, [""], seen, [], s);
    }
  }
}
