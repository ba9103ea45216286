/** Lexical paths below the data root (`FsCommands._relative_parts`). An absolute
    path is the list of its components; text is split at '/'. */
module Paths {
  import opened Text

  /** One real path component: what `os.listdir` can return. */
  predicate Component(name: string)
  {
    name != "" && name != "." && name != ".." && '/' !in name
  }

  predicate Components(names: seq<string>)
  {
    forall i | 0 <= i < |names| :: Component(names[i])
  }

  /** `os.path.normpath` from an already normal absolute path: empty and `.` are
      dropped, `..` goes up and stays at the filesystem root. */
  function Collapse(at: seq<string>, names: seq<string>): seq<string>
    decreases |names|
  {
    if names == [] then at
    else if names[0] == "" || names[0] == "." then Collapse(at, names[1..])
    else if names[0] == ".." then Collapse(if at == [] then [] else at[..|at| - 1], names[1..])
    else Collapse(at + [names[0]], names[1..])
  }

  lemma {:induction false} CollapseAppend(at: seq<string>, xs: seq<string>, ys: seq<string>)
    ensures Collapse(at, xs + ys) == Collapse(Collapse(at, xs), ys)
    decreases |xs|
  {
    if xs == [] {
      assert xs + ys == ys;
    } else {
      var up := if at == [] then [] else at[..|at| - 1];
      assert (xs + ys)[1..] == xs[1..] + ys;
      CollapseAppend(at, xs[1..], ys);
      CollapseAppend(up, xs[1..], ys);
      CollapseAppend(at + [xs[0]], xs[1..], ys);
    }
  }

  /** What normalising means: empty names and `.` say nothing, a name followed by `..`
      neither, `..` leaves the directory reached, and there is none above the top. */
  lemma CollapseRules(at: seq<string>, name: string, ys: seq<string>)
    ensures Collapse(at, [""] + ys) == Collapse(at, ["."] + ys) == Collapse(at, ys)
    ensures Component(name) ==> Collapse(at, [name] + ys) == Collapse(at + [name], ys)
    ensures Component(name) ==> Collapse(at, [name, ".."] + ys) == Collapse(at, ys)
    ensures at != [] ==> Collapse(at, [".."] + ys) == Collapse(at[..|at| - 1], ys)
    ensures Collapse([], [".."] + ys) == Collapse([], ys)
  {
    assert ([""] + ys)[1..] == (["."] + ys)[1..] == ([".."] + ys)[1..] == ([name] + ys)[1..] == ys;
    assert ([name, ".."] + ys)[1..] == [".."] + ys;
    assert (at + [name])[..|at|] == at;
  }

  /** So many `..` in a row. */
  function Ups(k: nat): (names: seq<string>)
    ensures |names| == k && forall i | 0 <= i < k :: names[i] == ".."
  {
    seq(k, _ => "..")
  }

  lemma {:induction false} CollapseUps(at: seq<string>, k: nat)
    ensures Collapse(at, Ups(k)) == if k <= |at| then at[..|at| - k] else []
    decreases k
  {
    if k == 0 {
      assert at[..|at|] == at;
    } else {
      assert Ups(k) == [".."] + Ups(k - 1);
      CollapseRules(at, "", Ups(k - 1));
      CollapseUps(if at == [] then [] else at[..|at| - 1], k - 1);
    }
  }

  lemma {:induction false} CollapseClean(at: seq<string>, names: seq<string>)
    requires Components(names)
    ensures Collapse(at, names) == at + names
    decreases |names|
  {
    if names == [] {
      assert at + names == at;
    } else {
      assert Component(names[0]);
      CollapseClean(at + [names[0]], names[1..]);
      assert at + [names[0]] + names[1..] == at + names;
    }
  }

  lemma {:induction false} CollapseComponents(at: seq<string>, names: seq<string>)
    requires Components(at)
    requires forall i | 0 <= i < |names| :: '/' !in names[i]
    ensures Components(Collapse(at, names))
    decreases |names|
  {
    if names == [] {
    } else {
      if names[0] == "" || names[0] == "." {
        CollapseComponents(at, names[1..]);
      } else if names[0] == ".." {
        CollapseComponents(if at == [] then [] else at[..|at| - 1], names[1..]);
      } else {
        CollapseComponents(at + [names[0]], names[1..]);
      }
    }
  }

  /** The relative spelling a walk builds, parent by parent. */
  function PathOf(names: seq<string>): string
  {
    if names == [] then ""
    else
      var parent := PathOf(names[..|names| - 1]);
      if parent == "" then names[|names| - 1] else parent + "/" + names[|names| - 1]
  }

  /** Names that a text can spell out, `.` and `..` included. */
  predicate Spelled(names: seq<string>)
  {
    forall i | 0 <= i < |names| :: names[i] != "" && '/' !in names[i]
  }

  lemma {:induction false} SplitPathOf(names: seq<string>)
    requires Spelled(names) && names != []
    ensures Split(PathOf(names), '/') == names && PathOf(names) != ""
    decreases |names|
  {
    var init, last := names[..|names| - 1], names[|names| - 1];
    assert '/' !in last && last != "";
    SplitWhole(last, '/');
    if init == [] {
      assert names == [last];
    } else {
      SplitPathOf(init);
      SplitAppend(PathOf(init), last, '/');
      assert PathOf(names) == PathOf(init) + ['/'] + last;
      assert names == init + [last];
    }
  }

  lemma {:induction false} StartsWithName(names: seq<string>)
    requires Spelled(names)
    ensures !IsAbsolute(PathOf(names))
    decreases |names|
  {
    if names != [] {
      var last := names[|names| - 1];
      assert '/' !in last && last != "" && last[0] in last;
      StartsWithName(names[..|names| - 1]);
    }
  }

  function AbsolutePath(names: seq<string>): string
  {
    "/" + PathOf(names)
  }

  predicate IsAbsolute(raw: string)
  {
    raw != "" && raw[0] == '/'
  }

  function Candidate(root: seq<string>, raw: string): seq<string>
  {
    Collapse(if IsAbsolute(raw) then [] else root, Split(raw, '/'))
  }

  /** A candidate below the root as configured (before symlinks) is moved under
      the real root; what is then not below the real root is refused. */
  function Place(root: seq<string>, inputRoot: seq<string>, candidate: seq<string>): Option<seq<string>>
  {
    var placed := if inputRoot <= candidate then root + candidate[|inputRoot|..] else candidate;
    if root <= placed then Some(placed[|root|..]) else None
  }

  /** Components of `raw` below the data root, or None when it is outside. */
  function RelativeParts(root: seq<string>, inputRoot: seq<string>, raw: string): Option<seq<string>>
  {
    Place(root, inputRoot, Candidate(root, raw))
  }

  /** `_relative_parts`' last check (no empty, `.` or `..` part) never fires. */
  lemma PartsAreComponents(root: seq<string>, inputRoot: seq<string>, raw: string)
    requires Components(root)
    requires RelativeParts(root, inputRoot, raw).Some?
    ensures Components(RelativeParts(root, inputRoot, raw).value)
  {
    CollapseComponents([], Split(raw, '/'));
    CollapseComponents(root, Split(raw, '/'));
  }

  lemma CandidateOfParts(root: seq<string>, names: seq<string>)
    requires Components(names)
    ensures Candidate(root, PathOf(names)) == root + names
    ensures Candidate(root, AbsolutePath(names)) == names
  {
    if names == [] {
      SplitWhole("", '/');
      SplitAppend("", "", '/');
      assert AbsolutePath(names) == "" + ['/'] + "";
      assert [""][1..] == [] && ["", ""][1..] == [""] && [""] + [""] == ["", ""];
      assert root + names == root;
    } else {
      SplitPathOf(names);
      StartsWithName(names);
      CollapseClean(root, names);
      SplitHead("", PathOf(names), '/');
      assert AbsolutePath(names) == "" + ['/'] + PathOf(names);
      CollapseClean([], names);
      CollapseRules([], "", names);
      assert [] + names == names;
    }
  }

  /** The configured root and the real root coincide, or neither contains the other. */
  predicate Compatible(root: seq<string>, inputRoot: seq<string>)
  {
    inputRoot == root || (!(inputRoot <= root) && !(root <= inputRoot))
  }

  lemma CommonPrefixes(a: seq<string>, b: seq<string>, c: seq<string>)
    requires a <= c && b <= c
    ensures a <= b || b <= a
  {
    assert a == c[..|a|] && b == c[..|b|];
  }

  lemma PlaceBelow(root: seq<string>, inputRoot: seq<string>, parts: seq<string>)
    ensures Place(root, inputRoot, inputRoot + parts) == Some(parts)
    ensures Compatible(root, inputRoot) ==> Place(root, inputRoot, root + parts) == Some(parts)
  {
    assert (root + parts)[|root|..] == parts && (inputRoot + parts)[|inputRoot|..] == parts;
    if inputRoot <= root + parts {
      CommonPrefixes(inputRoot, root, root + parts);
    }
  }

  lemma PlacedBelow(root: seq<string>, inputRoot: seq<string>, c: seq<string>)
    ensures Place(root, inputRoot, c).Some? ==> inputRoot <= c || root <= c
  {}

  lemma PlaceExtends(root: seq<string>, inputRoot: seq<string>, c: seq<string>, names: seq<string>)
    requires Compatible(root, inputRoot) && Place(root, inputRoot, c).Some?
    ensures Place(root, inputRoot, c + names) == Some(Place(root, inputRoot, c).value + names)
  {
    hide Place;
    PlacedBelow(root, inputRoot, c);
    if inputRoot <= c {
      var parts := c[|inputRoot|..];
      assert c == inputRoot + parts && c + names == inputRoot + (parts + names);
      PlaceBelow(root, inputRoot, parts);
      PlaceBelow(root, inputRoot, parts + names);
    } else {
      var parts := c[|root|..];
      assert c == root + parts && c + names == root + (parts + names);
      PlaceBelow(root, inputRoot, parts);
      PlaceBelow(root, inputRoot, parts + names);
    }
  }

  /** Absolute spellings under either root and the relative spelling agree. */
  lemma SpellingsAgree(root: seq<string>, inputRoot: seq<string>, parts: seq<string>)
    requires Components(root) && Components(inputRoot) && Components(parts)
    requires Compatible(root, inputRoot)
    ensures RelativeParts(root, inputRoot, PathOf(parts)) == Some(parts)
    ensures RelativeParts(root, inputRoot, AbsolutePath(root + parts)) == Some(parts)
    ensures RelativeParts(root, inputRoot, AbsolutePath(inputRoot + parts)) == Some(parts)
  {
    CandidateOfParts(root, parts);
    CandidateOfParts(root, root + parts);
    CandidateOfParts(root, inputRoot + parts);
    PlaceBelow(root, inputRoot, parts);
  }

  /** `os.path.join(base, raw)` for a relative `raw`. */
  function Joined(base: string, raw: string): string
  {
    if base != "" && base[|base| - 1] == '/' then base + raw else base + "/" + raw
  }

  /** Any relative text, with `..`, `.` and doubled slashes as they come, parses like the
      absolute text it makes behind the data root. */
  lemma RelativeMeansBelowRoot(root: seq<string>, inputRoot: seq<string>, raw: string)
    requires Components(root) && !IsAbsolute(raw)
    ensures IsAbsolute(Joined(AbsolutePath(root), raw))
    ensures RelativeParts(root, inputRoot, raw) == RelativeParts(root, inputRoot, Joined(AbsolutePath(root), raw))
  {
    var base, text := AbsolutePath(root), Joined(AbsolutePath(root), raw);
    hide Place, Component;
    if root == [] {
      assert text == [] + ['/'] + raw;
      SplitHead([], raw, '/');
      assert Collapse([], [""] + Split(raw, '/')) == Collapse([], Split(raw, '/')) by {
        CollapseAppend([], [""], Split(raw, '/'));
      }
    } else {
      CandidateOfParts(root, root);
      LastIsNoSlash(root);
      assert text == base + ['/'] + raw;
      SplitAppend(base, raw, '/');
      CollapseAppend([], Split(base, '/'), Split(raw, '/'));
    }
  }

  lemma {:induction false} LastIsNoSlash(names: seq<string>)
    requires Components(names) && names != []
    ensures PathOf(names) != "" && PathOf(names)[|PathOf(names)| - 1] != '/'
  {
    var last := names[|names| - 1];
    assert last in names && Component(last);
    assert last[|last| - 1] in last;
  }

  /** Wherever it stands in a text, a name followed by `..` changes nothing; nor do `.`
      and a doubled slash. */
  lemma UpUndoesName(root: seq<string>, inputRoot: seq<string>, a: string, name: string, b: string)
    requires Component(name)
    ensures RelativeParts(root, inputRoot, a + "/" + name + "/../" + b) == RelativeParts(root, inputRoot, a + "/" + b)
    ensures RelativeParts(root, inputRoot, a + "/./" + b) == RelativeParts(root, inputRoot, a + "/" + b)
    ensures RelativeParts(root, inputRoot, a + "//" + b) == RelativeParts(root, inputRoot, a + "/" + b)
  {
    hide Place, Collapse, Split;
    var at := if IsAbsolute(a + "/" + b) then [] else root;
    var ys := Split(b, '/');
    var up, dot, none := name + "/../" + b, "./" + b, "/" + b;
    assert up == name + ['/'] + (".." + ['/'] + b) && dot == "." + ['/'] + b && none == "" + ['/'] + b;
    SplitHead(name, ".." + ['/'] + b, '/');
    SplitHead("..", b, '/');
    SplitHead(".", b, '/');
    SplitHead("", b, '/');
    assert [name] + ([".."] + ys) == [name, ".."] + ys;
    CollapseRules(Collapse(at, Split(a, '/')), name, ys);
    assert a + "/" + name + "/../" + b == a + ['/'] + up;
    assert a + "/./" + b == a + ['/'] + dot && a + "//" + b == a + ['/'] + none;
    CandidateAfter(root, a, b);
    CandidateAfter(root, a, up);
    CandidateAfter(root, a, dot);
    CandidateAfter(root, a, none);
  }

  lemma CandidateAfter(root: seq<string>, a: string, b: string)
    ensures var at := if IsAbsolute(a + "/" + b) then [] else root;
            Candidate(root, a + ['/'] + b) == Collapse(Collapse(at, Split(a, '/')), Split(b, '/'))
    ensures IsAbsolute(a + ['/'] + b) == (a == "" || a[0] == '/')
  {
    hide Collapse, Split;
    SplitAppend(a, b, '/');
    CollapseAppend(if IsAbsolute(a + "/" + b) then [] else root, Split(a, '/'), Split(b, '/'));
  }

  /** More `..` than names lead out of the root, and are refused, behind a relative path as
      behind the root's own; as many lead back to it. */
  lemma LeavingIsRefused(root: seq<string>, inputRoot: seq<string>, names: seq<string>, k: nat)
    requires Components(root) && Components(names) && Compatible(root, inputRoot) && root != []
    ensures |names| < k ==> RelativeParts(root, inputRoot, PathOf(names + Ups(k))) == None
    ensures |names| < k ==> RelativeParts(root, inputRoot, AbsolutePath(root + names + Ups(k))) == None
    ensures k <= |names| ==> RelativeParts(root, inputRoot, PathOf(names + Ups(k))) == Some(names[..|names| - k])
  {
    hide Candidate, Place, PathOf, AbsolutePath;
    CandidateOfUps(root, names, k);
    AbsoluteOfUps(root, root + names, k);
    if |names| < k {
      AbovePlace(root, inputRoot, if k <= |root + names| then |root + names| - k else 0);
      assert k <= |root + names| ==> (root + names)[..|root + names| - k] == root[..|root + names| - k];
    } else {
      assert (root + names)[..|root + names| - k] == root + names[..|names| - k];
      PlaceBelow(root, inputRoot, names[..|names| - k]);
    }
  }

  lemma AbovePlace(root: seq<string>, inputRoot: seq<string>, m: nat)
    requires Compatible(root, inputRoot) && m < |root|
    ensures Place(root, inputRoot, root[..m]) == None
  {
    assert inputRoot <= root[..m] ==> inputRoot <= root;
  }

  lemma CandidateOfUps(root: seq<string>, names: seq<string>, k: nat)
    requires Components(names)
    ensures Candidate(root, PathOf(names + Ups(k)))
         == if k <= |root + names| then (root + names)[..|root + names| - k] else []
  {
    var all := names + Ups(k);
    CollapseClean(root, names);
    CollapseUps(root + names, k);
    CollapseAppend(root, names, Ups(k));
    if all == [] {
      CandidateOfParts(root, []);
      assert (root + names)[..|root + names|] == root + names;
    } else {
      SplitPathOf(all);
      StartsWithName(all);
    }
  }

  lemma AbsoluteOfUps(root: seq<string>, names: seq<string>, k: nat)
    requires Components(names) && names != []
    ensures Candidate(root, AbsolutePath(names + Ups(k))) == if k <= |names| then names[..|names| - k] else []
  {
    var all := names + Ups(k);
    CollapseClean([], names);
    assert [] + names == names;
    CollapseUps(names, k);
    CollapseAppend([], names, Ups(k));
    SplitPathOf(all);
    hide Collapse, Split;
    assert AbsolutePath(all) == "" + ['/'] + PathOf(all);
    SplitHead("", PathOf(all), '/');
    CollapseRules([], "", all);
  }

  /** A text names `parts` below the data root exactly when it normalises to them behind
      the root, real or as configured. */
  lemma InsideExactly(root: seq<string>, inputRoot: seq<string>, raw: string, parts: seq<string>)
    requires Compatible(root, inputRoot)
    ensures RelativeParts(root, inputRoot, raw) == Some(parts) <==>
              Candidate(root, raw) == root + parts || Candidate(root, raw) == inputRoot + parts
  {
    PlaceBelow(root, inputRoot, parts);
    var c := Candidate(root, raw);
    hide Candidate, Place;
    if Place(root, inputRoot, c) == Some(parts) {
      PlaceCases(root, inputRoot, c);
    }
  }

  lemma PlaceCases(root: seq<string>, inputRoot: seq<string>, c: seq<string>)
    requires Place(root, inputRoot, c).Some?
    ensures var parts := Place(root, inputRoot, c).value; c == root + parts || c == inputRoot + parts
  {
    if inputRoot <= c {
      assert (root + c[|inputRoot|..])[|root|..] == c[|inputRoot|..];
    }
  }

  /** Every result of the function, written out as a relative path, parses to itself. */
  ghost predicate Reparses(root: seq<string>, inputRoot: seq<string>)
  {
    forall raw :: RelativeParts(root, inputRoot, raw).Some? ==>
      RelativeParts(root, inputRoot, PathOf(RelativeParts(root, inputRoot, raw).value))
        == RelativeParts(root, inputRoot, raw)
  }

  /** Parsing is idempotent exactly when the two roots are compatible. With a data root
      that links to one of its own ancestors, say, a relative path is moved twice. */
  lemma ReparsesExactlyWhenCompatible(root: seq<string>, inputRoot: seq<string>)
    requires Components(root) && Components(inputRoot)
    ensures Reparses(root, inputRoot) <==> Compatible(root, inputRoot)
  {
    if Compatible(root, inputRoot) {
      forall raw | RelativeParts(root, inputRoot, raw).Some?
        ensures RelativeParts(root, inputRoot, PathOf(RelativeParts(root, inputRoot, raw).value))
             == RelativeParts(root, inputRoot, raw)
      {
        PartsAreComponents(root, inputRoot, raw);
        SpellingsAgree(root, inputRoot, RelativeParts(root, inputRoot, raw).value);
      }
    } else {
      NotReparsed(root, inputRoot);
    }
  }

  lemma ReparseOf(root: seq<string>, inputRoot: seq<string>, parts: seq<string>)
    requires Components(root) && Components(inputRoot) && Components(parts)
    ensures RelativeParts(root, inputRoot, AbsolutePath(inputRoot + parts)) == Some(parts)
    ensures RelativeParts(root, inputRoot, PathOf(parts)) == Place(root, inputRoot, root + parts)
  {
    hide Candidate, PathOf, AbsolutePath, Place;
    CandidateOfParts(root, inputRoot + parts);
    CandidateOfParts(root, parts);
    PlaceBelow(root, inputRoot, parts);
  }

  lemma NotReparsed(root: seq<string>, inputRoot: seq<string>)
    requires Components(root) && Components(inputRoot) && !Compatible(root, inputRoot)
    ensures !Reparses(root, inputRoot)
  {
    hide PathOf, AbsolutePath, RelativeParts, Place;
    var parts := if inputRoot <= root then ["x"] else inputRoot[|root|..];
    assert Components(parts);
    ReparseOf(root, inputRoot, parts);
    var more := if inputRoot <= root then root[|inputRoot|..] + parts else [];
    assert root + parts == inputRoot + more;
    PlaceBelow(root, inputRoot, more);
    assert |more| != |parts|;
    assert RelativeParts(root, inputRoot, AbsolutePath(inputRoot + parts)).Some?;
  }

  function StripRight(s: string, c: char): string
  {
    if s != "" && s[|s| - 1] == c then StripRight(s[..|s| - 1], c) else s
  }

  /** The path a page reopens for a frame's directory. */
  function PagePath(raw: string, relative: string): string
  {
    if relative == "" then raw else StripRight(raw, '/') + "/" + relative
  }

  lemma {:induction false} StripCollapse(at: seq<string>, raw: string)
    ensures Collapse(at, Split(StripRight(raw, '/'), '/')) == Collapse(at, Split(raw, '/'))
    decreases |raw|
  {
    if raw != "" && raw[|raw| - 1] == '/' {
      var init := raw[..|raw| - 1];
      StripCollapse(at, init);
      SplitAppend(init, "", '/');
      assert raw == init + ['/'] + "";
      SplitWhole("", '/');
      CollapseAppend(at, Split(init, '/'), [""]);
    }
  }

  lemma {:induction false} StripKeepsFirst(raw: string)
    ensures StripRight(raw, '/') <= raw && forall i | |StripRight(raw, '/')| <= i < |raw| :: raw[i] == '/'
    ensures StripRight(raw, '/') != "" ==> StripRight(raw, '/')[|StripRight(raw, '/')| - 1] != '/'
    ensures StripRight(raw, '/') == "" && raw != "" ==> raw[0] == '/'
    decreases |raw|
  {
    if raw != "" && raw[|raw| - 1] == '/' {
      StripKeepsFirst(raw[..|raw| - 1]);
    }
  }

  /** Names that stay below the directory they start from. */
  predicate Harmless(names: seq<string>)
  {
    forall i | 0 <= i < |names| :: '/' !in names[i] && names[i] != ".."
  }

  /** The names that are not dropped when a path is normalised. */
  function Normal(names: seq<string>): seq<string>
  {
    if names == [] then []
    else
      var init, last := Normal(names[..|names| - 1]), names[|names| - 1];
      if last == "" || last == "." then init else init + [last]
  }

  lemma {:induction false} NormalOfComponents(names: seq<string>)
    requires Components(names)
    ensures Normal(names) == names
    decreases |names|
  {
    if names == [] {
    } else {
      NormalOfComponents(names[..|names| - 1]);
      assert Component(names[|names| - 1]);
      assert names == names[..|names| - 1] + [names[|names| - 1]];
    }
  }

  lemma {:induction false} EmptyPath(names: seq<string>)
    requires PathOf(names) == ""
    ensures Normal(names) == [] && forall i | 0 <= i < |names| :: names[i] == ""
    decreases |names|
  {
    if names == [] {
    } else {
      EmptyPath(names[..|names| - 1]);
    }
  }

  lemma {:induction false} CollapsePathOf(at: seq<string>, names: seq<string>)
    requires Harmless(names)
    ensures Collapse(at, Split(PathOf(names), '/')) == at + Normal(names)
    decreases |names|
  {
    SplitWhole("", '/');
    assert [""][1..] == [] && at + [] == at;
    if names == [] {
    } else {
      var init, last := names[..|names| - 1], names[|names| - 1];
      SplitWhole(last, '/');
      assert [last][1..] == [];
      if PathOf(init) == "" {
        EmptyPath(init);
      } else {
        CollapsePathOf(at, init);
        SplitAppend(PathOf(init), last, '/');
        assert PathOf(names) == PathOf(init) + ['/'] + last;
        CollapseAppend(at, Split(PathOf(init), '/'), [last]);
        assert at + Normal(init) + [last] == at + (Normal(init) + [last]);
      }
    }
  }

  lemma {:induction false} NormalIsClean(names: seq<string>)
    requires Harmless(names)
    ensures Components(Normal(names))
    decreases |names|
  {
    if names == [] {
    } else {
      NormalIsClean(names[..|names| - 1]);
    }
  }

  /** An empty `raw` names the data root, but the page path for what lies below it then
      starts with '/', and reaches it only where the data root is '/' itself. */
  lemma EmptyRawReopensOnlyAtTop(root: seq<string>, inputRoot: seq<string>, names: seq<string>)
    requires Components(root) && Components(inputRoot) && Components(names) && Compatible(root, inputRoot)
    requires names != []
    ensures RelativeParts(root, inputRoot, "") == Some([])
    ensures RelativeParts(root, inputRoot, PagePath("", PathOf(names))) == Some(names) <==> root == []
  {
    SpellingsAgree(root, inputRoot, []);
    SplitPathOf(names);
    CandidateOfParts(root, names);
    PlacedWhole(root, inputRoot, names);
    hide Candidate, Place, Component, Collapse, Split;
    assert PagePath("", PathOf(names)) == AbsolutePath(names);
  }

  lemma PlacedWhole(root: seq<string>, inputRoot: seq<string>, names: seq<string>)
    requires Compatible(root, inputRoot)
    ensures Place(root, inputRoot, names) == Some(names) <==> root == []
  {
    if root == [] {
      assert inputRoot == [] && [] + names[0..] == names;
    } else if inputRoot <= names {
      assert |names[|inputRoot|..]| < |names|;
      assert (root + names[|inputRoot|..])[|root|..] == names[|inputRoot|..];
    }
  }

  /** Reopening a frame reaches the listed directory's components followed by the
      frame's own, for every spelling but the empty one. */
  lemma PagePathParts(root: seq<string>, inputRoot: seq<string>, raw: string, names: seq<string>)
    requires Components(root) && Components(inputRoot) && Harmless(names)
    requires Compatible(root, inputRoot)
    requires raw != "" && RelativeParts(root, inputRoot, raw).Some?
    ensures RelativeParts(root, inputRoot, PagePath(raw, PathOf(names)))
         == Some(RelativeParts(root, inputRoot, raw).value + Normal(names))
  {
    var base := RelativeParts(root, inputRoot, raw).value;
    if PathOf(names) == "" {
      EmptyPath(names);
      assert base + [] == base;
    } else {
      StripKeepsFirst(raw);
      var stripped := StripRight(raw, '/');
      var path := PagePath(raw, PathOf(names));
      assert path == stripped + ['/'] + PathOf(names);
      SplitAppend(stripped, PathOf(names), '/');
      var at := if IsAbsolute(raw) then [] else root;
      assert IsAbsolute(path) == IsAbsolute(raw);
      CollapseAppend(at, Split(stripped, '/'), Split(PathOf(names), '/'));
      StripCollapse(at, raw);
      CollapsePathOf(Candidate(root, raw), names);
      PlaceExtends(root, inputRoot, Candidate(root, raw), Normal(names));
    }
  }
}
