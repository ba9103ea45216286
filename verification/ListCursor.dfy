/** The cursor a listing hands to its client and takes back: a stack of frames,
    encoded as JSON and validated on return (`_validate_list_cursor`). */
module ListCursor {
  import opened Text
  import opened Paths
  import opened DirWalk

  datatype Json =
    | JNull
    | JBool(flag: bool)
    | JNumber(number: real)
    | JString(text: string)
    | JList(items: seq<Json>)
    | JObject(fields: map<string, Json>)

  datatype Frame = Frame(path: string, after: string)

  function Afters(frames: seq<Frame>): (names: seq<string>)
    ensures |names| == |frames| && forall i | 0 <= i < |frames| :: names[i] == frames[i].after
  {
    seq(|frames|, i requires 0 <= i < |frames| => frames[i].after)
  }

  function FrameJson(frame: Frame): Json
  {
    JObject(map["path" := JString(frame.path), "after" := JString(frame.after)])
  }

  /** The `next_cursor` object built from a stack. */
  function EncodeCursor(frames: seq<Frame>): Json
  {
    JObject(map["version" := JNumber(1.0),
                "stack" := JList(seq(|frames|, i requires 0 <= i < |frames| => FrameJson(frames[i])))])
  }

  /** Python's `== 1` on a JSON value: true counts as 1. */
  predicate IsOne(j: Json)
  {
    j == JNumber(1.0) || j == JBool(true)
  }

  /** The number Python takes a JSON value for. */
  function Numeric(j: Json): Option<real>
  {
    match j
    case JNumber(number) => Some(number)
    case JBool(flag) => Some(if flag then 1.0 else 0.0)
    case _ => None
  }

  lemma OneIsNumeric(j: Json)
    ensures IsOne(j) <==> Numeric(j) == Some(1.0)
  {}

  predicate ReadsAs(item: Json, frame: Frame)
  {
    && item.JObject?
    && "path" in item.fields && item.fields["path"] == JString(frame.path)
    && "after" in item.fields && item.fields["after"] == JString(frame.after)
  }

  /** `cursor` is a version 1 object whose stack spells out `frames`. */
  ghost predicate Denotes(cursor: Json, frames: seq<Frame>)
  {
    && cursor.JObject?
    && "version" in cursor.fields && IsOne(cursor.fields["version"])
    && "stack" in cursor.fields && cursor.fields["stack"].JList?
    && var items := cursor.fields["stack"].items;
    && |items| == |frames|
    && forall i | 0 <= i < |frames| :: ReadsAs(items[i], frames[i])
  }

  lemma EncodeDenotes(frames: seq<Frame>)
    ensures Denotes(EncodeCursor(frames), frames)
  {}

  /** The stacks a client may hand back: every frame's path spells the names its
      ancestors stand at, no name holds a slash or NUL, none but the last is `..`. */
  ghost predicate Accepted(frames: seq<Frame>)
  {
    && 1 <= |frames| <= MAX_DEPTH
    && forall i | 0 <= i < |frames| :: Linked(frames, i)
  }

  ghost predicate Linked(frames: seq<Frame>, i: nat)
    requires i < |frames|
  {
    && frames[i].path == PathOf(Afters(frames)[..i])
    && '/' !in frames[i].after && '\0' !in frames[i].after
    && (i < |frames| - 1 ==> frames[i].after != "..")
  }

  function Expected(frames: seq<Frame>, i: nat): string
    requires i <= |frames|
  {
    if i == 0 then ""
    else if frames[i - 1].path != "" then frames[i - 1].path + "/" + frames[i - 1].after
    else frames[i - 1].after
  }

  /** `pathlib`'s reading of a frame path: relative, and never `..`. */
  predicate PathAllowed(path: string)
  {
    path != "" ==> !IsAbsolute(path) && ".." !in Split(path, '/')
  }

  predicate FrameAllowed(frames: seq<Frame>, i: nat)
    requires i < |frames|
  {
    && PathAllowed(frames[i].path)
    && '/' !in frames[i].after && '\0' !in frames[i].after
    && frames[i].path == Expected(frames, i)
  }

  lemma {:induction false} PathOfNames(names: seq<string>)
    requires forall i | 0 <= i < |names| :: '/' !in names[i]
    ensures !IsAbsolute(PathOf(names))
    ensures PathAllowed(PathOf(names)) <==> ".." !in names
    decreases |names|
  {
    if names == [] {
    } else {
      var init, last := names[..|names| - 1], names[|names| - 1];
      PathOfNames(init);
      assert names == init + [last];
      SplitWhole(last, '/');
      if PathOf(init) != "" {
        SplitAppend(PathOf(init), last, '/');
        assert PathOf(names) == PathOf(init) + ['/'] + last;
      }
    }
  }

  lemma {:induction false} ExpectedIsChain(frames: seq<Frame>, i: nat)
    requires i < |frames| && forall k {:trigger FrameAllowed(frames, k)} | 0 <= k <= i :: FrameAllowed(frames, k)
    ensures frames[i].path == PathOf(Afters(frames)[..i])
    decreases i
  {
    assert FrameAllowed(frames, i);
    if i > 0 {
      ExpectedIsChain(frames, i - 1);
      assert Afters(frames)[..i][..i - 1] == Afters(frames)[..i - 1];
    }
  }

  lemma AllowedOnlyAccepted(frames: seq<Frame>)
    requires 1 <= |frames| <= MAX_DEPTH
    requires forall i {:trigger FrameAllowed(frames, i)} | 0 <= i < |frames| :: FrameAllowed(frames, i)
    ensures Accepted(frames)
  {
    var names := Afters(frames)[..|frames| - 1];
    forall i | 0 <= i < |names| ensures '/' !in names[i] {
      assert FrameAllowed(frames, i);
    }
    ExpectedIsChain(frames, |frames| - 1);
    PathOfNames(names);
    assert FrameAllowed(frames, |frames| - 1);
    forall i | 0 <= i < |frames| ensures Linked(frames, i) {
      assert FrameAllowed(frames, i);
      ExpectedIsChain(frames, i);
      assert i < |names| ==> names[i] == frames[i].after;
    }
  }

  lemma AcceptedAllowed(frames: seq<Frame>, i: nat)
    requires Accepted(frames) && i < |frames|
    ensures FrameAllowed(frames, i)
  {
    var names := Afters(frames)[..i];
    forall k | 0 <= k < i ensures '/' !in names[k] && names[k] != ".." {
      assert Linked(frames, k);
    }
    PathOfNames(names);
    assert Linked(frames, i);
    if i > 0 {
      assert Linked(frames, i - 1);
      assert names[..i - 1] == Afters(frames)[..i - 1];
    }
  }

  /** The validator's frame-by-frame tests amount to Accepted. */
  lemma AllowedIsAccepted(frames: seq<Frame>)
    requires 1 <= |frames| <= MAX_DEPTH
    ensures (forall i {:trigger FrameAllowed(frames, i)} | 0 <= i < |frames| :: FrameAllowed(frames,
          i)) <==> Accepted(frames)
  {
    if forall i {:trigger FrameAllowed(frames, i)} | 0 <= i < |frames| :: FrameAllowed(frames, i) {
      AllowedOnlyAccepted(frames);
    }
    if Accepted(frames) {
      forall i | 0 <= i < |frames| ensures FrameAllowed(frames, i) {
        AcceptedAllowed(frames, i);
      }
    }
  }

  lemma DenotesOne(cursor: Json, a: seq<Frame>, b: seq<Frame>)
    requires Denotes(cursor, a) && Denotes(cursor, b)
    ensures a == b
  {
    forall i | 0 <= i < |a| ensures a[i] == b[i] {
      assert ReadsAs(cursor.fields["stack"].items[i], a[i]) && ReadsAs(cursor.fields["stack"].items[i], b[i]);
    }
  }

  /** The validator accepts exactly the cursors that spell out an Accepted stack,
      and returns that stack. */
  method ValidateCursor(cursor: Json) returns (r: Option<seq<Frame>>)
    ensures r.Some? ==> Denotes(cursor, r.value) && Accepted(r.value)
    ensures r.None? ==> forall frames | Denotes(cursor, frames) :: !Accepted(frames)
  {
    hide Accepted, FrameAllowed;
    if !cursor.JObject? || "version" !in cursor.fields || !IsOne(cursor.fields["version"]) {
      return None;
    }
    if "stack" !in cursor.fields || !cursor.fields["stack"].JList? {
      return None;
    }
    var raw := cursor.fields["stack"].items;
    if !(1 <= |raw| <= MAX_DEPTH) {
      forall frames | Denotes(cursor, frames) ensures !Accepted(frames) {
        if Accepted(frames) {
          SizeOfAccepted(cursor, frames);
        }
      }
      return None;
    }
    var stack: seq<Frame> := [];
    for index := 0 to |raw|
      invariant |stack| == index
      invariant forall i | 0 <= i < index :: ReadsAs(raw[i], stack[i]) && FrameAllowed(stack, i)
    {
      var item := raw[index];
      if !item.JObject? || "path" !in item.fields || "after" !in item.fields
         || !item.fields["path"].JString? || !item.fields["after"].JString? {
        return None;
      }
      var frame := Frame(item.fields["path"].text, item.fields["after"].text);
      forall i | 0 <= i < index ensures FrameAllowed(stack + [frame], i) {
        AllowedExtends(stack, frame, i);
      }
      stack := stack + [frame];
      if !FrameAllowed(stack, index) {
        forall frames | Denotes(cursor, frames) ensures !Accepted(frames) {
          Refused(cursor, frames, stack, index);
        }
        return None;
      }
    }
    AllowedIsAccepted(stack);
    return Some(stack);
  }

  lemma AllowedExtends(stack: seq<Frame>, frame: Frame, i: nat)
    requires i < |stack| && FrameAllowed(stack, i)
    ensures FrameAllowed(stack + [frame], i)
  {}

  lemma SizeOfAccepted(cursor: Json, frames: seq<Frame>)
    requires Denotes(cursor, frames) && Accepted(frames)
    ensures 1 <= |cursor.fields["stack"].items| <= MAX_DEPTH
  {}

  lemma Refused(cursor: Json, frames: seq<Frame>, stack: seq<Frame>, index: nat)
    requires Denotes(cursor, frames) && index < |frames| && |stack| == index + 1
    requires forall i | 0 <= i <= index :: ReadsAs(cursor.fields["stack"].items[i], stack[i])
    requires !FrameAllowed(stack, index)
    ensures !Accepted(frames)
  {
    forall i | 0 <= i <= index ensures frames[i] == stack[i] {
      assert ReadsAs(cursor.fields["stack"].items[i], frames[i]);
    }
    assert !FrameAllowed(frames, index);
    if 1 <= |frames| <= MAX_DEPTH {
      AllowedIsAccepted(frames);
    }
  }

  lemma TopFrame(frames: seq<Frame>)
    requires Accepted(frames)
    ensures 1 <= |frames| <= MAX_DEPTH && Harmless(Afters(frames)[..|frames| - 1])
    ensures frames[|frames| - 1].path == PathOf(Afters(frames)[..|frames| - 1])
    ensures EntryPath(frames[|frames| - 1]) == PathOf(Afters(frames))
  {
    assert Linked(frames, |frames| - 1);
    forall i | 0 <= i < |frames| - 1 ensures '/' !in frames[i].after && frames[i].after != ".." {
      assert Linked(frames, i);
    }
  }

  /** Moving the top frame on keeps a stack acceptable. */
  lemma AdvanceAccepted(frames: seq<Frame>, name: string)
    requires Accepted(frames) && EntryName(name)
    ensures Accepted(Advanced(frames, name))
    ensures Afters(Advanced(frames, name)) == Afters(frames)[..|frames| - 1] + [name]
  {
    var next := Advanced(frames, name);
    forall i | 0 <= i < |next| ensures Linked(next, i) {
      assert Linked(frames, i);
      assert next[i].path == frames[i].path;
      assert Afters(next)[..i] == Afters(frames)[..i];
    }
  }

  /** Pushing a frame for the directory the top frame stands at keeps it acceptable. */
  lemma PushAccepted(frames: seq<Frame>)
    requires Accepted(frames) && |frames| < MAX_DEPTH && EntryName(frames[|frames| - 1].after)
    ensures Accepted(Pushed(frames))
    ensures Afters(Pushed(frames)) == Afters(frames) + [""]
  {
    var pushed := Pushed(frames);
    TopFrame(frames);
    forall i | 0 <= i < |pushed| ensures Linked(pushed, i) {
      if i < |frames| {
        assert Linked(frames, i);
        assert pushed[i] == frames[i];
        assert Afters(pushed)[..i] == Afters(frames)[..i];
      } else {
        assert Afters(pushed)[..i] == Afters(frames);
      }
    }
  }

  /** Dropping the top frame keeps a stack acceptable or empties it. */
  lemma PopAccepted(frames: seq<Frame>)
    requires Accepted(frames)
    ensures |frames| > 1 ==> Accepted(frames[..|frames| - 1])
    ensures Afters(frames[..|frames| - 1]) == Afters(frames)[..|frames| - 1]
  {
    var popped := frames[..|frames| - 1];
    forall i | 0 <= i < |popped| ensures Linked(popped, i) {
      assert Linked(frames, i);
      assert popped[i] == frames[i];
      assert Afters(popped)[..i] == Afters(frames)[..i];
    }
  }

  /** `frame["after"] = name` on the top frame. */
  function Advanced(frames: seq<Frame>, name: string): seq<Frame>
    requires frames != []
  {
    frames[..|frames| - 1] + [frames[|frames| - 1].(after := name)]
  }

  function EntryPath(frame: Frame): string
  {
    if frame.path != "" then frame.path + "/" + frame.after else frame.after
  }

  /** A fresh frame for the directory the top frame stands at. */
  function Pushed(frames: seq<Frame>): seq<Frame>
    requires frames != []
  {
    frames + [Frame(EntryPath(frames[|frames| - 1]), "")]
  }
}
