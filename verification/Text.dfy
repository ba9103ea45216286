/** Code-point order on strings, slash-separated names and substring search. */
module Text {

  datatype Option<+T> = None | Some(value: T)

  datatype Result<+T, +E> = Ok(value: T) | Err(error: E)

  /** Python's `a < b` on strings: code point by code point, a prefix first. */
  predicate Less(a: string, b: string)
  {
    if b == [] then false
    else if a == [] then true
    else a[0] < b[0] || (a[0] == b[0] && Less(a[1..], b[1..]))
  }

  predicate LowerAt(a: string, b: string, k: int)
  {
    0 <= k < |a| && k < |b| && a[..k] == b[..k] && a[k] < b[k]
  }

  /** The order decides at the first difference, and a prefix comes first. */
  lemma {:induction false} LessExactly(a: string, b: string)
    ensures Less(a, b) <==> a < b || exists k :: LowerAt(a, b, k)
    decreases |a|
  {
    if a != [] && b != [] && a[0] == b[0] {
      LessExactly(a[1..], b[1..]);
      assert a == [a[0]] + a[1..] && b == [b[0]] + b[1..];
      if k :| LowerAt(a, b, k) {
        assert a[1..][..k - 1] == a[..k][1..] && b[1..][..k - 1] == b[..k][1..];
        assert LowerAt(a[1..], b[1..], k - 1);
      }
      if k :| LowerAt(a[1..], b[1..], k) {
        assert a[..k + 1] == [a[0]] + a[1..][..k] && b[..k + 1] == [b[0]] + b[1..][..k];
        assert LowerAt(a, b, k + 1);
      }
    } else if a != [] && b != [] {
      assert a[..0] == b[..0];
      assert LowerAt(a, b, 0) <==> a[0] < b[0];
      assert forall k :: LowerAt(a, b, k) ==> k == 0 || a[..k][0] == b[..k][0];
    }
  }

  lemma {:induction false} LessIrreflexive(a: string)
    ensures !Less(a, a)
  {
    if a == [] {
    } else {
      LessIrreflexive(a[1..]);
    }
  }

  lemma {:induction false} LessTransitive(a: string, b: string, c: string)
    requires Less(a, b) && Less(b, c)
    ensures Less(a, c)
  {
    if a != [] && a[0] == b[0] && b[0] == c[0] {
      LessTransitive(a[1..], b[1..], c[1..]);
    }
  }

  lemma {:induction false} LessTotal(a: string, b: string)
    ensures Less(a, b) || a == b || Less(b, a)
  {
    if a != [] && b != [] && a[0] == b[0] {
      LessTotal(a[1..], b[1..]);
      assert a == [a[0]] + a[1..] && b == [b[0]] + b[1..];
    }
  }

  lemma LessAsymmetric(a: string, b: string)
    requires Less(a, b)
    ensures !Less(b, a) && a != b
  {
    LessIrreflexive(a);
    if Less(b, a) {
      LessTransitive(a, b, a);
    }
  }

  /** The index of the first `c` in `s`, or |s|. */
  function IndexOf(s: string, c: char): (i: nat)
    ensures i <= |s| && (i < |s| ==> s[i] == c)
    ensures forall k | 0 <= k < i :: s[k] != c
  {
    if s == [] || s[0] == c then 0 else IndexOf(s[1..], c) + 1
  }

  /** Python's `s.split(c)` for a one-character separator. */
  function Split(s: string, c: char): (parts: seq<string>)
    ensures |parts| >= 1
    ensures forall i | 0 <= i < |parts| :: c !in parts[i]
    decreases |s|
  {
    var i := IndexOf(s, c);
    if i == |s| then assert s[..i] == s; [s] else [s[..i]] + Split(s[i + 1..], c)
  }

  lemma SplitWhole(s: string, c: char)
    requires c !in s
    ensures Split(s, c) == [s]
  {
    forall k | 0 <= k < |s| ensures s[k] != c {
      assert s[k] in s;
    }
  }

  lemma SplitHead(a: string, b: string, c: char)
    requires c !in a
    ensures Split(a + [c] + b, c) == [a] + Split(b, c)
  {
    var s := a + [c] + b;
    var i := IndexOf(s, c);
    assert s[|a|] == c;
    assert forall k | 0 <= k < |a| :: s[k] == a[k] && a[k] in a;
    assert i == |a|;
    assert s[..i] == a && s[i + 1..] == b;
  }

  lemma {:induction false} SplitAppend(a: string, b: string, c: char)
    ensures Split(a + [c] + b, c) == Split(a, c) + Split(b, c)
    decreases |a|
  {
    hide Split, IndexOf;
    var i := IndexOf(a, c);
    if i == |a| {
      SplitHead(a, b, c);
      SplitWhole(a, c);
    } else {
      var x, y := a[..i], a[i + 1..];
      assert a == x + [c] + y;
      assert a + [c] + b == x + [c] + (y + [c] + b);
      SplitHead(x, y + [c] + b, c);
      SplitHead(x, y, c);
      SplitAppend(y, b, c);
      assert [x] + (Split(y, c) + Split(b, c)) == [x] + Split(y, c) + Split(b, c);
    }
  }

  /** Python's `p in s` on strings. */
  predicate Contains(p: string, s: string)
  {
    exists i | 0 <= i <= |s| :: OccursAt(p, s, i)
  }

  predicate OccursAt(p: string, s: string, i: int)
  {
    0 <= i && i + |p| <= |s| && s[i..i + |p|] == p
  }

  lemma OccursBeside(p: string, a: string, c: char, b: string, i: int)
    requires c !in p && p != [] && OccursAt(p, a + [c] + b, i)
    ensures Contains(p, a) || Contains(p, b)
  {
    var s := a + [c] + b;
    assert s[|a|] == c;
    assert forall k | 0 <= k < |p| :: s[i + k] == p[k] && p[k] in p;
    var k := |a| - i;
    assert !(0 <= k < |p|);
    if i + |p| <= |a| {
      assert s[i..i + |p|] == a[i..i + |p|];
      assert OccursAt(p, a, i);
    } else {
      assert s[i..i + |p|] == b[i - |a| - 1..i - |a| - 1 + |p|];
      assert OccursAt(p, b, i - |a| - 1);
    }
  }

  lemma ContainsWithin(p: string, a: string, m: string, b: string)
    requires Contains(p, m)
    ensures Contains(p, a + m + b)
  {
    var i :| 0 <= i <= |m| && OccursAt(p, m, i);
    assert (a + m + b)[i + |a|..i + |a| + |p|] == m[i..i + |p|];
    assert OccursAt(p, a + m + b, i + |a|);
  }

  /** An occurrence of a pattern cannot straddle a character it does not contain. */
  lemma ContainsAcross(p: string, a: string, c: char, b: string)
    requires c !in p && p != []
    ensures Contains(p, a + [c] + b) <==> Contains(p, a) || Contains(p, b)
  {
    var s := a + [c] + b;
    if Contains(p, s) {
      var i :| 0 <= i <= |s| && OccursAt(p, s, i);
      OccursBeside(p, a, c, b, i);
    }
    if Contains(p, a) {
      ContainsWithin(p, [], a, [c] + b);
      assert [] + a + ([c] + b) == s;
    }
    if Contains(p, b) {
      ContainsWithin(p, a + [c], b, []);
      assert a + [c] + b + [] == s;
    }
  }
}
