/** The string operations of Go's `strings` and `regexp` packages that the
    core relies on, over strings whose characters stand for bytes. */
module Text {
  import opened Base

  /** `sub` occurs in `s` starting at index `i`. */
  predicate OccursAt(s: string, sub: string, i: int) {
    0 <= i && i + |sub| <= |s| && s[i..i + |sub|] == sub
  }

  /** `strings.Contains(s, sub)`. */
  predicate Contains(s: string, sub: string) {
    exists i | 0 <= i <= |s| - |sub| :: OccursAt(s, sub, i)
  }

  lemma OccursInSuffix(a: string, b: string, sub: string, i: int)
    requires OccursAt(b, sub, i)
    ensures OccursAt(a + b, sub, |a| + i)
  {
    assert (a + b)[|a| + i..|a| + i + |sub|] == b[i..i + |sub|];
  }

  lemma OccursInPrefix(a: string, b: string, sub: string, i: int)
    requires OccursAt(a, sub, i)
    ensures OccursAt(a + b, sub, i)
  {
    assert (a + b)[i..i + |sub|] == a[i..i + |sub|];
  }

  /** The index of the first character of `s` that is in `cs`, if any. */
  function FirstIndexIn(s: string, cs: set<char>): (r: Option<nat>)
    ensures r.Some? ==> r.value < |s| && s[r.value] in cs
    ensures r.Some? ==> forall i :: 0 <= i < r.value ==> s[i] !in cs
    ensures r.None? ==> forall i :: 0 <= i < |s| ==> s[i] !in cs
  {
    if s == [] then None
    else if s[0] in cs then Some(0)
    else match FirstIndexIn(s[1..], cs)
      case None => None
      case Some(k) => Some(k + 1)
  }

  /** In `a + [c] + b` where `a` holds no character of `cs`, the first
      character in `cs` is the `c` right after `a`. */
  lemma FirstIndexAfter(a: string, c: char, b: string, cs: set<char>)
    requires c in cs
    requires forall i :: 0 <= i < |a| ==> a[i] !in cs
    ensures FirstIndexIn(a + [c] + b, cs) == Some(|a|)
    ensures (a + [c] + b)[..|a|] == a && (a + [c] + b)[|a| + 1..] == b
  {
    var s := a + [c] + b;
    assert s[|a|] == c;
  }

  /** Splitting `s` at every character of `cs`, dropping those characters:
      `regexp.Split(s, -1)` for a one-character alternation, and
      `strings.Split(s, sep)` for a one-character `sep`. */
  function SplitAt(s: string, cs: set<char>): (r: seq<string>)
    ensures |r| >= 1
    decreases |s|
  {
    match FirstIndexIn(s, cs)
    case None => [s]
    case Some(p) =>
      [s[..p]] + SplitAt(s[p + 1..], cs)
  }

  /** The split has a single piece iff `s` holds no separator, and no
      piece holds a separator. */
  lemma {:induction false} SplitPieces(s: string, cs: set<char>)
    ensures |SplitAt(s, cs)| == 1 <==> forall i :: 0 <= i < |s| ==> s[i] !in cs
    ensures forall k, i :: 0 <= k < |SplitAt(s, cs)| && 0 <= i < |SplitAt(s, cs)[k]| ==> SplitAt(s, cs)[k][i] !in cs
    decreases |s|
  {
    match FirstIndexIn(s, cs)
    case None =>
    case Some(p) =>
      var rest := SplitAt(s[p + 1..], cs);
      SplitPieces(s[p + 1..], cs);
      var r := [s[..p]] + rest;
      assert SplitAt(s, cs) == r;
      forall k, i | 0 <= k < |r| && 0 <= i < |r[k]| ensures r[k][i] !in cs {
        if k > 0 {
          assert r[k] == rest[k - 1];
        }
      }
  }

  /** `p` is the one position of `s` holding a character of `cs`. */
  predicate SingleSeparatorAt(s: string, cs: set<char>, p: int) {
    && 0 <= p < |s|
    && s[p] in cs
    && forall i :: 0 <= i < |s| && i != p ==> s[i] !in cs
  }

  lemma SingleSeparatorUnique(s: string, cs: set<char>, p: int, q: int)
    requires SingleSeparatorAt(s, cs, p) && SingleSeparatorAt(s, cs, q)
    ensures p == q
  {
  }

  /** The split gives exactly two pieces iff exactly one character of `s`
      is a separator, and the pieces are then the text either side of it. */
  lemma {:induction false} SplitInTwo(s: string, cs: set<char>)
    ensures |SplitAt(s, cs)| == 2 <==> exists p :: SingleSeparatorAt(s, cs, p)
    ensures forall p :: SingleSeparatorAt(s, cs, p) ==> SplitAt(s, cs) == [s[..p], s[p + 1..]]
  {
    match FirstIndexIn(s, cs)
    case None =>
      assert |SplitAt(s, cs)| == 1;
      forall p | 0 <= p < |s| ensures !SingleSeparatorAt(s, cs, p) {
        assert s[p] !in cs;
      }
    case Some(p) =>
      var rest := s[p + 1..];
      assert SplitAt(s, cs) == [s[..p]] + SplitAt(rest, cs);
      if FirstIndexIn(rest, cs).None? {
        assert SplitAt(rest, cs) == [rest];
        assert SingleSeparatorAt(s, cs, p) by {
          forall i | 0 <= i < |s| && i != p ensures s[i] !in cs {
            if i > p { assert s[i] == rest[i - p - 1]; }
          }
        }
        forall q | SingleSeparatorAt(s, cs, q) ensures SplitAt(s, cs) == [s[..q], s[q + 1..]] {
          SingleSeparatorUnique(s, cs, p, q);
        }
      } else {
        var k := FirstIndexIn(rest, cs).value;
        assert |SplitAt(rest, cs)| >= 2;
        assert s[p + 1 + k] == rest[k];
        forall q | 0 <= q < |s| ensures !SingleSeparatorAt(s, cs, q) {
          assert s[p] in cs && s[p + 1 + k] in cs;
        }
      }
  }

  /** `strings.Join(parts, sep)`. */
  function Join(parts: seq<string>, sep: string): string
  {
    if parts == [] then ""
    else if |parts| == 1 then parts[0]
    else parts[0] + sep + Join(parts[1..], sep)
  }

  /** Every joined part occurs in the joined string. */
  lemma {:induction false} JoinContainsEach(parts: seq<string>, sep: string, k: int)
    requires 0 <= k < |parts|
    ensures Contains(Join(parts, sep), parts[k])
  {
    var j := Join(parts, sep);
    if |parts| == 1 {
      assert OccursAt(j, parts[0], 0);
    } else if k == 0 {
      OccursInPrefix(parts[0], sep + Join(parts[1..], sep), parts[0], 0);
      assert j == parts[0] + (sep + Join(parts[1..], sep));
      assert OccursAt(j, parts[0], 0);
    } else {
      JoinContainsEach(parts[1..], sep, k - 1);
      var i :| 0 <= i <= |Join(parts[1..], sep)| - |parts[k]| && OccursAt(Join(parts[1..], sep), parts[k], i);
      OccursInSuffix(parts[0] + sep, Join(parts[1..], sep), parts[k], i);
      assert j == (parts[0] + sep) + Join(parts[1..], sep);
      assert OccursAt(j, parts[k], |parts[0] + sep| + i);
    }
  }

  /** Splitting at the one-character separator undoes the join, provided no
      part contains the separator. */
  lemma {:induction false} SplitJoin(parts: seq<string>, c: char)
    requires parts != []
    requires forall k, i :: 0 <= k < |parts| && 0 <= i < |parts[k]| ==> parts[k][i] != c
    ensures SplitAt(Join(parts, [c]), {c}) == parts
  {
    if |parts| == 1 {
      assert FirstIndexIn(parts[0], {c}).None?;
    } else {
      var rest := Join(parts[1..], [c]);
      assert Join(parts, [c]) == parts[0] + [c] + rest;
      FirstIndexAfter(parts[0], c, rest, {c});
      SplitJoin(parts[1..], c);
      assert parts == [parts[0]] + parts[1..];
    }
  }

  /** Joining the pieces of a split at one character with that character
      gives the string back. */
  lemma {:induction false} JoinSplit(s: string, c: char)
    ensures Join(SplitAt(s, {c}), [c]) == s
    decreases |s|
  {
    var first := FirstIndexIn(s, {c});
    if first.None? {
      assert SplitAt(s, {c}) == [s];
    } else {
      var p := first.value;
      var tail := s[p + 1..];
      var rest := SplitAt(tail, {c});
      assert SplitAt(s, {c}) == [s[..p]] + rest;
      JoinSplit(tail, c);
      JoinCons(s[..p], rest, [c]);
      assert s[p] == c;
      assert s == s[..p] + [s[p]] + tail;
    }
  }

  lemma JoinCons(head: string, rest: seq<string>, sep: string)
    requires rest != []
    ensures Join([head] + rest, sep) == head + sep + Join(rest, sep)
  {
    assert ([head] + rest)[1..] == rest;
  }
}
