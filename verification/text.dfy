/** String joining and splitting with the semantics of Python's
    `sep.join(parts)` and `s.split(sep)` for a non-empty separator. */
module Text {

  import opened Wrappers

  /** `sep` occurs in `s` starting at index `i`. */
  predicate OccursAt(s: string, sep: string, i: nat) {
    i + |sep| <= |s| && s[i..i + |sep|] == sep
  }

  /** `sep in s`. */
  predicate Contains(s: string, sep: string) {
    exists i: nat :: i <= |s| && OccursAt(s, sep, i)
  }

  /** No proper prefix of `sep` is also a suffix of it, so two occurrences
      of `sep` can never overlap (", " and "\n" are unbordered). */
  ghost predicate Unbordered(sep: string) {
    forall k :: 0 < k < |sep| ==> sep[..k] != sep[|sep| - k..]
  }

  /** `sep.join(parts)`. */
  function Join(parts: seq<string>, sep: string): string {
    if |parts| == 0 then ""
    else if |parts| == 1 then parts[0]
    else parts[0] + sep + Join(parts[1..], sep)
  }

  /** Leftmost occurrence of `sep` in `s` at or after `from`. */
  function FindFrom(s: string, sep: string, from: nat): (r: Option<nat>)
    requires |sep| > 0
    ensures r.Some? ==> from <= r.value && OccursAt(s, sep, r.value)
    ensures r.Some? ==> forall j: nat :: from <= j < r.value ==> !OccursAt(s, sep, j)
    ensures r.None? ==> forall j: nat :: from <= j ==> !OccursAt(s, sep, j)
    decreases |s| - from
  {
    if from + |sep| > |s| then None
    else if s[from..from + |sep|] == sep then Some(from)
    else FindFrom(s, sep, from + 1)
  }

  /** `s.split(sep)`: cut at every occurrence of `sep`, scanning from the left. */
  function Split(s: string, sep: string): (r: seq<string>)
    requires |sep| > 0
    ensures |r| >= 1
    decreases |s|
  {
    match FindFrom(s, sep, 0)
    case None => [s]
    case Some(i) => [s[..i]] + Split(s[i + |sep|..], sep)
  }

  /** An occurrence of `sep` straddling the end of `x` would make `sep` bordered. */
  lemma {:induction false} FirstOccurrenceAfter(x: string, sep: string, rest: string)
    requires |sep| > 0 && Unbordered(sep) && !Contains(x, sep)
    ensures FindFrom(x + sep + rest, sep, 0) == Some(|x|)
  {
    var s := x + sep + rest;
    assert OccursAt(s, sep, |x|) by {
      assert s[|x|..|x| + |sep|] == sep;
    }
    forall j: nat | j < |x|
      ensures !OccursAt(s, sep, j)
    {
      if j + |sep| <= |x| {
        assert s[j..j + |sep|] == x[j..j + |sep|];
        assert !OccursAt(x, sep, j);
      } else {
        var k := j + |sep| - |x|;
        assert sep[..k] != sep[|sep| - k..];
        assert j + |sep| <= |s|;
        assert s[j..j + |sep|][|sep| - k..] == s[|x|..j + |sep|] == sep[..k];
      }
    }
  }

  lemma NoOccurrence(x: string, sep: string)
    requires |sep| > 0 && !Contains(x, sep)
    ensures Split(x, sep) == [x]
  {
  }

  /** Splitting what was joined gives the parts back, provided there is at
      least one part and no part contains the separator. */
  lemma {:induction false} SplitJoin(parts: seq<string>, sep: string)
    requires |sep| > 0 && Unbordered(sep) && |parts| > 0
    requires forall i :: 0 <= i < |parts| ==> !Contains(parts[i], sep)
    ensures Split(Join(parts, sep), sep) == parts
    decreases |parts|
  {
    if |parts| == 1 {
      NoOccurrence(parts[0], sep);
    } else {
      var rest := Join(parts[1..], sep);
      FirstOccurrenceAfter(parts[0], sep, rest);
      var s := parts[0] + sep + rest;
      assert s[..|parts[0]|] == parts[0];
      assert s[|parts[0]| + |sep|..] == rest;
      SplitJoin(parts[1..], sep);
      assert [parts[0]] + parts[1..] == parts;
    }
  }

  /** An empty list joins to "" and comes back as one empty item. */
  lemma SplitJoinEmpty(sep: string)
    requires |sep| > 0
    ensures Split(Join([], sep), sep) == [""]
  {
    assert !OccursAt("", sep, 0);
  }

  /** A single-character separator occurs exactly where its character does. */
  lemma NoCharNoContains(x: string, c: char)
    requires c !in x
    ensures !Contains(x, [c])
  {
    forall i: nat | i <= |x|
      ensures !OccursAt(x, [c], i)
    {
      if i + 1 <= |x| {
        assert x[i..i + 1][0] == x[i];
      }
    }
  }

  /** Joining introduces no character that neither the parts nor the
      separator have. */
  lemma {:induction false} JoinChars(parts: seq<string>, sep: string, c: char)
    requires c !in sep && forall k :: 0 <= k < |parts| ==> c !in parts[k]
    ensures c !in Join(parts, sep)
    decreases |parts|
  {
    if |parts| > 1 {
      JoinChars(parts[1..], sep, c);
    }
  }

  /** A string without the separator's first character does not contain it. */
  lemma NoFirstCharNoContains(x: string, sep: string)
    requires |sep| > 0 && sep[0] !in x
    ensures !Contains(x, sep)
  {
    forall i: nat | i <= |x|
      ensures !OccursAt(x, sep, i)
    {
      if i + |sep| <= |x| {
        assert x[i..i + |sep|][0] == x[i];
      }
    }
  }

  lemma JoinCons(a: string, tail: seq<string>, sep: string)
    requires |tail| > 0
    ensures Join([a] + tail, sep) == a + sep + Join(tail, sep)
  {
    assert ([a] + tail)[1..] == tail;
  }

  /** Joining what was split gives the string back, whatever it holds. */
  lemma {:induction false} JoinSplit(s: string, sep: string)
    requires |sep| > 0
    ensures Join(Split(s, sep), sep) == s
    decreases |s|
  {
    var f := FindFrom(s, sep, 0);
    if f.Some? {
      var i := f.value;
      var rest := s[i + |sep|..];
      assert Split(s, sep) == [s[..i]] + Split(rest, sep);
      JoinSplit(rest, sep);
      JoinCons(s[..i], Split(rest, sep), sep);
      assert s[i..i + |sep|] == sep;
      assert s == s[..i] + s[i..i + |sep|] + rest;
    } else {
      assert Split(s, sep) == [s];
    }
  }

  /** No item `split` returns contains the separator. */
  lemma {:induction false} SplitPartsFree(s: string, sep: string)
    requires |sep| > 0
    ensures forall k :: 0 <= k < |Split(s, sep)| ==> !Contains(Split(s, sep)[k], sep)
    decreases |s|
  {
    match FindFrom(s, sep, 0)
    case None =>
    case Some(i) =>
      var rest := s[i + |sep|..];
      SplitPartsFree(rest, sep);
      forall j: nat | j <= i
        ensures !OccursAt(s[..i], sep, j)
      {
        if j + |sep| <= i {
          assert !OccursAt(s, sep, j);
          assert s[..i][j..j + |sep|] == s[j..j + |sep|];
        }
      }
  }
}
