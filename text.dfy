/**
 * The few Python `str` operations the bot relies on, written out so that
 * their corner cases are explicit: `split` on one character (empty fields
 * kept), `find`/`split` on a multi-character separator, `in` for
 * substrings, `replace`, `ljust` and `rfind`.
 */
module Text {
  import opened Wrappers

  /** Number of occurrences of `c` in `s` (Python's `s.count(c)`). */
  function Count(s: string, c: char): nat
  {
    if |s| == 0 then 0 else (if s[0] == c then 1 else 0) + Count(s[1..], c)
  }

  /** A string has no `c` exactly when `Count` finds none. */
  lemma {:induction false} CountZero(s: string, c: char)
    ensures Count(s, c) == 0 <==> c !in s
  {
    if |s| > 0 {
      CountZero(s[1..], c);
      assert s == [s[0]] + s[1..];
    }
  }

  /**
   * Python's `s.split(c)`: the fields between the occurrences of `c`,
   * empty fields included, so there is always one more field than
   * separators.
   */
  function Split(s: string, c: char): (parts: seq<string>)
    ensures |parts| == Count(s, c) + 1
    ensures forall k :: 0 <= k < |parts| ==> c !in parts[k]
  {
    if |s| == 0 then [""]
    else
      var rest := Split(s[1..], c);
      if s[0] == c then [""] + rest
      else [[s[0]] + rest[0]] + rest[1..]
  }

  /** Python's `c.join(parts)` for a non-empty list of fields. */
  function Join(parts: seq<string>, c: char): string
    requires |parts| >= 1
  {
    if |parts| == 1 then parts[0] else parts[0] + [c] + Join(parts[1..], c)
  }

  /** Splitting at a separator and joining again gives the original string back. */
  lemma {:induction false} JoinSplit(s: string, c: char)
    ensures Join(Split(s, c), c) == s
  {
    if |s| > 0 {
      JoinSplit(s[1..], c);
      var rest := Split(s[1..], c);
      if s[0] == c {
        assert s == [c] + s[1..];
      } else if |rest| == 1 {
        assert s == [s[0]] + s[1..];
      } else {
        assert Join(rest, c) == rest[0] + [c] + Join(rest[1..], c);
        assert rest[1..][1..] == rest[2..];
        assert ([[s[0]] + rest[0]] + rest[1..])[1..] == rest[1..];
        assert s == [s[0]] + s[1..];
      }
    }
  }

  /** One step of `Split`: the fields of a string with a first character `x`. */
  lemma SplitCons(x: char, t: string, c: char)
    ensures x == c ==> Split([x] + t, c) == [""] + Split(t, c)
    ensures x != c ==> Split([x] + t, c) == [[x] + Split(t, c)[0]] + Split(t, c)[1..]
  {
    assert ([x] + t)[0] == x && ([x] + t)[1..] == t;
  }

  /** The fields of `a + [c] + b` are the fields of `a` followed by those of `b`. */
  lemma {:induction false} SplitAround(a: string, c: char, b: string)
    ensures Split(a + [c] + b, c) == Split(a, c) + Split(b, c)
  {
    if |a| == 0 {
      assert a + [c] + b == [c] + b;
      SplitCons(c, b, c);
    } else {
      var x, t := a[0], a[1..];
      assert a == [x] + t;
      SplitAround(t, c, b);
      SplitAroundStep(x, t, c, b);
    }
  }

  /** The inductive step of `SplitAround`: putting one character in front. */
  lemma SplitAroundStep(x: char, t: string, c: char, b: string)
    requires Split(t + [c] + b, c) == Split(t, c) + Split(b, c)
    ensures Split([x] + t + [c] + b, c) == Split([x] + t, c) + Split(b, c)
  {
    var u := t + [c] + b;
    assert [x] + t + [c] + b == [x] + u;
    SplitCons(x, u, c);
    SplitCons(x, t, c);
    FieldsAppend(x, c, Split(t, c), Split(b, c));
  }

  /** Sequence algebra behind `SplitAroundStep`, with the fields as plain values. */
  lemma FieldsAppend(x: char, c: char, rt: seq<string>, rb: seq<string>)
    requires |rt| >= 1
    ensures [""] + (rt + rb) == ([""] + rt) + rb
    ensures [[x] + (rt + rb)[0]] + (rt + rb)[1..] == ([[x] + rt[0]] + rt[1..]) + rb
  {
    assert (rt + rb)[1..] == rt[1..] + rb;
  }

  /** A string free of the separator is a single field. */
  lemma {:induction false} SplitWithout(s: string, c: char)
    requires c !in s
    ensures Split(s, c) == [s]
  {
    if |s| > 0 {
      assert c !in s[1..] by {
        forall k | 0 <= k < |s| - 1 ensures s[1..][k] != c { assert s[1..][k] == s[k + 1]; }
      }
      SplitWithout(s[1..], c);
      assert s == [s[0]] + s[1..];
    }
  }

  /** Joining separator-free fields and splitting again recovers the fields. */
  lemma {:induction false} SplitJoin(parts: seq<string>, c: char)
    requires |parts| >= 1
    requires forall k :: 0 <= k < |parts| ==> c !in parts[k]
    ensures Split(Join(parts, c), c) == parts
  {
    if |parts| == 1 {
      SplitWithout(parts[0], c);
    } else {
      SplitJoin(parts[1..], c);
      SplitAround(parts[0], c, Join(parts[1..], c));
      SplitWithout(parts[0], c);
      assert parts == [parts[0]] + parts[1..];
    }
  }

  /** No field of `Split(s, c)` holds a character that `s` does not hold. */
  lemma {:induction false} SplitKeepsOut(s: string, c: char, d: char)
    requires d !in s
    ensures forall k :: 0 <= k < |Split(s, c)| ==> d !in Split(s, c)[k]
  {
    if |s| > 0 {
      assert d !in s[1..] by {
        forall k | 0 <= k < |s| - 1 ensures s[1..][k] != d { assert s[1..][k] == s[k + 1]; }
      }
      SplitKeepsOut(s[1..], c, d);
    }
  }

  /** `pat` occurs in `s` starting at index `i`. */
  predicate OccursAt(s: string, pat: string, i: nat)
  {
    i + |pat| <= |s| && s[i..i + |pat|] == pat
  }

  lemma OccursAtShift(s: string, pat: string)
    requires |s| > 0
    ensures forall j: nat :: 1 <= j ==> OccursAt(s, pat, j) == OccursAt(s[1..], pat, j - 1)
  {
    forall j: nat | 1 <= j ensures OccursAt(s, pat, j) == OccursAt(s[1..], pat, j - 1) {
      if j + |pat| <= |s| {
        assert s[1..][j - 1..j - 1 + |pat|] == s[j..j + |pat|];
      }
    }
  }

  /** Python's `s.find(pat)` for a non-empty pattern: the first occurrence, if any. */
  function Find(s: string, pat: string): (r: Option<nat>)
    requires |pat| > 0
    ensures r.Some? ==> OccursAt(s, pat, r.value)
    ensures r.Some? ==> forall j: nat :: j < r.value ==> !OccursAt(s, pat, j)
    ensures r.None? ==> forall j: nat :: !OccursAt(s, pat, j)
  {
    if |s| < |pat| then None
    else if s[..|pat|] == pat then Some(0)
    else
      assert s[0..|pat|] == s[..|pat|];
      OccursAtShift(s, pat);
      match Find(s[1..], pat)
      case None => None
      case Some(i) => Some(i + 1)
  }

  /** Python's `pat in s` for a non-empty pattern. */
  predicate Contains(s: string, pat: string)
    requires |pat| > 0
  {
    Find(s, pat).Some?
  }

  /** Python's `s.split(pat)[0]`: everything before the first occurrence of `pat`. */
  function Before(s: string, pat: string): (r: string)
    requires |pat| > 0
    ensures |r| <= |s|
    ensures Contains(s, pat) ==> s == r + s[|r|..] && OccursAt(s, pat, |r|)
    ensures !Contains(s, pat) ==> r == s
  {
    match Find(s, pat)
    case None => s
    case Some(i) => s[..i]
  }

  /**
   * Python's `s.split(pat)[1]`: the text between the first and the second
   * occurrence of `pat` (or up to the end); `None` where Python raises
   * `IndexError` because `pat` does not occur.
   */
  function Second(s: string, pat: string): (r: Option<string>)
    requires |pat| > 0
    ensures r.None? <==> !Contains(s, pat)
  {
    match Find(s, pat)
    case None => None
    case Some(i) => Some(Before(s[i + |pat|..], pat))
  }

  /** Python's `s.replace(c, sub)`: every occurrence of `c` replaced by `sub`. */
  function Replace(s: string, c: char, sub: string): (r: string)
    ensures c !in sub ==> c !in r
    ensures c !in s ==> r == s
  {
    if |s| == 0 then ""
    else (if s[0] == c then sub else [s[0]]) + Replace(s[1..], c, sub)
  }

  /** `n` copies of `c`. */
  function Repeat(c: char, n: nat): (r: string)
    ensures |r| == n && forall k :: 0 <= k < n ==> r[k] == c
  {
    if n == 0 then "" else [c] + Repeat(c, n - 1)
  }

  /**
   * Python's `s.ljust(width, fill)`: right-padded with `fill` up to `width`
   * characters; a string already that long is returned unchanged.
   */
  function LeftJustify(s: string, width: nat, fill: char): (r: string)
    ensures |r| == if |s| >= width then |s| else width
    ensures r[..|s|] == s
    ensures forall k :: |s| <= k < |r| ==> r[k] == fill
  {
    if |s| >= width then s else s + Repeat(fill, width - |s|)
  }

  /** Python's `s.rfind(c)`: the last index holding `c`, if any. */
  function RFind(s: string, c: char): (r: Option<nat>)
    ensures r.Some? ==> r.value < |s| && s[r.value] == c
    ensures r.Some? ==> forall k :: r.value < k < |s| ==> s[k] != c
    ensures r.None? ==> c !in s
  {
    if |s| == 0 then None
    else if s[|s| - 1] == c then Some(|s| - 1)
    else
      var r := RFind(s[..|s| - 1], c);
      assert forall k :: 0 <= k < |s| - 1 ==> s[..|s| - 1][k] == s[k];
      r
  }
}
