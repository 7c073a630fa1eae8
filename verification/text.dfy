/**
 Python string primitives the bot relies on, over `string` (= `seq<char>`):
 `str.isspace`, `str.startswith`, `str.strip`, `str.split(sep)`,
 `str.split(sep, 1)` and `sep.join(parts)`.
 */
module Text {

  /** The characters Python 3's `str.isspace()` accepts, which are exactly
      the characters `str.strip()` without arguments removes. */
  predicate IsWhitespace(c: char)
  {
    var n := c as int;
    || (0x09 <= n <= 0x0D)
    || (0x1C <= n <= 0x20)
    || n == 0x85
    || n == 0xA0
    || n == 0x1680
    || (0x2000 <= n <= 0x200A)
    || n == 0x2028
    || n == 0x2029
    || n == 0x202F
    || n == 0x205F
    || n == 0x3000
  }

  predicate AllWhitespace(s: string)
  {
    forall i :: 0 <= i < |s| ==> IsWhitespace(s[i])
  }

  /** Neither end of `s` is whitespace (vacuously true of the empty string). */
  predicate IsTrimmed(s: string)
  {
    |s| == 0 || (!IsWhitespace(s[0]) && !IsWhitespace(s[|s| - 1]))
  }

  /** Python's `s.startswith(p)`. */
  predicate StartsWith(s: string, p: string)
  {
    |p| <= |s| && s[..|p|] == p
  }

  /** `r` occurs in `s` starting at offset `a`. */
  predicate SliceAt(r: string, s: string, a: int)
  {
    0 <= a && a + |r| <= |s| && s[a..a + |r|] == r
  }

  /** `r` is a contiguous piece of `s`. */
  ghost predicate IsSliceOf(r: string, s: string)
  {
    exists a :: SliceAt(r, s, a)
  }

  lemma SliceOfSlice(r: string, t: string, s: string, a: int, b: int)
    requires SliceAt(r, t, a) && SliceAt(t, s, b)
    ensures SliceAt(r, s, a + b)
  {
    forall i | 0 <= i < |r|
      ensures s[a + b..a + b + |r|][i] == r[i]
    {
      assert r[i] == t[a + i] == s[b + a + i];
    }
  }

  /** Every character of `s[i..j]` is whitespace. */
  predicate WhitespaceBetween(s: string, i: int, j: int)
    requires 0 <= i <= j <= |s|
  {
    forall k :: i <= k < j ==> IsWhitespace(s[k])
  }

  /** Where `s.lstrip()` starts: the first index at or after `i` that is not
      whitespace, or `|s|`. */
  function SkipLeading(s: string, i: nat): (k: nat)
    requires i <= |s|
    ensures i <= k <= |s|
    ensures WhitespaceBetween(s, i, k)
    ensures k < |s| ==> !IsWhitespace(s[k])
    decreases |s| - i
  {
    if i < |s| && IsWhitespace(s[i]) then SkipLeading(s, i + 1) else i
  }

  /** Where `rstrip` ends, not going below `lo`: the last index at or before
      `j` whose preceding character is not whitespace, or `lo`. */
  function SkipTrailing(s: string, lo: nat, j: nat): (k: nat)
    requires lo <= j <= |s|
    ensures lo <= k <= j
    ensures WhitespaceBetween(s, k, j)
    ensures k > lo ==> !IsWhitespace(s[k - 1])
    decreases j
  {
    if j > lo && IsWhitespace(s[j - 1]) then SkipTrailing(s, lo, j - 1) else j
  }

  /** Python's `s.strip()`: the piece of `s` left once the whitespace at
      both ends is removed. */
  function Strip(s: string): (r: string)
    ensures IsTrimmed(r)
    ensures exists a :: SliceAt(r, s, a) && AllWhitespace(s[..a]) && AllWhitespace(s[a + |r|..])
    ensures |r| == 0 <==> AllWhitespace(s)
  {
    var a := SkipLeading(s, 0);
    var b := SkipTrailing(s, a, |s|);
    StripPieces(s, a, b);
    s[a..b]
  }

  /** The facts behind `Strip`'s contract, for the two scan results. */
  lemma StripPieces(s: string, a: nat, b: nat)
    requires a <= b <= |s|
    requires WhitespaceBetween(s, 0, a) && WhitespaceBetween(s, b, |s|)
    requires a < |s| ==> !IsWhitespace(s[a])
    requires b > a ==> !IsWhitespace(s[b - 1])
    ensures IsTrimmed(s[a..b])
    ensures SliceAt(s[a..b], s, a) && AllWhitespace(s[..a]) && AllWhitespace(s[b..])
    ensures b == a <==> AllWhitespace(s)
  {
    assert forall k :: 0 <= k < a ==> s[..a][k] == s[k];
    assert forall k :: 0 <= k < |s| - b ==> s[b..][k] == s[b + k];
    if b == a {
      forall k | 0 <= k < |s|
        ensures IsWhitespace(s[k])
      {
        if k < a {
          assert IsWhitespace(s[k]);
        }
      }
    } else {
      assert s[a..b][0] == s[a];
      assert !AllWhitespace(s) by {
        assert !IsWhitespace(s[a]);
      }
    }
  }

  /** Stripping text that is already trimmed changes nothing. */
  lemma StripTrimmed(s: string)
    requires IsTrimmed(s)
    ensures Strip(s) == s
  {
  }

  /** Index of the first `c` in `s`, or `|s|` when `s` has none. */
  function IndexOf(s: string, c: char): (k: nat)
    ensures k <= |s|
    ensures k < |s| ==> s[k] == c
    ensures c !in s[..k]
  {
    if |s| == 0 || s[0] == c then 0 else 1 + IndexOf(s[1..], c)
  }

  /** Python's `s.split(sep)` for a one-character separator: always at least
      one piece, `""` splits to `[""]`, adjacent separators give empty pieces. */
  function Split(s: string, sep: char): (parts: seq<string>)
    ensures |parts| >= 1
    ensures forall i :: 0 <= i < |parts| ==> sep !in parts[i]
    decreases |s|
  {
    var k := IndexOf(s, sep);
    if k == |s| then [s] else [s[..k]] + Split(s[k + 1..], sep)
  }

  /** Python's `sep.join(parts)` for a one-character separator. */
  function Join(parts: seq<string>, sep: char): (s: string)
  {
    if |parts| == 0 then []
    else if |parts| == 1 then parts[0]
    else parts[0] + [sep] + Join(parts[1..], sep)
  }

  /** Python's `s.split(sep, 1)`: a one-element list when `sep` does not
      occur, otherwise the text before and after its first occurrence. */
  function SplitOnce(s: string, sep: char): (parts: seq<string>)
    ensures |parts| == 1 || |parts| == 2
    ensures |parts| == 1 <==> sep !in s
    ensures |parts| == 1 ==> parts[0] == s
    ensures |parts| == 2 ==> parts[0] + [sep] + parts[1] == s && sep !in parts[0]
  {
    var k := IndexOf(s, sep);
    if k == |s| then
      assert s[..k] == s;
      [s]
    else
      assert s == s[..k] + [sep] + s[k + 1..];
      [s[..k], s[k + 1..]]
  }

  /** Joining the pieces of a split gives back the original text. */
  lemma {:induction false} JoinSplit(s: string, sep: char)
    ensures Join(Split(s, sep), sep) == s
    decreases |s|
  {
    var k := IndexOf(s, sep);
    if k < |s| {
      var rest := s[k + 1..];
      calc {
        Join(Split(s, sep), sep);
        { SplitAt(s, sep); }
        Join([s[..k]] + Split(rest, sep), sep);
        { JoinCons(s[..k], Split(rest, sep), sep); }
        s[..k] + [sep] + Join(Split(rest, sep), sep);
        { JoinSplit(rest, sep); }
        s[..k] + [sep] + rest;
        { assert s[k] == sep; }
        s;
      }
    } else {
      SplitAt(s, sep);
    }
  }

  /** One step of `Split`: the text up to the first separator, then the
      split of what follows it. */
  lemma SplitAt(s: string, sep: char)
    ensures var k := IndexOf(s, sep);
      Split(s, sep) == if k == |s| then [s] else [s[..k]] + Split(s[k + 1..], sep)
  {
  }

  /** Joining two non-empty lists of pieces joins each and puts one
      separator between the results. */
  lemma {:induction false} JoinAppend(a: seq<string>, b: seq<string>, sep: char)
    requires |a| >= 1 && |b| >= 1
    ensures Join(a + b, sep) == Join(a, sep) + [sep] + Join(b, sep)
  {
    assert a + b == [a[0]] + (a[1..] + b);
    JoinCons(a[0], a[1..] + b, sep);
    if |a| == 1 {
      assert a[1..] + b == b;
    } else {
      assert a == [a[0]] + a[1..];
      JoinCons(a[0], a[1..], sep);
      JoinAppend(a[1..], b, sep);
    }
  }

  /** One step of `Join` for a non-empty tail. */
  lemma JoinCons(p: string, rest: seq<string>, sep: char)
    requires |rest| >= 1
    ensures Join([p] + rest, sep) == p + [sep] + Join(rest, sep)
  {
    assert ([p] + rest)[0] == p;
    assert ([p] + rest)[1..] == rest;
  }

  /** Splitting a join gives back the pieces, provided there is at least one
      piece and no piece contains the separator. */
  lemma {:induction false} SplitJoin(parts: seq<string>, sep: char)
    requires |parts| >= 1
    requires forall i :: 0 <= i < |parts| ==> sep !in parts[i]
    ensures Split(Join(parts, sep), sep) == parts
  {
    var p := parts[0];
    IndexOfNone(p, sep);
    if |parts| > 1 {
      var tail := parts[1..];
      assert parts == [p] + tail;
      calc {
        Split(Join(parts, sep), sep);
        { JoinCons(p, tail, sep); }
        Split(p + [sep] + Join(tail, sep), sep);
        { SplitAroundFirst(p, Join(tail, sep), sep); }
        [p] + Split(Join(tail, sep), sep);
        { SplitJoin(tail, sep); }
        [p] + tail;
      }
    } else {
      SplitAt(p, sep);
    }
  }

  /** The first separator in `p + [sep] + t` is the one right after `p`,
      and a separator-free `p + t` has none before `|p|`. */
  lemma {:induction false} IndexOfAfter(p: string, t: string, sep: char)
    requires sep !in p
    ensures IndexOf(p + [sep] + t, sep) == |p|
    ensures sep !in t ==> IndexOf(p + t, sep) == |p + t|
  {
    if |p| > 0 {
      IndexOfAfter(p[1..], t, sep);
      assert (p + [sep] + t)[1..] == p[1..] + [sep] + t;
      assert (p + t)[1..] == p[1..] + t;
    } else {
      assert p + [sep] + t == [sep] + t;
      assert p + t == t;
      if sep !in t {
        IndexOfNone(t, sep);
      }
    }
  }

  lemma {:induction false} IndexOfNone(s: string, sep: char)
    requires sep !in s
    ensures IndexOf(s, sep) == |s|
  {
    if |s| > 0 {
      assert sep !in s[1..];
      IndexOfNone(s[1..], sep);
    }
  }

  /** Splitting `a + [sep] + b` splits `a` and `b` separately. */
  lemma {:induction false} SplitAround(a: string, b: string, sep: char)
    ensures Split(a + [sep] + b, sep) == Split(a, sep) + Split(b, sep)
    decreases |a|
  {
    var k := IndexOf(a, sep);
    if k == |a| {
      SplitAroundFirst(a, b, sep);
    } else {
      SplitAround(a[k + 1..], b, sep);
      SplitAroundStep(a, b, sep);
    }
  }

  lemma SplitAroundStep(a: string, b: string, sep: char)
    requires IndexOf(a, sep) < |a|
    requires var rest := a[IndexOf(a, sep) + 1..];
      Split(rest + [sep] + b, sep) == Split(rest, sep) + Split(b, sep)
    ensures Split(a + [sep] + b, sep) == Split(a, sep) + Split(b, sep)
  {
    var k := IndexOf(a, sep);
    var rest := a[k + 1..];
    calc {
      Split(a + [sep] + b, sep);
      { SplitAroundLater(a, b, sep); }
      [a[..k]] + Split(rest + [sep] + b, sep);
      [a[..k]] + (Split(rest, sep) + Split(b, sep));
      ([a[..k]] + Split(rest, sep)) + Split(b, sep);
      { SplitAt(a, sep); }
      Split(a, sep) + Split(b, sep);
    }
  }

  lemma SplitAroundFirst(a: string, b: string, sep: char)
    requires IndexOf(a, sep) == |a|
    ensures Split(a + [sep] + b, sep) == [a] + Split(b, sep)
  {
    var s := a + [sep] + b;
    IndexOfAfter(a, b, sep);
    assert s[..|a|] == a;
    assert s[|a| + 1..] == b;
  }

  lemma SplitAroundLater(a: string, b: string, sep: char)
    requires IndexOf(a, sep) < |a|
    ensures var k := IndexOf(a, sep);
      Split(a + [sep] + b, sep) == [a[..k]] + Split(a[k + 1..] + [sep] + b, sep)
  {
    var s := a + [sep] + b;
    var k := IndexOf(a, sep);
    SlicesOfJoined(a, sep, b, k);
    IndexOfPrefix(a, [sep] + b, sep);
    assert IndexOf(s, sep) == k;
    SplitAtIndex(s, sep, k);
  }

  /** `SplitAt` for a separator known to be at `k`. */
  lemma SplitAtIndex(s: string, sep: char, k: nat)
    requires k < |s| && IndexOf(s, sep) == k
    ensures Split(s, sep) == [s[..k]] + Split(s[k + 1..], sep)
  {
    SplitAt(s, sep);
  }

  /** Cutting `a + [x] + b` inside `a`. */
  lemma SlicesOfJoined<T>(a: seq<T>, x: T, b: seq<T>, k: nat)
    requires k < |a|
    ensures a + [x] + b == a + ([x] + b)
    ensures (a + [x] + b)[..k] == a[..k]
    ensures (a + [x] + b)[k + 1..] == a[k + 1..] + [x] + b
  {
  }

  /** A separator found in `a` is found at the same place in `a + t`. */
  lemma {:induction false} IndexOfPrefix(a: string, t: string, sep: char)
    requires IndexOf(a, sep) < |a|
    ensures IndexOf(a + t, sep) == IndexOf(a, sep)
  {
    if a[0] != sep {
      assert (a + t)[1..] == a[1..] + t;
      IndexOfPrefix(a[1..], t, sep);
    }
  }
}
