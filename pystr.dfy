/** The few Python `str` operations the scraper and the sensors rely on, with
    CPython's semantics: `in`, `find`, `split(sep)`, `split(sep, 1)`, `join`,
    `replace(c, "")`, `strip()`, `zfill(2)`, `str(n)` and `<`. */
module PyStr {
  import opened Wrappers

  /** `t` occurs in `s` starting at index `i`. */
  predicate OccursAt(s: string, t: string, i: nat) {
    i + |t| <= |s| && s[i..i + |t|] == t
  }

  /** `s.find(t, k)`: the first index at or after `k` where `t` occurs (None for -1). */
  function FindFrom(s: string, t: string, k: nat): (r: Option<nat>)
    ensures r.Some? ==> k <= r.value && OccursAt(s, t, r.value)
    ensures r.Some? ==> forall j :: k <= j < r.value ==> !OccursAt(s, t, j)
    ensures r.None? ==> forall j :: k <= j ==> !OccursAt(s, t, j)
    decreases |s| - k
  {
    if k + |t| > |s| then None
    else if s[k..k + |t|] == t then Some(k)
    else FindFrom(s, t, k + 1)
  }

  /** `s.find(t)`. */
  function Find(s: string, t: string): Option<nat> {
    FindFrom(s, t, 0)
  }

  /** `t in s`. */
  predicate Contains(s: string, t: string) {
    Find(s, t).Some?
  }

  lemma ContainsIff(s: string, t: string)
    ensures Contains(s, t) <==> exists j :: OccursAt(s, t, j)
  {
  }

  /** For a one-character needle, `[c] in s` is plain membership. */
  lemma {:induction false} ContainsChar(s: string, c: char)
    ensures Contains(s, [c]) <==> c in s
  {
    if c in s {
      var j :| 0 <= j < |s| && s[j] == c;
      assert OccursAt(s, [c], j);
    }
    if Contains(s, [c]) {
      var j := Find(s, [c]).value;
      assert s[j..j + 1] == [c];
      assert s[j] == c;
    }
  }

  /** An occurrence inside a prefix is an occurrence in the whole string. */
  lemma OccursInPrefix(s: string, t: string, n: nat, j: nat)
    requires n <= |s| && OccursAt(s[..n], t, j)
    ensures OccursAt(s, t, j)
  {
    assert s[..n][j..j + |t|] == s[j..j + |t|];
  }

  /** A string that lacks one of the characters of `t` does not contain `t`. */
  lemma MissingCharNotContains(s: string, t: string, k: nat)
    requires k < |t| && t[k] !in s
    ensures !Contains(s, t)
  {
    forall j: nat
      ensures !OccursAt(s, t, j)
    {
      if j + |t| <= |s| {
        assert s[j..j + |t|][k] == s[j + k];
      }
    }
    ContainsIff(s, t);
  }

  /** A string contains itself at its end after anything. */
  lemma ContainsSuffix(s: string, t: string)
    ensures Contains(s + t, t)
  {
    assert OccursAt(s + t, t, |s|) by {
      assert (s + t)[|s|..|s| + |t|] == t;
    }
  }

  /** A string contains each of its slices. */
  lemma ContainsSlice(s: string, i: nat, j: nat)
    requires i <= j <= |s|
    ensures Contains(s, s[i..j])
  {
    assert OccursAt(s, s[i..j], i);
    ContainsIff(s, s[i..j]);
  }

  /** What occurs in a substring occurs in the whole string. */
  lemma ContainsTransitive(s: string, t: string, u: string)
    requires Contains(s, t) && Contains(t, u)
    ensures Contains(s, u)
  {
    var i, j := Find(s, t).value, Find(t, u).value;
    assert OccursAt(s, t, i) && OccursAt(t, u, j);
    var window := s[i..i + |t|];
    assert window == t && j + |u| <= |window|;
    assert s[i + j..i + j + |u|] == window[j..j + |u|];
    assert OccursAt(s, u, i + j);
    ContainsIff(s, u);
  }

  /** A prefix of a string that does not contain `t` does not contain it either. */
  lemma PrefixFree(s: string, t: string, n: nat)
    requires n <= |s| && !Contains(s, t)
    ensures !Contains(s[..n], t)
  {
    if Contains(s[..n], t) {
      OccursInPrefix(s, t, n, Find(s[..n], t).value);
    }
  }

  /** `sep.join(parts)`. */
  function Join(parts: seq<string>, sep: string): string {
    if |parts| == 0 then ""
    else if |parts| == 1 then parts[0]
    else parts[0] + sep + Join(parts[1..], sep)
  }

  /** Joining three parts. */
  lemma JoinThree(parts: seq<string>, sep: string)
    requires |parts| == 3
    ensures Join(parts, sep) == parts[0] + sep + parts[1] + sep + parts[2]
  {
    assert parts[1..][1..] == parts[2..];
    assert Join(parts[2..], sep) == parts[2];
    assert Join(parts[1..], sep) == parts[1] + sep + parts[2];
  }

  /** `s.split(sep)` for a non-empty separator (an empty one raises ValueError and is
      handled by the callers): the pieces between successive non-overlapping
      occurrences of `sep`, scanning from the left. */
  function Split(s: string, sep: string): (r: seq<string>)
    requires sep != []
    ensures |r| >= 1
    ensures Contains(s, sep) <==> |r| >= 2
    decreases |s|
  {
    match Find(s, sep)
    case None => [s]
    case Some(i) => [s[..i]] + Split(s[i + |sep|..], sep)
  }

  /** Splitting and joining again gives back the original string. */
  lemma {:induction false} SplitJoin(s: string, sep: string)
    requires sep != []
    ensures Join(Split(s, sep), sep) == s
    decreases |s|
  {
    match Find(s, sep)
    case None =>
    case Some(i) =>
      var rest := s[i + |sep|..];
      var parts := Split(s, sep);
      SplitJoin(rest, sep);
      assert parts[0] == s[..i] && parts[1..] == Split(rest, sep);
      assert Join(parts, sep) == s[..i] + sep + Join(Split(rest, sep), sep);
      assert s == s[..i] + s[i..i + |sep|] + rest;
  }

  /** Every part of a join occurs in the joined string. */
  lemma {:induction false} JoinPartContained(parts: seq<string>, sep: string, k: nat)
    requires k < |parts|
    ensures Contains(Join(parts, sep), parts[k])
    decreases |parts|
  {
    var joined := Join(parts, sep);
    if |parts| == 1 {
      assert joined[0..|joined|] == parts[0];
      ContainsSlice(joined, 0, |joined|);
    } else {
      var tail := Join(parts[1..], sep);
      assert joined == parts[0] + sep + tail;
      if k == 0 {
        assert joined[0..|parts[0]|] == parts[0];
        ContainsSlice(joined, 0, |parts[0]|);
      } else {
        assert Contains(tail, parts[k]) by {
          JoinPartContained(parts[1..], sep, k - 1);
        }
        assert Contains(joined, tail) by {
          assert joined[|parts[0]| + |sep|..|joined|] == tail;
          ContainsSlice(joined, |parts[0]| + |sep|, |joined|);
        }
        ContainsTransitive(joined, tail, parts[k]);
      }
    }
  }

  /** Every piece of a split occurs in the split string. */
  lemma SplitPieceContained(s: string, sep: string, k: nat)
    requires sep != [] && k < |Split(s, sep)|
    ensures Contains(s, Split(s, sep)[k])
  {
    SplitJoin(s, sep);
    JoinPartContained(Split(s, sep), sep, k);
  }

  /** No piece of a split contains the separator. */
  lemma {:induction false} SplitPiecesFree(s: string, sep: string)
    requires sep != []
    ensures forall k :: 0 <= k < |Split(s, sep)| ==> !Contains(Split(s, sep)[k], sep)
    decreases |s|
  {
    match Find(s, sep)
    case None =>
    case Some(i) =>
      var rest := s[i + |sep|..];
      SplitPiecesFree(rest, sep);
      assert Split(s, sep) == [s[..i]] + Split(rest, sep);
      if Contains(s[..i], sep) {
        OccursInPrefix(s, sep, i, Find(s[..i], sep).value);
        assert false;
      }
  }

  /** Joining pieces free of a one-character separator and splitting again gives
      back the pieces: the inverse of SplitJoin. */
  lemma {:induction false} JoinSplit(parts: seq<string>, c: char)
    requires |parts| >= 1
    requires forall k :: 0 <= k < |parts| ==> c !in parts[k]
    ensures Split(Join(parts, [c]), [c]) == parts
  {
    var s := Join(parts, [c]);
    var p := parts[0];
    ContainsChar(p, c);
    if |parts| == 1 {
      assert s == p;
    } else {
      var tail := Join(parts[1..], [c]);
      assert s == p + [c] + tail;
      assert OccursAt(s, [c], |p|);
      forall j: nat | j < |p|
        ensures !OccursAt(s, [c], j)
      {
        assert s[j] == p[j];
      }
      assert Find(s, [c]) == Some(|p|);
      assert s[..|p|] == p;
      assert s[|p| + 1..] == tail;
      JoinSplit(parts[1..], c);
      assert parts == [p] + parts[1..];
    }
  }

  /** The number of occurrences of `c` in `s`. */
  function Count(s: string, c: char): nat {
    if s == [] then 0 else (if s[0] == c then 1 else 0) + Count(s[1..], c)
  }

  lemma {:induction false} CountAppend(a: string, b: string, c: char)
    ensures Count(a + b, c) == Count(a, c) + Count(b, c)
  {
    if a != [] {
      assert (a + b)[1..] == a[1..] + b;
      CountAppend(a[1..], b, c);
    } else {
      assert a + b == b;
    }
  }

  lemma {:induction false} CountAbsent(s: string, c: char)
    requires c !in s
    ensures Count(s, c) == 0
  {
    if s != [] {
      CountAbsent(s[1..], c);
    }
  }

  /** Splitting on a one-character separator yields one more piece than there are
      separators. */
  lemma {:induction false} SplitCount(s: string, c: char)
    ensures |Split(s, [c])| == Count(s, c) + 1
    decreases |s|
  {
    match Find(s, [c])
    case None =>
      ContainsChar(s, c);
      CountAbsent(s, c);
    case Some(i) =>
      var rest := s[i + 1..];
      SplitCount(rest, c);
      assert s[i..i + 1] == [c];
      assert s == s[..i] + [c] + rest;
      assert !Contains(s[..i], [c]) by {
        if Contains(s[..i], [c]) {
          OccursInPrefix(s, [c], i, Find(s[..i], [c]).value);
        }
      }
      ContainsChar(s[..i], c);
      CountAbsent(s[..i], c);
      CountAppend(s[..i] + [c], rest, c);
      CountAppend(s[..i], [c], c);
  }

  /** `s.split(sep, 1)`. */
  function SplitOnce(s: string, sep: string): (r: seq<string>)
    requires sep != []
    ensures 1 <= |r| <= 2
    ensures |r| == 2 <==> Contains(s, sep)
    ensures r[0] == Split(s, sep)[0]
    ensures |r| == 2 ==> s == r[0] + sep + r[1] && !Contains(r[0], sep)
  {
    match Find(s, sep)
    case None => [s]
    case Some(i) =>
      assert s == s[..i] + s[i..i + |sep|] + s[i + |sep|..];
      assert !Contains(s[..i], sep) by {
        if Contains(s[..i], sep) {
          OccursInPrefix(s, sep, i, Find(s[..i], sep).value);
        }
      }
      [s[..i], s[i + |sep|..]]
  }

  /** Python indexing `xs[k]`, with IndexError as None. */
  function At<T>(xs: seq<T>, k: nat): (r: Option<T>)
    ensures r.Some? <==> k < |xs|
    ensures r.Some? ==> r.value == xs[k]
  {
    if k < |xs| then Some(xs[k]) else None
  }

  /** `s.split(sep)[k]`. */
  function Piece(s: string, sep: string, k: nat): Option<string>
    requires sep != []
  {
    At(Split(s, sep), k)
  }

  /** `s.split(sep)[0]` (equally `s.split(sep, 1)[0]`): the text before the first `sep`. */
  function Before(s: string, sep: string): (r: string)
    requires sep != []
    ensures !Contains(r, sep)
    ensures |r| <= |s| && r == s[..|r|]
  {
    SplitPiecesFree(s, sep);
    Split(s, sep)[0]
  }

  /** Cutting at the first `sep` a second time changes nothing. */
  lemma BeforeIdempotent(s: string, sep: string)
    requires sep != []
    ensures Before(Before(s, sep), sep) == Before(s, sep)
  {
    var r := Before(s, sep);
    assert Find(r, sep).None?;
    assert Split(r, sep) == [r];
  }

  /** `s.split(sep, 1)[1]`: the text after the first `sep`, None (IndexError) if absent. */
  function After(s: string, sep: string): (r: Option<string>)
    requires sep != []
    ensures r.Some? <==> Contains(s, sep)
    ensures r.Some? ==> s == Before(s, sep) + sep + r.value
  {
    At(SplitOnce(s, sep), 1)
  }

  /** `s.replace(c, "")`: every occurrence of the character `c` deleted. */
  function RemoveAll(s: string, c: char): (r: string)
    ensures c !in r
    ensures forall x :: x in r <==> x in s && x != c
    ensures c !in s ==> r == s
    ensures |r| == |s| - Count(s, c)
  {
    if s == [] then []
    else (if s[0] == c then [] else [s[0]]) + RemoveAll(s[1..], c)
  }

  /** Python's `str.isspace` for one character. */
  predicate IsSpace(c: char) {
    || c == ' '
    || '\t' <= c <= '\r'
    || '\U{1C}' <= c <= '\U{1F}'
    || c == '\U{85}'
    || c == '\U{A0}'
    || c == '\U{1680}'
    || '\U{2000}' <= c <= '\U{200A}'
    || c == '\U{2028}'
    || c == '\U{2029}'
    || c == '\U{202F}'
    || c == '\U{205F}'
    || c == '\U{3000}'
  }

  /** `s.lstrip()`. */
  function StripLeft(s: string): (r: string)
    ensures |r| <= |s| && r == s[|s| - |r|..]
    ensures forall k :: 0 <= k < |s| - |r| ==> IsSpace(s[k])
    ensures r != [] ==> !IsSpace(r[0])
  {
    if s != [] && IsSpace(s[0]) then
      var r := StripLeft(s[1..]);
      assert forall k :: 1 <= k < |s| - |r| ==> s[k] == s[1..][k - 1];
      r
    else s
  }

  /** `s.rstrip()`. */
  function StripRight(s: string): (r: string)
    ensures |r| <= |s| && r == s[..|r|]
    ensures forall k :: |r| <= k < |s| ==> IsSpace(s[k])
    ensures r != [] ==> !IsSpace(r[|r| - 1])
  {
    if s != [] && IsSpace(s[|s| - 1]) then StripRight(s[..|s| - 1]) else s
  }

  /** `s.strip()`: `s` with the whitespace at both ends removed. */
  function Strip(s: string): (r: string)
    ensures |r| <= |s|
    ensures r != [] ==> !IsSpace(r[0]) && !IsSpace(r[|r| - 1])
  {
    StripRight(StripLeft(s))
  }

  lemma StripShape(s: string)
    ensures var r, i := Strip(s), |s| - |StripLeft(s)|;
            && i + |r| <= |s| && r == s[i..i + |r|]
            && (forall k :: 0 <= k < i ==> IsSpace(s[k]))
            && (forall k :: i + |r| <= k < |s| ==> IsSpace(s[k]))
  {
    var l := StripLeft(s);
    var r := StripRight(l);
    var i := |s| - |l|;
    assert l == s[i..];
    forall k | i + |r| <= k < |s|
      ensures IsSpace(s[k])
    {
      assert s[k] == l[k - i];
    }
  }

  /** Stripping is idempotent. */
  lemma StripIdempotent(s: string)
    ensures Strip(Strip(s)) == Strip(s)
  {
    var r := Strip(s);
    if r != [] {
      assert StripLeft(r) == r;
      assert StripRight(r) == r;
    }
  }

  /** `s.zfill(2)`: pad with '0' on the left to length two, keeping a leading sign first. */
  function ZFill2(s: string): (r: string)
    ensures |r| == if |s| >= 2 then |s| else 2
    ensures |s| >= 2 ==> r == s
    ensures r[|r| - |s| + (if |s| == 1 && s[0] in "+-" then 1 else 0)..] == (if |s| == 1 && s[0] in "+-" then [] else s)
  {
    if |s| >= 2 then s
    else if |s| == 0 then "00"
    else if s[0] in "+-" then s + "0"
    else "0" + s
  }

  function DigitChar(d: nat): (c: char)
    requires d < 10
    ensures '0' <= c <= '9'
  {
    ['0', '1', '2', '3', '4', '5', '6', '7', '8', '9'][d]
  }

  predicate IsDigits(s: string) {
    forall k :: 0 <= k < |s| ==> '0' <= s[k] <= '9'
  }

  /** `str(n)` for a non-negative integer: decimal digits without leading zeros. */
  function Decimal(n: nat): (r: string)
    ensures |r| >= 1 && IsDigits(r)
    ensures |r| > 1 ==> r[0] != '0'
  {
    if n < 10 then [DigitChar(n)] else Decimal(n / 10) + [DigitChar(n % 10)]
  }

  /** Python's `a < b` on strings: lexicographic order on code points, a proper
      prefix being smaller. (Dafny's own `<` on sequences is the proper-prefix
      relation only.) */
  predicate LexLess(a: string, b: string) {
    if a == [] then b != []
    else if b == [] then false
    else if a[0] != b[0] then a[0] < b[0]
    else LexLess(a[1..], b[1..])
  }

  /** Python's `a >= b` on strings. */
  predicate LexAtLeast(a: string, b: string) {
    !LexLess(a, b)
  }

  lemma {:induction false} LexLessIrreflexive(a: string)
    ensures !LexLess(a, a)
  {
    if a != [] {
      LexLessIrreflexive(a[1..]);
    }
  }

  lemma {:induction false} LexLessTransitive(a: string, b: string, c: string)
    requires LexLess(a, b) && LexLess(b, c)
    ensures LexLess(a, c)
  {
    if a != [] && b != [] && c != [] && a[0] == b[0] && b[0] == c[0] {
      LexLessTransitive(a[1..], b[1..], c[1..]);
    }
  }
}
