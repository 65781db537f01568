/**
 * Shared vocabulary for the model: an Option and a Result type standing in for
 * Python's `None` and raised exceptions, and the handful of `str` operations the
 * other modules use (`find`, `split`, `strip`, `count`), each stated against its
 * own specification.
 */
module Base {

  datatype Option<+T> = None | Some(value: T)

  /** A computation that either returns a value or raises. */
  datatype Result<+T, +E> = Ok(value: T) | Err(error: E)

  /** `c in s` for a single element (a character of a `str`, a byte of `bytes`). */
  predicate Contains<T(==)>(s: seq<T>, c: T) {
    exists i :: 0 <= i < |s| && s[i] == c
  }

  /** `s.count(c)` for a single character. */
  function Count<T(==)>(s: seq<T>, c: T): (n: nat)
    ensures n <= |s|
    ensures n == 0 <==> !Contains(s, c)
  {
    if |s| == 0 then 0
    else
      assert s == [s[0]] + s[1..];
      assert Contains(s[1..], c) ==> Contains(s, c) by {
        if Contains(s[1..], c) {
          var i :| 0 <= i < |s[1..]| && s[1..][i] == c;
          assert s[i + 1] == c;
        }
      }
      (if s[0] == c then 1 else 0) + Count(s[1..], c)
  }

  /** `s.find(c, from)`: the first index at or after `from` holding `c`, or -1. */
  function FindChar<T(==)>(s: seq<T>, c: T, from: nat): (i: int)
    decreases |s| - from
    ensures i == -1 || from <= i < |s|
    ensures i == -1 ==> forall j :: from <= j < |s| ==> s[j] != c
    ensures i != -1 ==> s[i] == c && forall j :: from <= j < i ==> s[j] != c
  {
    if from >= |s| then -1
    else if s[from] == c then from
    else FindChar(s, c, from + 1)
  }

  /** Counting distributes over a split. */
  lemma {:induction false} CountSplit<T>(s: seq<T>, k: nat)
    requires k <= |s|
    ensures forall c :: Count(s, c) == Count(s[..k], c) + Count(s[k..], c)
  {
    if k > 0 {
      CountSplit(s[1..], k - 1);
      assert s[1..][..k - 1] == s[..k][1..];
      assert s[1..][k - 1..] == s[k..];
    }
  }

  /**
   * Two successive finds, the second starting just past the first, both
   * succeed exactly when `c` occurs at least twice.
   */
  lemma FindSecond<T>(s: seq<T>, c: T)
    ensures var p1 := FindChar(s, c, 0);
      (p1 != -1 && FindChar(s, c, p1 + 1) != -1) <==> Count(s, c) >= 2
  {
    var p1 := FindChar(s, c, 0);
    var p2 := FindChar(s, c, p1 + 1);
    if p1 != -1 && p2 != -1 {
      CountTwo(s, c, p1, p2);
    } else {
      CountAtMostOne(s, c, p1, p2);
    }
  }

  lemma CountTwo<T>(s: seq<T>, c: T, p1: int, p2: int)
    requires 0 <= p1 < p2 < |s| && s[p1] == c && s[p2] == c
    ensures Count(s, c) >= 2
  {
    CountSplit(s, p2);
    CountSplit(s[..p2], p1);
    assert s[..p2][p1..][0] == c;
    assert s[p2..][0] == c;
    assert Contains(s[..p2][p1..], c);
    assert Contains(s[p2..], c);
  }

  lemma CountAtMostOne<T>(s: seq<T>, c: T, p1: int, p2: int)
    requires p1 == FindChar(s, c, 0) && p2 == FindChar(s, c, p1 + 1)
    requires p1 == -1 || p2 == -1
    ensures Count(s, c) < 2
  {
    if p1 == -1 {
      assert !Contains(s, c);
    } else {
      CountSplit(s, p1 + 1);
      CountSplit(s[..p1 + 1], p1);
      var before, after := s[..p1 + 1][..p1], s[p1 + 1..];
      assert !Contains(before, c) by {
        forall j | 0 <= j < |before| ensures before[j] != c { assert before[j] == s[j]; }
      }
      assert !Contains(after, c) by {
        forall j | 0 <= j < |after| ensures after[j] != c { assert after[j] == s[p1 + 1 + j]; }
      }
      assert s[..p1 + 1][p1..] == [c];
      assert Count([c], c) == 1;
    }
  }

  /** `pat` occurs in `s` starting at index `j`. */
  predicate OccursAt(s: string, pat: string, j: int) {
    0 <= j && j + |pat| <= |s| && s[j..j + |pat|] == pat
  }

  /** `s.find(pat)`: the first index where `pat` occurs in `s`, or -1. */
  function Find(s: string, pat: string): (i: int)
    ensures i == -1 || OccursAt(s, pat, i)
    ensures i == -1 ==> forall j :: !OccursAt(s, pat, j)
    ensures i != -1 ==> forall j :: 0 <= j < i ==> !OccursAt(s, pat, j)
  {
    FindFrom(s, pat, 0)
  }

  function FindFrom(s: string, pat: string, from: nat): (i: int)
    decreases |s| - from
    ensures i == -1 || (from <= i && OccursAt(s, pat, i))
    ensures i == -1 ==> forall j :: from <= j ==> !OccursAt(s, pat, j)
    ensures i != -1 ==> forall j :: from <= j < i ==> !OccursAt(s, pat, j)
  {
    if from + |pat| > |s| then -1
    else if s[from..from + |pat|] == pat then from
    else FindFrom(s, pat, from + 1)
  }

  /** `sep.join(parts)` for a one-character separator. */
  function Join(parts: seq<string>, sep: char): (s: string)
    requires |parts| > 0
  {
    if |parts| == 1 then parts[0] else parts[0] + [sep] + Join(parts[1..], sep)
  }

  /**
   * `s.split(sep)` for a one-character separator: always at least one field,
   * empty fields kept, no field contains the separator, and joining the fields
   * back gives `s`.
   */
  function Split(s: string, sep: char): (parts: seq<string>)
    ensures |parts| >= 1
    ensures forall k :: 0 <= k < |parts| ==> !Contains(parts[k], sep)
    ensures Join(parts, sep) == s
  {
    var i := FindChar(s, sep, 0);
    if i == -1 then [s]
    else
      var rest := Split(s[i + 1..], sep);
      assert !Contains(s[..i], sep) by {
        forall j | 0 <= j < i ensures s[..i][j] != sep { }
      }
      assert s == s[..i] + [sep] + s[i + 1..];
      [s[..i]] + rest
  }

  /**
   * Python's whitespace: the characters `str.isspace()` accepts, which are the
   * ones `str.strip()` removes and `\s` matches in a `str` pattern.
   */
  predicate IsSpace(c: char) {
    ('\t' <= c <= '\r') || ('\U{001C}' <= c <= ' ') || c == '\U{0085}' || c == '\U{00A0}'
    || c == '\U{1680}' || ('\U{2000}' <= c <= '\U{200A}') || c == '\U{2028}' || c == '\U{2029}'
    || c == '\U{202F}' || c == '\U{205F}' || c == '\U{3000}'
  }

  /** `s.strip()`: `s` without its leading and trailing whitespace. */
  function Strip(s: string): (r: string)
    ensures |r| <= |s|
  {
    StripRight(StripLeft(s))
  }

  /** Where the text of `s` starts: the first non-space at or after `i`, or `|s|`. */
  function LeadingFrom(s: string, i: nat): (r: nat)
    requires i <= |s|
    ensures i <= r <= |s|
    ensures forall k :: i <= k < r ==> IsSpace(s[k])
    ensures r == |s| || !IsSpace(s[r])
    decreases |s| - i
  {
    if i < |s| && IsSpace(s[i]) then LeadingFrom(s, i + 1) else i
  }

  /** Where the text of `s[..j]` ends: just after the last non-space before `j`, or 0. */
  function TrailingFrom(s: string, j: nat): (r: nat)
    requires j <= |s|
    ensures r <= j
    ensures forall k :: r <= k < j ==> IsSpace(s[k])
    ensures r == 0 || !IsSpace(s[r - 1])
  {
    if j > 0 && IsSpace(s[j - 1]) then TrailingFrom(s, j - 1) else j
  }

  function Max(a: int, b: int): int { if a >= b then a else b }

  /** Where `Strip` ends in `s`: after its last non-space, and never before it starts. */
  function StripEnd(s: string): (j: nat)
    ensures LeadingFrom(s, 0) <= j <= |s|
    ensures forall k :: j <= k < |s| ==> IsSpace(s[k])
    ensures j == LeadingFrom(s, 0) || !IsSpace(s[j - 1])
  {
    Max(LeadingFrom(s, 0), TrailingFrom(s, |s|))
  }

  /**
   * `Strip` removes only whitespace, and only at either end: it is the
   * slice between the first non-space and the end of the last one, and the
   * bytes outside that slice are all whitespace.
   */
  lemma StripInfix(s: string)
    ensures Strip(s) == s[LeadingFrom(s, 0)..StripEnd(s)]
  {
    var i := LeadingFrom(s, 0);
    StripLeftAll(s);
    StripRightAll(s[i..]);
    TrailingShift(s, i, |s|);
    SliceOfSuffix(s, i, StripEnd(s));
  }

  lemma SliceOfSuffix<T>(s: seq<T>, i: nat, j: nat)
    requires i <= j <= |s|
    ensures s[i..][..j - i] == s[i..j]
  {
  }

  lemma StripLeftAll(s: string)
    ensures StripLeft(s) == s[LeadingFrom(s, 0)..]
  {
    StripLeftFrom(s, 0);
    assert s[0..] == s;
  }

  lemma StripRightAll(s: string)
    ensures StripRight(s) == s[..TrailingFrom(s, |s|)]
  {
    StripRightFrom(s, |s|);
    assert s[..|s|] == s;
  }

  /** What `Strip` leaves starts and ends with a non-space. */
  lemma StripEnds(s: string)
    ensures |Strip(s)| == 0 || (!IsSpace(Strip(s)[0]) && !IsSpace(Strip(s)[|Strip(s)| - 1]))
  {
    StripInfix(s);
  }

  lemma {:induction false} StripLeftFrom(s: string, i: nat)
    requires i <= |s|
    ensures StripLeft(s[i..]) == s[LeadingFrom(s, i)..]
    decreases |s| - i
  {
    if i < |s| && IsSpace(s[i]) {
      assert s[i..][1..] == s[i + 1..];
      StripLeftFrom(s, i + 1);
    }
  }

  lemma {:induction false} StripRightFrom(s: string, j: nat)
    requires j <= |s|
    ensures StripRight(s[..j]) == s[..TrailingFrom(s, j)]
  {
    if j > 0 && IsSpace(s[j - 1]) {
      assert s[..j][..j - 1] == s[..j - 1];
      StripRightFrom(s, j - 1);
    }
  }

  /** The trailing spaces of a suffix of `s` are those of `s`, cut off where the suffix starts. */
  lemma {:induction false} TrailingShift(s: string, i: nat, j: nat)
    requires i <= j <= |s|
    ensures TrailingFrom(s[i..], j - i) == Max(i, TrailingFrom(s, j)) - i
    decreases j - i
  {
    if j > i {
      assert s[i..][j - i - 1] == s[j - 1];
      TrailingShift(s, i, j - 1);
    }
  }

  /** `s.lstrip()`. */
  function StripLeft(s: string): (r: string)
    ensures |r| <= |s|
  {
    if |s| > 0 && IsSpace(s[0]) then StripLeft(s[1..]) else s
  }

  /** `s.rstrip()`. */
  function StripRight(s: string): (r: string)
    ensures |r| <= |s|
  {
    if |s| > 0 && IsSpace(s[|s| - 1]) then StripRight(s[..|s| - 1]) else s
  }
}
