/** Python's `str` operations used by the scripts, on `seq<char>`.
    Case mapping covers ASCII letters only; whitespace is Python's full `str.isspace` set. */
module Text {

  /** The characters `str.split()` and `str.strip()` treat as whitespace. */
  predicate IsSpace(c: char) {
    var n := c as int;
    (9 <= n <= 13) || (28 <= n <= 32) || n == 0x85 || n == 0xA0 || n == 0x1680
    || (0x2000 <= n <= 0x200A) || n == 0x2028 || n == 0x2029 || n == 0x202F
    || n == 0x205F || n == 0x3000
  }

  /** `str.isdigit` on ASCII. */
  predicate IsDigit(c: char) {
    '0' <= c <= '9'
  }

  predicate NoSpace(s: string) {
    forall i :: 0 <= i < |s| ==> !IsSpace(s[i])
  }

  predicate NoDigit(s: string) {
    forall i :: 0 <= i < |s| ==> !IsDigit(s[i])
  }

  function UpperChar(c: char): char {
    if 'a' <= c <= 'z' then (c as int - 32) as char else c
  }

  function LowerChar(c: char): char {
    if 'A' <= c <= 'Z' then (c as int + 32) as char else c
  }

  /** `str.lower()` */
  function Lower(s: string): (r: string)
    ensures |r| == |s|
    ensures forall i :: 0 <= i < |s| ==> r[i] == LowerChar(s[i])
  {
    seq(|s|, i requires 0 <= i < |s| => LowerChar(s[i]))
  }

  lemma LowerAppend(a: string, b: string)
    ensures Lower(a + b) == Lower(a) + Lower(b)
  {
    assert forall i :: 0 <= i < |a + b| ==> Lower(a + b)[i] == (Lower(a) + Lower(b))[i];
  }

  lemma LowerSlice(s: string, i: nat)
    requires i <= |s|
    ensures Lower(s[i..]) == Lower(s)[i..]
  {
  }

  /** A concatenation starts with its first piece and ends with its last. */
  lemma PrefixSuffix(a: string, b: string, c: string)
    ensures StartsWith(a + b + c, a) && EndsWith(a + b + c, c)
  {
    assert (a + b + c)[..|a|] == a;
    assert (a + b + c)[|a + b|..] == c;
  }

  /** Proof hint: appending three pieces one by one appends their concatenation. Stated
      apart so that callers need not regroup the concatenation themselves. */
  lemma AppendThree(x: string, a: string, b: string, c: string)
    ensures x + a + b + c == x + (a + b + c)
  {
  }

  /** Proof hint: five pieces concatenated left to right, grouped to the right. */
  lemma GroupRight(a: string, b: string, c: string, d: string, e: string)
    ensures a + b + c + d + e == a + (b + (c + (d + e)))
  {
  }

  predicate StartsWith(s: string, prefix: string) {
    |prefix| <= |s| && s[..|prefix|] == prefix
  }

  /** `str.endswith` */
  predicate EndsWith(s: string, suffix: string) {
    |suffix| <= |s| && s[|s| - |suffix|..] == suffix
  }

  /** `pat` occurs in `s` at index `i`. */
  predicate OccursAt(s: string, pat: string, i: int) {
    0 <= i && i + |pat| <= |s| && s[i..i + |pat|] == pat
  }

  /** `pat in s` */
  predicate Occurs(s: string, pat: string) {
    exists i :: 0 <= i <= |s| && OccursAt(s, pat, i)
  }

  /** An occurrence in a slice is an occurrence in the whole string. */
  lemma OccursInSlice(s: string, lo: int, hi: int, pat: string)
    requires 0 <= lo <= hi <= |s|
    ensures Occurs(s[lo..hi], pat) ==> Occurs(s, pat)
  {
    if Occurs(s[lo..hi], pat) {
      var i :| 0 <= i <= |s[lo..hi]| && OccursAt(s[lo..hi], pat, i);
      SliceOfSlice(s, lo, hi, i, i + |pat|);
      assert OccursAt(s, pat, lo + i);
    }
  }

  lemma SliceOfSlice(s: string, a: int, b: int, c: int, d: int)
    requires 0 <= a <= b <= |s| && 0 <= c <= d <= b - a
    ensures s[a..b][c..d] == s[a + c..a + d]
  {
    var x, y := s[a..b][c..d], s[a + c..a + d];
    assert |x| == |y|;
    forall k | 0 <= k < |x| ensures x[k] == y[k] { }
  }

  /** `str.find(c)` for one character: the first index, or -1. */
  function Find(s: string, c: char): (k: int)
    ensures -1 <= k < |s|
    ensures k >= 0 ==> s[k] == c && forall j :: 0 <= j < k ==> s[j] != c
    ensures k == -1 ==> c !in s
  {
    if s == [] then -1
    else if s[0] == c then 0
    else var k := Find(s[1..], c); if k == -1 then -1 else k + 1
  }

  /** `s.replace(pat, rep)`: leftmost, non-overlapping occurrences, scanned left to right. */
  function ReplaceAll(s: string, pat: string, rep: string): (r: string)
    requires pat != []
    ensures rep == pat ==> r == s
    ensures |rep| == |pat| ==> |r| == |s|
    decreases |s|
  {
    if |s| < |pat| then s
    else if s[..|pat|] == pat then rep + ReplaceAll(s[|pat|..], pat, rep)
    else [s[0]] + ReplaceAll(s[1..], pat, rep)
  }

  /** Replacing a pattern that does not occur changes nothing. */
  lemma {:induction false} ReplaceAbsent(s: string, pat: string, rep: string)
    requires pat != [] && !Occurs(s, pat)
    ensures ReplaceAll(s, pat, rep) == s
    decreases |s|
  {
    if |s| >= |pat| {
      assert !OccursAt(s, pat, 0);
      OccursInSlice(s, 1, |s|, pat);
      assert s[1..|s|] == s[1..];
      ReplaceAbsent(s[1..], pat, rep);
      assert [s[0]] + s[1..] == s;
    }
  }

  /** If the replaced text begins with `w`, and no character of `w` can begin a
      replacement, the original text began with `w` too. */
  lemma {:induction false} ReplacedPrefix(t: string, pat: string, rep: string, w: string)
    requires pat != [] && rep != []
    requires forall i :: 0 <= i < |w| ==> w[i] != rep[0]
    ensures StartsWith(ReplaceAll(t, pat, rep), w) ==> StartsWith(t, w)
    decreases |t|
  {
    var x := ReplaceAll(t, pat, rep);
    if w == [] || |t| < |pat| {
    } else if t[..|pat|] == pat {
      assert x == rep + ReplaceAll(t[|pat|..], pat, rep);
      assert x[0] == rep[0] != w[0];
    } else {
      var y := ReplaceAll(t[1..], pat, rep);
      assert x == [t[0]] + y;
      ReplacedPrefix(t[1..], pat, rep, w[1..]);
      if StartsWith(x, w) {
        assert y[..|w| - 1] == x[1..|w|] == w[1..];
        assert t[1..][..|w| - 1] == w[1..];
        assert t[..|w|] == [t[0]] + t[1..][..|w| - 1];
        assert w == [w[0]] + w[1..];
      }
    }
  }

  /** No occurrence in a suffix means no occurrence from that suffix's start on. */
  lemma SuffixNoOccurrence(x: string, off: int, pat: string)
    requires 0 <= off <= |x| && !Occurs(x[off..], pat)
    ensures forall i :: off <= i ==> !OccursAt(x, pat, i)
  {
    forall i | off <= i && i + |pat| <= |x| ensures !OccursAt(x, pat, i) {
      assert x[i..i + |pat|] == x[off..][i - off..i - off + |pat|];
      assert !OccursAt(x[off..], pat, i - off);
    }
  }

  /** A replacement that cannot start or continue the pattern leaves no occurrence behind. */
  lemma {:induction false} ReplaceAllRemoves(t: string, pat: string, rep: string)
    requires pat != [] && rep != []
    requires pat[0] !in rep
    requires forall i :: 1 <= i < |pat| ==> pat[i] != rep[0]
    ensures !Occurs(ReplaceAll(t, pat, rep), pat)
    decreases |t|
  {
    var x := ReplaceAll(t, pat, rep);
    if |t| < |pat| {
      assert forall i :: !OccursAt(x, pat, i);
    } else if t[..|pat|] == pat {
      ReplaceAllRemoves(t[|pat|..], pat, rep);
      assert x[|rep|..] == ReplaceAll(t[|pat|..], pat, rep);
      SuffixNoOccurrence(x, |rep|, pat);
      forall i | 0 <= i < |rep| && i + |pat| <= |x| ensures !OccursAt(x, pat, i) {
        assert x[i] == rep[i] != pat[0];
        assert x[i..i + |pat|][0] != pat[0];
      }
    } else {
      var y := ReplaceAll(t[1..], pat, rep);
      ReplaceAllRemoves(t[1..], pat, rep);
      assert x[1..] == y;
      SuffixNoOccurrence(x, 1, pat);
      if |pat| <= |x| {
        ReplacedPrefix(t[1..], pat, rep, pat[1..]);
        HeadAndRest(t, |pat|);
        HeadAndRest(x, |pat|);
        assert pat == [pat[0]] + pat[1..];
        assert !OccursAt(x, pat, 0);
      }
    }
  }

  /** Text holding no first character of the pattern passes through a replacement unchanged. */
  lemma {:induction false} ReplaceAllPlain(a: string, s: string, pat: string, rep: string)
    requires pat != [] && pat[0] !in a
    ensures ReplaceAll(a + s, pat, rep) == a + ReplaceAll(s, pat, rep)
    decreases |a|
  {
    if a != [] {
      var x := a + s;
      if |x| >= |pat| {
        assert x[..|pat|][0] == a[0] != pat[0];
      }
      assert x[1..] == a[1..] + s;
      ReplaceAllPlain(a[1..], s, pat, rep);
    } else {
      assert a + s == s;
    }
  }

  /** Proof hint: the first `n` characters are the first one and the first `n - 1` of the
      rest. */
  lemma HeadAndRest(s: string, n: int)
    requires 1 <= n <= |s|
    ensures s[..n] == [s[0]] + s[1..][..n - 1]
  {
  }

  /** Two occurrences of the pattern, between text that cannot start one and before text the
      replacement leaves alone, are both replaced. */
  lemma ReplaceTwo(a: string, b: string, c: string, pat: string, rep: string)
    requires pat != [] && pat[0] !in a && pat[0] !in b
    requires ReplaceAll(c, pat, rep) == c
    ensures ReplaceAll(a + (pat + (b + (pat + c))), pat, rep) == a + (rep + (b + (rep + c)))
  {
    assert ReplaceAll(pat + c, pat, rep) == rep + c by {
      ReplaceAllHit(c, pat, rep);
    }
    assert ReplaceAll(b + (pat + c), pat, rep) == b + (rep + c) by {
      ReplaceAllPlain(b, pat + c, pat, rep);
    }
    assert ReplaceAll(pat + (b + (pat + c)), pat, rep) == rep + (b + (rep + c)) by {
      ReplaceAllHit(b + (pat + c), pat, rep);
    }
    ReplaceAllPlain(a, pat + (b + (pat + c)), pat, rep);
  }

  /** Text holding no first character of the pattern is left alone. */
  lemma ReplaceNone(c: string, pat: string, rep: string)
    requires pat != [] && pat[0] !in c
    ensures ReplaceAll(c, pat, rep) == c
  {
    ReplaceAllPlain(c, [], pat, rep);
    assert c + [] == c;
  }

  /** Text that does not start with the pattern, and holds no first character of it after its
      own first, is left alone. */
  lemma ReplaceNoneAfterHead(s: string, pat: string, rep: string)
    requires pat != [] && s != [] && !StartsWith(s, pat) && pat[0] !in s[1..]
    ensures ReplaceAll(s, pat, rep) == s
  {
    ReplaceNone(s[1..], pat, rep);
    assert [s[0]] + s[1..] == s;
  }

  /** Text that starts with the pattern starts with the replacement afterwards. */
  lemma ReplaceAllHit(s: string, pat: string, rep: string)
    requires pat != []
    ensures ReplaceAll(pat + s, pat, rep) == rep + ReplaceAll(s, pat, rep)
  {
    assert (pat + s)[..|pat|] == pat;
    assert (pat + s)[|pat|..] == s;
  }

  /** Replacing one character by another maps every position on its own. */
  lemma {:induction false} ReplaceCharAt(s: string, c: char, d: char)
    ensures |ReplaceAll(s, [c], [d])| == |s|
    ensures forall i :: 0 <= i < |s| ==> ReplaceAll(s, [c], [d])[i] == if s[i] == c then d else s[i]
    decreases |s|
  {
    if s != [] {
      ReplaceCharAt(s[1..], c, d);
      assert s[..1] == [s[0]];
    }
  }

  /** The index of the first non-whitespace character at or after `i`, or `|s|`. */
  function SkipSpace(s: string, i: nat): (k: nat)
    requires i <= |s|
    ensures i <= k <= |s|
    ensures forall j :: i <= j < k ==> IsSpace(s[j])
    ensures k < |s| ==> !IsSpace(s[k])
    decreases |s| - i
  {
    if i < |s| && IsSpace(s[i]) then SkipSpace(s, i + 1) else i
  }

  /** The index just after the last non-whitespace character of `s[lo..hi]`, or `lo`. */
  function SkipSpaceBack(s: string, lo: nat, hi: nat): (k: nat)
    requires lo <= hi <= |s|
    ensures lo <= k <= hi
    ensures forall j :: k <= j < hi ==> IsSpace(s[j])
    ensures k > lo ==> !IsSpace(s[k - 1])
    decreases hi
  {
    if hi > lo && IsSpace(s[hi - 1]) then SkipSpaceBack(s, lo, hi - 1) else hi
  }

  /** `str.strip()`: `s` without its leading and trailing whitespace. */
  function Strip(s: string): (r: string)
    ensures |r| <= |s| && IsStripped(r)
  {
    var lo := SkipSpace(s, 0);
    s[lo..SkipSpaceBack(s, lo, |s|)]
  }

  predicate IsStripped(s: string) {
    s == [] || (!IsSpace(s[0]) && !IsSpace(s[|s| - 1]))
  }

  /** The stripped text is the slice of `s` between two all-whitespace margins,
      it has no whitespace at either end, and stripping it again changes nothing. */
  lemma StripSlice(s: string) returns (i: nat)
    ensures i + |Strip(s)| <= |s| && Strip(s) == s[i..i + |Strip(s)|]
    ensures forall k :: 0 <= k < i ==> IsSpace(s[k])
    ensures forall k :: i + |Strip(s)| <= k < |s| ==> IsSpace(s[k])
    ensures IsStripped(Strip(s))
    ensures IsStripped(s) ==> Strip(s) == s
  {
    i := SkipSpace(s, 0);
    var hi := SkipSpaceBack(s, i, |s|);
    assert Strip(s) == s[i..hi];
    if IsStripped(s) && s != [] {
      assert i == 0;
      assert hi == |s|;
    }
  }

  /** Stripping adds no character. */
  lemma StripKeepsOut(s: string, c: char)
    ensures c !in s ==> c !in Strip(s)
  {
    var i := StripSlice(s);
    if c !in s {
      forall k | 0 <= k < |Strip(s)| ensures Strip(s)[k] != c {
        assert Strip(s)[k] == s[i + k];
      }
    }
  }

  /** Stripping creates no occurrence of a pattern. */
  lemma StripKeepsAbsent(s: string, pat: string)
    ensures !Occurs(s, pat) ==> !Occurs(Strip(s), pat)
  {
    var i := StripSlice(s);
    OccursInSlice(s, i, i + |Strip(s)|, pat);
  }

  lemma StripIdempotent(s: string)
    ensures Strip(Strip(s)) == Strip(s)
  {
    var _ := StripSlice(s);
    var _ := StripSlice(Strip(s));
  }

  /** The index at which the word starting at `s[0]` ends. */
  function WordEnd(s: string): (k: nat)
    ensures k <= |s|
    ensures forall j :: 0 <= j < k ==> !IsSpace(s[j])
    ensures k == |s| || IsSpace(s[k])
  {
    if |s| == 0 || IsSpace(s[0]) then 0 else 1 + WordEnd(s[1..])
  }

  /** `str.split()` with no argument: the maximal runs of non-whitespace. */
  function Words(s: string): (ws: seq<string>)
    ensures forall i :: 0 <= i < |ws| ==> ws[i] != [] && NoSpace(ws[i])
    decreases |s|
  {
    if s == [] then []
    else if IsSpace(s[0]) then Words(s[1..])
    else
      var k := WordEnd(s);
      [s[..k]] + Words(s[k..])
  }

  /** `''.join(ws)` */
  function Concat(ws: seq<string>): string {
    if ws == [] then [] else ws[0] + Concat(ws[1..])
  }

  /** `s` with every whitespace character removed. */
  function NonSpace(s: string): (r: string)
    ensures NoSpace(r)
  {
    if s == [] then []
    else (if IsSpace(s[0]) then [] else [s[0]]) + NonSpace(s[1..])
  }

  lemma {:induction false} NonSpaceAppend(a: string, b: string)
    ensures NonSpace(a + b) == NonSpace(a) + NonSpace(b)
    decreases |a|
  {
    if a != [] {
      assert (a + b)[1..] == a[1..] + b;
      NonSpaceAppend(a[1..], b);
    } else {
      assert a + b == b;
    }
  }

  lemma {:induction false} NonSpaceOfWord(w: string)
    requires NoSpace(w)
    ensures NonSpace(w) == w
    decreases |w|
  {
    if w != [] {
      NonSpaceOfWord(w[1..]);
      assert [w[0]] + w[1..] == w;
    }
  }

  /** Splitting into words and gluing them back together loses exactly the whitespace. */
  lemma {:induction false} WordsConcat(s: string)
    ensures Concat(Words(s)) == NonSpace(s)
    decreases |s|
  {
    if s == [] {
    } else if IsSpace(s[0]) {
      WordsConcat(s[1..]);
    } else {
      var k := WordEnd(s);
      assert s == s[..k] + s[k..];
      NonSpaceAppend(s[..k], s[k..]);
      NonSpaceOfWord(s[..k]);
      WordsConcat(s[k..]);
      assert Words(s)[1..] == Words(s[k..]);
    }
  }

  /** A non-empty string without whitespace is one word. */
  lemma SingleWord(s: string)
    ensures s != [] && NoSpace(s) ==> Words(s) == [s]
  {
    if s != [] && NoSpace(s) {
      var k := WordEnd(s);
      assert k == |s|;
      assert s[..k] == s && s[k..] == [];
    }
  }

  /** `WordEnd` is the index of the first whitespace character, or the length. */
  lemma WordEndIs(s: string, k: nat)
    requires k <= |s| && (forall j :: 0 <= j < k ==> !IsSpace(s[j]))
    requires k == |s| || IsSpace(s[k])
    ensures WordEnd(s) == k
  {
  }

  /** A whitespace character splits the words: the words of `a + [c] + b` are those of
      `a` followed by those of `b`. */
  lemma {:induction false} WordsSplitAt(a: string, c: char, b: string)
    requires IsSpace(c)
    ensures Words(a + [c] + b) == Words(a) + Words(b)
    decreases |a|
  {
    var s := a + [c] + b;
    if a == [] {
      assert s[1..] == b;
      assert Words(s) == Words(b);
    } else if IsSpace(a[0]) {
      assert s[1..] == a[1..] + [c] + b;
      WordsSplitAt(a[1..], c, b);
      assert Words(s) == Words(a[1..] + [c] + b);
    } else {
      var k := WordEnd(a);
      if k < |a| {
        WordsSplitAt(a[k..], c, b);
      }
      WordsSplitAfterWord(a, c, b);
    }
  }

  /** The step of `WordsSplitAt` for text that starts with a word. */
  lemma WordsSplitAfterWord(a: string, c: char, b: string)
    requires IsSpace(c) && a != [] && !IsSpace(a[0])
    requires WordEnd(a) < |a| ==> Words(a[WordEnd(a)..] + [c] + b) == Words(a[WordEnd(a)..]) + Words(b)
    ensures Words(a + [c] + b) == Words(a) + Words(b)
  {
    var s := a + [c] + b;
    var k := WordEnd(a);
    assert forall j :: 0 <= j < k ==> s[j] == a[j];
    if k < |a| {
      assert s[k] == a[k];
      WordEndIs(s, k);
      assert s[..k] == a[..k];
      assert s[k..] == a[k..] + [c] + b;
      assert Words(s) == [a[..k]] + (Words(a[k..]) + Words(b));
      assert Words(a) == [a[..k]] + Words(a[k..]);
    } else {
      assert s[k] == c;
      WordEndIs(s, k);
      assert s[..k] == a[..k] == a;
      assert s[k..][1..] == b;
      assert Words(s) == [a] + Words(b);
      assert a[k..] == [];
      assert Words(a) == [a];
    }
  }

  /** A string of whitespace only has no words. */
  lemma {:induction false} BlankHasNoWords(s: string)
    ensures (forall i :: 0 <= i < |s| ==> IsSpace(s[i])) ==> Words(s) == []
    decreases |s|
  {
    if s != [] && forall i :: 0 <= i < |s| ==> IsSpace(s[i]) {
      assert IsSpace(s[0]);
      BlankHasNoWords(s[1..]);
      assert forall i :: 0 <= i < |s[1..]| ==> IsSpace(s[1..][i]) by {
        forall i | 0 <= i < |s[1..]| ensures IsSpace(s[1..][i]) {
          assert s[1..][i] == s[i + 1];
        }
      }
    }
  }

  /** `sep.join(xs)` */
  function Join(sep: string, xs: seq<string>): (r: string)
    ensures |xs| > 0 ==> StartsWith(r, xs[0]) && EndsWith(r, xs[|xs| - 1])
  {
    if |xs| == 0 then []
    else if |xs| == 1 then xs[0]
    else xs[0] + sep + Join(sep, xs[1..])
  }

  /** Every character of a join comes from the separator or from one of the parts. */
  lemma {:induction false} JoinKeeps(sep: string, xs: seq<string>, p: char -> bool)
    requires forall k :: 0 <= k < |sep| ==> p(sep[k])
    requires forall i, k :: 0 <= i < |xs| && 0 <= k < |xs[i]| ==> p(xs[i][k])
    ensures forall k :: 0 <= k < |Join(sep, xs)| ==> p(Join(sep, xs)[k])
    decreases |xs|
  {
    if |xs| > 1 {
      JoinKeeps(sep, xs[1..], p);
      var j := Join(sep, xs);
      var rest := Join(sep, xs[1..]);
      assert j == xs[0] + sep + rest;
      forall k | 0 <= k < |j| ensures p(j[k]) {
        if k < |xs[0]| {
          assert j[k] == xs[0][k];
        } else if k < |xs[0]| + |sep| {
          assert j[k] == sep[k - |xs[0]|];
        } else {
          assert j[k] == rest[k - |xs[0]| - |sep|];
        }
      }
    }
  }

  /** The index of the first `c` in `s`, or `|s|`. */
  function IndexOf(s: string, c: char): (k: nat)
    ensures k <= |s|
    ensures c !in s[..k]
    ensures k < |s| ==> s[k] == c
  {
    if s == [] || s[0] == c then 0 else 1 + IndexOf(s[1..], c)
  }

  /** `s.split(c)` for a one-character separator: always at least one part, and no part holds `c`. */
  function SplitOn(s: string, c: char): (parts: seq<string>)
    ensures |parts| >= 1
    ensures forall i :: 0 <= i < |parts| ==> c !in parts[i]
    decreases |s|
  {
    var k := IndexOf(s, c);
    if k == |s| then [s] else [s[..k]] + SplitOn(s[k + 1..], c)
  }

  /** Joining the parts of a split with the separator gives back the original. */
  lemma {:induction false} JoinSplit(s: string, c: char)
    ensures Join([c], SplitOn(s, c)) == s
    decreases |s|
  {
    var k := IndexOf(s, c);
    if k < |s| {
      var rest := SplitOn(s[k + 1..], c);
      assert SplitOn(s, c) == [s[..k]] + rest;
      JoinCons([c], s[..k], rest);
      JoinSplit(s[k + 1..], c);
      SliceAround(s, k);
    }
  }

  /** Proof hint: text is the part before index `k`, the character at `k`, and the part
      after it. */
  lemma SliceAround(s: string, k: int)
    requires 0 <= k < |s|
    ensures s[..k] + [s[k]] + s[k + 1..] == s
  {
  }

  /** Proof hint: a non-empty sequence is its head in front of its tail. */
  lemma HeadCons<T>(xs: seq<T>)
    requires |xs| >= 1
    ensures [xs[0]] + xs[1..] == xs
  {
  }

  /** A join of a part in front of at least one more part. */
  lemma JoinCons(sep: string, a: string, rest: seq<string>)
    requires |rest| >= 1
    ensures Join(sep, [a] + rest) == a + sep + Join(sep, rest)
  {
    assert ([a] + rest)[1..] == rest;
  }

  /** Splitting a join of separator-free parts gives back the parts. */
  lemma {:induction false} SplitJoin(xs: seq<string>, c: char)
    requires |xs| >= 1
    requires forall i :: 0 <= i < |xs| ==> c !in xs[i]
    ensures SplitOn(Join([c], xs), c) == xs
    decreases |xs|
  {
    if |xs| == 1 {
      IndexOfAbsent(xs[0], c);
    } else {
      var rest := xs[1..];
      HeadCons(xs);
      JoinCons([c], xs[0], rest);
      SplitAfterPart(xs[0], c, Join([c], rest));
      SplitJoin(rest, c);
    }
  }

  /** A separator-free part followed by the separator is split off as the first part. */
  lemma SplitAfterPart(a: string, c: char, rest: string)
    requires c !in a
    ensures SplitOn(a + [c] + rest, c) == [a] + SplitOn(rest, c)
  {
    var s := a + [c] + rest;
    IndexOfAfter(a, c, rest);
    assert s[..|a|] == a;
    assert s[|a| + 1..] == rest;
  }

  lemma IndexOfAbsent(s: string, c: char)
    requires c !in s
    ensures IndexOf(s, c) == |s|
  {
  }

  /** Text that splits into more than one part holds the separator. */
  lemma SplitNeedsSeparator(s: string, c: char)
    ensures |SplitOn(s, c)| > 1 ==> c in s
  {
    if c !in s {
      SplitAbsent(s, c);
    }
  }

  /** Text without the separator splits into itself alone. */
  lemma SplitAbsent(s: string, c: char)
    requires c !in s
    ensures SplitOn(s, c) == [s]
  {
    IndexOfAbsent(s, c);
  }

  lemma {:induction false} IndexOfAfter(a: string, c: char, b: string)
    requires c !in a
    ensures IndexOf(a + [c] + b, c) == |a|
    decreases |a|
  {
    if a != [] {
      assert (a + [c] + b)[1..] == a[1..] + [c] + b;
      IndexOfAfter(a[1..], c, b);
    }
  }

  /** `xs[:n]` with Python's slice rules: a negative `n` counts from the end. */
  function TakePy<T>(xs: seq<T>, n: int): (r: seq<T>)
    ensures |r| <= |xs| && r == xs[..|r|]
    ensures |r| == if n >= 0 then (if n <= |xs| then n else |xs|) else (if -n <= |xs| then |xs| + n else 0)
  {
    if n >= 0 then (if n <= |xs| then xs[..n] else xs)
    else if -n <= |xs| then xs[..|xs| + n]
    else []
  }
}
