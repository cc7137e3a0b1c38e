/**
 * The few Python `str` operations the back end relies on, with Python's
 * semantics written out: `str.isspace`, `strip`, `startswith`/`endswith`,
 * `replace` and slicing with negative bounds; and `find`, the search
 * behind the regular-expression matches and the tag stripper.
 */
module PyStr {
  import opened Optional

  /** `str.isspace()`: the characters Python classifies as whitespace
      (bidirectional class WS, B or S, or general category Zs). */
  predicate IsSpace(c: char) {
    || ('\t' <= c <= '\r')
    || ('\U{1C}' <= c <= ' ')
    || c == '\U{85}' || c == '\U{A0}' || c == '\U{1680}'
    || ('\U{2000}' <= c <= '\U{200A}')
    || c == '\U{2028}' || c == '\U{2029}' || c == '\U{202F}'
    || c == '\U{205F}' || c == '\U{3000}'
  }

  /** Neither end of `s` is whitespace: what `strip()` guarantees. */
  predicate IsStripped(s: string) {
    |s| == 0 || (!IsSpace(s[0]) && !IsSpace(s[|s| - 1]))
  }

  /** `s.lstrip()`: the longest suffix of `s` that does not start with whitespace. */
  function LStrip(s: string): (r: string)
    ensures |r| <= |s| && r == s[|s| - |r|..]
    ensures forall k :: 0 <= k < |s| - |r| ==> IsSpace(s[k])
    ensures |r| == 0 || !IsSpace(r[0])
    decreases |s|
  {
    if |s| > 0 && IsSpace(s[0]) then LStrip(s[1..]) else s
  }

  /** `s.rstrip()`: the longest prefix of `s` that does not end with whitespace. */
  function RStrip(s: string): (r: string)
    ensures |r| <= |s| && r == s[..|r|]
    ensures forall k :: |r| <= k < |s| ==> IsSpace(s[k])
    ensures |r| == 0 || !IsSpace(r[|r| - 1])
    decreases |s|
  {
    if |s| > 0 && IsSpace(s[|s| - 1]) then RStrip(s[..|s| - 1]) else s
  }

  /** `s.strip()`: a slice of `s` that starts and ends with no whitespace,
      and outside of which `s` holds only whitespace (`StripTrimmed`). */
  function Strip(s: string): (r: string)
    ensures IsStripped(r)
    ensures |r| <= |s|
  {
    RStrip(LStrip(s))
  }

  /** What `strip()` removes: whitespace only, from both ends. */
  lemma StripTrimmed(s: string)
    ensures exists a: nat :: Trimmed(s, a, Strip(s))
  {
    var l := LStrip(s);
    var r := RStrip(l);
    var a: nat := |s| - |l|;
    assert Strip(s) == r;
    assert r == s[a..a + |r|] by {
      assert l == s[a..] && r == l[..|r|];
    }
    forall k | a + |r| <= k < |s| ensures IsSpace(s[k]) {
      assert s[k] == l[k - a];
    }
    assert Trimmed(s, a, r);
  }

  /** `r` is `s[a..a + |r|]`, and every character of `s` outside that slice
      is whitespace. */
  ghost predicate Trimmed(s: string, a: nat, r: string) {
    && a + |r| <= |s|
    && r == s[a..a + |r|]
    && (forall k :: 0 <= k < a ==> IsSpace(s[k]))
    && (forall k :: a + |r| <= k < |s| ==> IsSpace(s[k]))
  }

  /** A text that starts with no whitespace is its own `lstrip`. */
  lemma LStripNoop(s: string)
    requires |s| == 0 || !IsSpace(s[0])
    ensures LStrip(s) == s
  {
  }

  /** A text that ends with no whitespace is its own `rstrip`. */
  lemma RStripNoop(s: string)
    requires |s| == 0 || !IsSpace(s[|s| - 1])
    ensures RStrip(s) == s
  {
  }

  /** Two trimmings of `s` that both start with a non-whitespace character
      start at the same place. */
  lemma TrimmedStart(s: string, a: nat, r: string, b: nat, t: string)
    requires Trimmed(s, a, r) && Trimmed(s, b, t)
    requires |r| > 0 && !IsSpace(r[0]) && |t| > 0 && !IsSpace(t[0])
    ensures a == b
  {
    assert s[a] == r[0] && s[b] == t[0];
  }

  /** Two trimmings of `s` from the same place that both end with a
      non-whitespace character have the same length. */
  lemma TrimmedEnd(s: string, a: nat, r: string, t: string)
    requires Trimmed(s, a, r) && Trimmed(s, a, t)
    requires |r| > 0 && !IsSpace(r[|r| - 1]) && |t| > 0 && !IsSpace(t[|t| - 1])
    ensures |r| == |t|
  {
    assert s[a + |r| - 1] == r[|r| - 1] && s[a + |t| - 1] == t[|t| - 1];
  }

  /** The two conditions of `Strip`'s contract determine the result: a
      stripped slice with only whitespace around it is the result of `strip()`. */
  lemma StripUnique(s: string, a: nat, r: string)
    requires IsStripped(r) && Trimmed(s, a, r)
    ensures Strip(s) == r
  {
    var t := Strip(s);
    StripTrimmed(s);
    var b: nat :| Trimmed(s, b, t);
    if |r| > 0 && |t| > 0 {
      TrimmedStart(s, a, r, b, t);
      TrimmedEnd(s, a, r, t);
    }
  }

  predicate StartsWith(s: string, prefix: string) {
    |prefix| <= |s| && s[..|prefix|] == prefix
  }

  predicate EndsWith(s: string, suffix: string) {
    |suffix| <= |s| && s[|s| - |suffix|..] == suffix
  }

  /** `pat` occurs in `s` starting at index `i`. */
  predicate OccursAt(s: string, pat: string, i: nat) {
    i + |pat| <= |s| && s[i..i + |pat|] == pat
  }

  ghost predicate NoOccurrence(s: string, pat: string) {
    forall i: nat :: !OccursAt(s, pat, i)
  }

  /** `s.find(pat, start)`, with Python's -1 written as `None`. */
  function Find(s: string, pat: string, start: nat): (r: Option<nat>)
    ensures r.Some? ==> start <= r.value && OccursAt(s, pat, r.value)
    ensures r.Some? ==> forall k: nat :: start <= k < r.value ==> !OccursAt(s, pat, k)
    ensures r.None? ==> forall k: nat :: start <= k ==> !OccursAt(s, pat, k)
    decreases |s| - start
  {
    if start + |pat| > |s| then None
    else if OccursAt(s, pat, start) then Some(start)
    else Find(s, pat, start + 1)
  }

  /** `s.replace(pat, repl)`: every leftmost, non-overlapping occurrence of
      `pat` replaced by `repl`; an empty `pat` inserts `repl` around every
      character. `ReplaceAbsent` and `ReplaceAtFirst` state it declaratively. */
  function Replace(s: string, pat: string, repl: string): string
    decreases |s|
  {
    if |pat| == 0 then
      if |s| == 0 then repl else repl + [s[0]] + Replace(s[1..], pat, repl)
    else if |s| < |pat| then s
    else if s[..|pat|] == pat then repl + Replace(s[|pat|..], pat, repl)
    else [s[0]] + Replace(s[1..], pat, repl)
  }

  /** Python's normalisation of one slice bound against a length `n`:
      negative bounds count from the end, out-of-range bounds are clamped. */
  function SliceBound(i: int, n: nat): (b: nat)
    ensures b <= n
    ensures 0 <= i <= n ==> b == i
    ensures 0 - n <= i < 0 ==> b == n + i
    ensures i < 0 - n ==> b == 0
    ensures n < i ==> b == n
  {
    if i < 0 then (if i + n < 0 then 0 else i + n)
    else if i > n then n
    else i
  }

  /** `s[i:j]`: empty whenever the normalised bounds cross. */
  function Slice(s: string, i: int, j: int): (r: string)
    ensures |r| <= |s|
    ensures 0 <= i <= j <= |s| ==> r == s[i..j]
    ensures 0 <= i <= |s| && 0 - |s| <= j < 0 ==> r == (if i < |s| + j then s[i..|s| + j] else [])
    ensures |s| <= i || j <= 0 - |s| ==> r == []
    ensures i < 0 - |s| && 0 <= j <= |s| ==> r == s[..j]
  {
    var a := SliceBound(i, |s|);
    var b := SliceBound(j, |s|);
    if a < b then s[a..b] else []
  }

  /** One step of `replace` past a position where `pat` does not occur. */
  lemma ReplaceStep(s: string, pat: string, repl: string)
    requires 0 < |pat| <= |s| && !OccursAt(s, pat, 0)
    ensures Replace(s, pat, repl) == [s[0]] + Replace(s[1..], pat, repl)
  {
  }

  /** One step of `replace` at an occurrence of `pat`. */
  lemma ReplaceHere(s: string, pat: string, repl: string)
    requires 0 < |pat| && OccursAt(s, pat, 0)
    ensures Replace(s, pat, repl) == repl + Replace(s[|pat|..], pat, repl)
  {
  }

  /** A prefix of `s` in which no occurrence of `pat` starts is copied unchanged. */
  lemma {:induction false} ReplaceKeepsPrefix(s: string, pat: string, repl: string, i: nat)
    requires 0 < |pat| && i <= |s|
    requires forall k: nat :: k < i ==> !OccursAt(s, pat, k)
    ensures Replace(s, pat, repl) == s[..i] + Replace(s[i..], pat, repl)
    decreases i
  {
    if i == 0 {
      assert s[..0] + Replace(s[0..], pat, repl) == Replace(s, pat, repl);
    } else if |s| < |pat| {
      assert s[..i] + s[i..] == s;
    } else {
      var t := s[1..];
      assert !OccursAt(s, pat, 0);
      ReplaceStep(s, pat, repl);
      NoOccurrenceShift(s, pat, i);
      ReplaceKeepsPrefix(t, pat, repl, i - 1);
      assert t[i - 1..] == s[i..];
      PrefixStep(s, i, Replace(s, pat, repl), Replace(t, pat, repl), Replace(s[i..], pat, repl));
    }
  }

  /** Where no occurrence starts in `s[..i]`, none starts in `s[1..][..i - 1]`. */
  lemma NoOccurrenceShift(s: string, pat: string, i: nat)
    requires 0 < i <= |s|
    requires forall k: nat :: k < i ==> !OccursAt(s, pat, k)
    ensures forall k: nat :: k < i - 1 ==> !OccursAt(s[1..], pat, k)
  {
    forall k: nat | k < i - 1 ensures !OccursAt(s[1..], pat, k) {
      assert !OccursAt(s, pat, k + 1);
      if k + |pat| <= |s| - 1 {
        assert s[1..][k..k + |pat|] == s[k + 1..k + 1 + |pat|];
      }
    }
  }

  /** The bookkeeping of `ReplaceKeepsPrefix`'s inductive step. */
  lemma PrefixStep(s: string, i: nat, whole: string, tail: string, rest: string)
    requires 0 < i <= |s|
    requires whole == [s[0]] + tail
    requires tail == s[1..][..i - 1] + rest
    ensures whole == s[..i] + rest
  {
    assert s[..i] == [s[0]] + s[1..][..i - 1];
  }

  /** `replace` of a non-empty `pat` that does not occur returns the text unchanged. */
  lemma ReplaceAbsent(s: string, pat: string, repl: string)
    requires 0 < |pat|
    requires forall k: nat :: !OccursAt(s, pat, k)
    ensures Replace(s, pat, repl) == s
  {
    ReplaceKeepsPrefix(s, pat, repl, |s|);
    assert s[..|s|] == s && s[|s|..] == [];
  }

  /** `replace` keeps the text before the first occurrence of a non-empty
      `pat`, turns that occurrence into `repl`, and treats the rest of the
      text the same way: the leftmost, non-overlapping reading. */
  lemma ReplaceAtFirst(s: string, pat: string, repl: string, i: nat)
    requires 0 < |pat| && i + |pat| <= |s| && OccursAt(s, pat, i)
    requires forall k: nat :: k < i ==> !OccursAt(s, pat, k)
    ensures Replace(s, pat, repl) == s[..i] + repl + Replace(s[i + |pat|..], pat, repl)
  {
    ReplaceKeepsPrefix(s, pat, repl, i);
    var t := s[i..];
    assert OccursAt(t, pat, 0) by {
      assert t[..|pat|] == s[i..i + |pat|];
    }
    ReplaceHere(t, pat, repl);
    assert t[|pat|..] == s[i + |pat|..];
  }

  /** Number of occurrences of the character `c` in `s`. */
  function CountChar(s: string, c: char): (n: nat)
    ensures n <= |s|
    ensures n == 0 <==> c !in s
    decreases |s|
  {
    if |s| == 0 then 0 else (if s[0] == c then 1 else 0) + CountChar(s[1..], c)
  }

  lemma {:induction false} CountCharConcat(a: string, b: string, c: char)
    ensures CountChar(a + b, c) == CountChar(a, c) + CountChar(b, c)
    decreases |a|
  {
    if |a| == 0 {
      assert a + b == b;
    } else {
      assert (a + b)[1..] == a[1..] + b;
      CountCharConcat(a[1..], b, c);
    }
  }

  /** `strip()` is idempotent. */
  lemma StripIdempotent(s: string)
    ensures Strip(Strip(s)) == Strip(s)
  {
    var t := Strip(s);
    LStripNoop(t);
    RStripNoop(t);
  }
}
