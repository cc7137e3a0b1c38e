/**
 * `re.findall(r'<TAG[^>]*>(.*?)</TAG>', text, re.DOTALL)` for a literal tag
 * name TAG, the only pattern shape the PDF converter uses.
 *
 * The regular expression admits a match at `pos` with group `text[start..end]`
 * when `<TAG` occurs at `pos`, the attribute run `[^>]*` up to `start - 1`
 * holds no `>`, `text[start - 1]` is `>`, and `</TAG>` occurs at `end`.
 * Python's engine takes the leftmost such `pos`, and there the lazy `.*?`
 * takes the smallest `end`; `findall` then resumes after the closing tag.
 * `Scan` computes this by direct search and `IsScan` states it declaratively.
 */
module TagScan {
  import opened Optional
  import opened PyStr

  function Open(tag: string): string { "<" + tag }

  function Close(tag: string): string { "</" + tag + ">" }

  /** One match: `<TAG` at `pos`, group `text[start..end]`, scanning resumes at `next`. */
  datatype Match = Match(pos: nat, start: nat, end: nat, next: nat, group: string)

  /** The regular expression, read as a relation, admits this match. */
  ghost predicate Admits(text: string, tag: string, pos: nat, start: nat, end: nat) {
    && OccursAt(text, Open(tag), pos)
    && pos + |Open(tag)| < start
    && OccursAt(text, ">", start - 1)
    && (forall k: nat :: pos + |Open(tag)| <= k < start - 1 ==> !OccursAt(text, ">", k))
    && start <= end
    && OccursAt(text, Close(tag), end)
  }

  /** `m` is the match the engine reports at `m.pos`: admitted, with the
      shortest group the lazy `.*?` allows. */
  ghost predicate IsLazyMatch(text: string, tag: string, m: Match) {
    && Admits(text, tag, m.pos, m.start, m.end)
    && (forall e: nat :: Admits(text, tag, m.pos, m.start, e) ==> m.end <= e)
    && m.next == m.end + |Close(tag)|
    && m.group == text[m.start..m.end]
  }

  /** No match of the pattern starts at any position in `[lo, hi)`. */
  ghost predicate NoMatchIn(text: string, tag: string, lo: nat, hi: nat) {
    forall p: nat, start: nat, end: nat :: lo <= p < hi ==> !Admits(text, tag, p, start, end)
  }

  /** `ms` is what `findall` reports when scanning `text` from `from`: each
      match is the leftmost one at or after the end of the previous one, and
      after the last one nothing matches. */
  ghost predicate IsScan(text: string, tag: string, from: nat, ms: seq<Match>)
    decreases |ms|
  {
    if |ms| == 0 then NoMatchIn(text, tag, from, |text| + 1)
    else
      && from <= ms[0].pos
      && NoMatchIn(text, tag, from, ms[0].pos)
      && IsLazyMatch(text, tag, ms[0])
      && IsScan(text, tag, ms[0].next, ms[1..])
  }

  /** The match the engine finds when it tries position `pos`, if any. */
  function MatchAt(text: string, tag: string, pos: nat): (r: Option<Match>)
    ensures r.Some? ==> r.value.pos == pos && IsLazyMatch(text, tag, r.value)
    ensures r.None? ==> NoMatchIn(text, tag, pos, pos + 1)
  {
    if !OccursAt(text, Open(tag), pos) then None
    else match Find(text, ">", pos + |Open(tag)|)
      case None => None
      case Some(g) =>
        match Find(text, Close(tag), g + 1)
        case None => None
        case Some(e) => Some(Match(pos, g + 1, e, e + |Close(tag)|, text[g + 1..e]))
  }

  /** `findall` from position `from`, as match records. */
  function Scan(text: string, tag: string, from: nat): seq<Match>
    decreases |text| - from
  {
    if from >= |text| then []
    else match MatchAt(text, tag, from)
      case Some(m) => [m] + Scan(text, tag, m.next)
      case None => Scan(text, tag, from + 1)
  }

  /** `Scan` reports exactly what `findall` does: the leftmost lazy match at
      or after `from`, then the same from the end of that match, until none is left. */
  lemma {:induction false} ScanCorrect(text: string, tag: string, from: nat)
    ensures IsScan(text, tag, from, Scan(text, tag, from))
    decreases |text| - from
  {
    var ms := Scan(text, tag, from);
    if from >= |text| {
      forall p: nat, start: nat, end: nat | from <= p < |text| + 1
        ensures !Admits(text, tag, p, start, end)
      {
        assert !OccursAt(text, Open(tag), p);
      }
    } else {
      match MatchAt(text, tag, from)
      case Some(m) =>
        ScanCorrect(text, tag, m.next);
        assert ms == [m] + Scan(text, tag, m.next);
        assert ms[1..] == Scan(text, tag, m.next);
      case None =>
        ScanCorrect(text, tag, from + 1);
        assert ms == Scan(text, tag, from + 1);
    }
  }

  /** The captured groups, in order. */
  function Groups(ms: seq<Match>): (gs: seq<string>)
    ensures |gs| == |ms|
    ensures forall i :: 0 <= i < |ms| ==> gs[i] == ms[i].group
  {
    seq(|ms|, i requires 0 <= i < |ms| => ms[i].group)
  }

  /** `re.findall(r'<TAG[^>]*>(.*?)</TAG>', text, re.DOTALL)`. */
  function FindAll(text: string, tag: string): seq<string> {
    Groups(Scan(text, tag, 0))
  }

  /** `FindAll` returns the groups of the one match list the declarative
      description admits. */
  lemma FindAllCorrect(text: string, tag: string, ms: seq<Match>)
    requires IsScan(text, tag, 0, ms)
    ensures FindAll(text, tag) == Groups(ms)
  {
    ScanCorrect(text, tag, 0);
    ScanUnique(text, tag, 0, Scan(text, tag, 0), ms);
  }

  /** At a given position the engine's match is unique: the attribute run ends
      at the first `>`, and the lazy group at the first closing tag. */
  lemma LazyMatchUnique(text: string, tag: string, a: Match, b: Match)
    requires IsLazyMatch(text, tag, a) && IsLazyMatch(text, tag, b) && a.pos == b.pos
    ensures a == b
  {
    assert a.start == b.start;
    assert a.end <= b.end && b.end <= a.end;
  }

  /** `IsScan` pins the result down completely, so `Scan` is the one list of
      matches that satisfies it. */
  lemma {:induction false} ScanUnique(text: string, tag: string, from: nat, a: seq<Match>, b: seq<Match>)
    requires IsScan(text, tag, from, a) && IsScan(text, tag, from, b)
    ensures a == b
    decreases |a|
  {
    if |a| > 0 && |b| > 0 {
      assert a[0].pos == b[0].pos;
      LazyMatchUnique(text, tag, a[0], b[0]);
      ScanUnique(text, tag, a[0].next, a[1..], b[1..]);
      assert a == [a[0]] + a[1..] && b == [b[0]] + b[1..];
    }
  }

  /** Every match begins with `<`, so a text without `<` has none. */
  lemma MatchesNeedAngle(text: string, tag: string, from: nat)
    ensures Scan(text, tag, from) != [] ==> '<' in text
  {
    var ms := Scan(text, tag, from);
    ScanCorrect(text, tag, from);
    if |ms| > 0 {
      assert OccursAt(text, Open(tag), ms[0].pos);
      assert text[ms[0].pos] == '<';
    }
  }
}
