/**
 * `convert_html_to_reportlab`: the PDF generator's translation of the
 * tailored markup into a list of ReportLab flowables. `<br>` becomes a
 * newline; then four fixed patterns are scanned in turn, and the output is
 * grouped by kind (all `h1`, then all `h2`, then all `p`, then the bullets of
 * every `ul`), each block followed by a spacer of fixed height. When nothing
 * matched, the result is one normal paragraph of the tag-stripped text.
 */
module PdfStory {
  import opened PyStr
  import opened HtmlText
  import opened TagScan
  import opened Styles

  /** A ReportLab `Paragraph` with the sheet key it was styled from, or a
      `Spacer` of the given height (its width is always 1). */
  datatype Flowable = Para(text: string, key: StyleKey, style: ParaStyle) | Spacer(height: nat)

  /** Height of the spacer that follows a paragraph of each kind. */
  function SpaceAfter(key: StyleKey): nat {
    match key
    case H1 => 12
    case H2 => 8
    case Normal => 6
    case Bullet => 3
  }

  /** The extra spacer that closes every `<ul>`. */
  const ListEndSpace: nat := 6

  /** Position of each kind in the emission order. */
  function Rank(key: StyleKey): nat {
    match key
    case H1 => 0
    case H2 => 1
    case Normal => 2
    case Bullet => 3
  }

  /** The paragraph text made from one captured group: trimmed, unescaped,
      and for a list item prefixed with a bullet and a space. */
  function BlockText(key: StyleKey, captured: string): string {
    var text := Unescape(Strip(captured));
    if key == Bullet then "\U{2022} " + text else text
  }

  /** Every paragraph is immediately followed by the spacer of its kind. */
  ghost predicate EachParaSpaced(fs: seq<Flowable>) {
    && (|fs| > 0 ==> !fs[|fs| - 1].Para?)
    && forall i, j :: 0 <= i && j == i + 1 < |fs| && fs[i].Para? ==> fs[j] == Spacer(SpaceAfter(fs[i].key))
  }

  ghost predicate AllParasOf(fs: seq<Flowable>, key: StyleKey) {
    forall i :: 0 <= i < |fs| && fs[i].Para? ==> fs[i].key == key
  }

  ghost predicate RanksAtMost(fs: seq<Flowable>, n: nat) {
    forall i :: 0 <= i < |fs| && fs[i].Para? ==> Rank(fs[i].key) <= n
  }

  /** Grouped by kind: no paragraph precedes one of an earlier kind. */
  ghost predicate KindOrdered(fs: seq<Flowable>) {
    forall i, j :: 0 <= i < j < |fs| && fs[i].Para? && fs[j].Para? ==> Rank(fs[i].key) <= Rank(fs[j].key)
  }

  /** Every paragraph carries the sheet's style for its key. */
  ghost predicate StyledBy(fs: seq<Flowable>, sheet: StyleSheet) {
    forall i :: 0 <= i < |fs| && fs[i].Para? ==> fs[i].style == sheet.Get(fs[i].key)
  }

  /** The texts of the paragraphs of `fs`, in order. */
  function ParaTexts(fs: seq<Flowable>): seq<string>
    decreases |fs|
  {
    if |fs| == 0 then []
    else (if fs[0].Para? then [fs[0].text] else []) + ParaTexts(fs[1..])
  }

  lemma {:induction false} ParaTextsConcat(x: seq<Flowable>, y: seq<Flowable>)
    ensures ParaTexts(x + y) == ParaTexts(x) + ParaTexts(y)
    decreases |x|
  {
    if |x| == 0 {
      assert x + y == y;
    } else {
      assert (x + y)[0] == x[0] && (x + y)[1..] == x[1..] + y;
      ParaTextsConcat(x[1..], y);
    }
  }

  /** The paragraph texts one pattern's matches turn into. */
  function Texts(key: StyleKey, captured: seq<string>): seq<string>
    decreases |captured|
  {
    if |captured| == 0 then [] else [BlockText(key, captured[0])] + Texts(key, captured[1..])
  }

  lemma PairShape(captured: string, key: StyleKey, sheet: StyleSheet)
    ensures var pair := [Para(BlockText(key, captured), key, sheet.Get(key)), Spacer(SpaceAfter(key))];
      && ParaTexts(pair) == [BlockText(key, captured)]
      && AllParasOf(pair, key) && EachParaSpaced(pair) && StyledBy(pair, sheet)
  {
    var pair := [Para(BlockText(key, captured), key, sheet.Get(key)), Spacer(SpaceAfter(key))];
    assert pair[1..] == [Spacer(SpaceAfter(key))];
    assert ParaTexts(pair[1..][1..]) == [];
    assert ParaTexts(pair[1..]) == [];
  }

  /** The loop over one pattern's matches: a paragraph and a spacer per match. */
  function Blocks(captured: seq<string>, key: StyleKey, sheet: StyleSheet): (r: seq<Flowable>)
    ensures |r| == 2 * |captured|
    ensures ParaTexts(r) == Texts(key, captured)
    ensures AllParasOf(r, key) && EachParaSpaced(r) && StyledBy(r, sheet)
    decreases |captured|
  {
    if |captured| == 0 then []
    else
      var pair := [Para(BlockText(key, captured[0]), key, sheet.Get(key)), Spacer(SpaceAfter(key))];
      var rest := Blocks(captured[1..], key, sheet);
      PairShape(captured[0], key, sheet);
      ConcatShape(pair, rest, key, sheet);
      ParaTextsConcat(pair, rest);
      pair + rest
  }

  /** The items of one list: `re.findall` of the `li` pattern on the list's group. */
  function Items(ul: string): seq<string> {
    FindAll(ul, "li")
  }

  /** One `<ul>`: a bullet paragraph and spacer per item, then the closing
      spacer, which is there even for a list without items. */
  function ListBlock(ul: string, sheet: StyleSheet): (r: seq<Flowable>)
    ensures |r| == 2 * |Items(ul)| + 1
    ensures r[|r| - 1] == Spacer(ListEndSpace)
    ensures ParaTexts(r) == Texts(Bullet, Items(ul))
    ensures AllParasOf(r, Bullet) && EachParaSpaced(r) && StyledBy(r, sheet)
  {
    var blocks, end := Blocks(Items(ul), Bullet, sheet), [Spacer(ListEndSpace)];
    assert AllParasOf(end, Bullet) && EachParaSpaced(end) && StyledBy(end, sheet);
    ConcatShape(blocks, end, Bullet, sheet);
    SpacerTexts(blocks);
    blocks + end
  }

  /** Total number of items over a sequence of lists. */
  function ItemCount(uls: seq<string>): nat
    decreases |uls|
  {
    if |uls| == 0 then 0 else |Items(uls[0])| + ItemCount(uls[1..])
  }

  lemma ConcatShape(x: seq<Flowable>, y: seq<Flowable>, key: StyleKey, sheet: StyleSheet)
    requires AllParasOf(x, key) && EachParaSpaced(x) && StyledBy(x, sheet)
    requires AllParasOf(y, key) && EachParaSpaced(y) && StyledBy(y, sheet)
    ensures AllParasOf(x + y, key) && EachParaSpaced(x + y) && StyledBy(x + y, sheet)
  {
    SpacedConcat(x, y);
    StyledConcat(x, y, sheet);
    var r := x + y;
    forall i | 0 <= i < |r| && r[i].Para? ensures r[i].key == key {
      if i >= |x| {
        assert r[i] == y[i - |x|];
      }
    }
  }

  lemma StyledConcat(x: seq<Flowable>, y: seq<Flowable>, sheet: StyleSheet)
    requires StyledBy(x, sheet) && StyledBy(y, sheet)
    ensures StyledBy(x + y, sheet)
  {
    var r := x + y;
    forall i | 0 <= i < |r| && r[i].Para? ensures r[i].style == sheet.Get(r[i].key) {
      if i >= |x| {
        assert r[i] == y[i - |x|];
      }
    }
  }

  /** The loop over every `<ul>` match. */
  function ListBlocks(uls: seq<string>, sheet: StyleSheet): (r: seq<Flowable>)
    ensures |r| == 2 * ItemCount(uls) + |uls|
    ensures AllParasOf(r, Bullet) && EachParaSpaced(r) && StyledBy(r, sheet)
    decreases |uls|
  {
    if |uls| == 0 then []
    else
      var first, rest := ListBlock(uls[0], sheet), ListBlocks(uls[1..], sheet);
      ConcatShape(first, rest, Bullet, sheet);
      first + rest
  }

  /** `html_content.replace('<br>', '\n')`: never longer than its input, and
      the identity on text without `<`. */
  function BreaksToNewlines(html: string): (r: string)
    ensures |r| <= |html|
    ensures '<' !in html ==> r == html
  {
    BreaksShrink(html);
    NoAngleNoBreak(html);
    Replace(html, "<br>", "\n")
  }

  /** Without `<` there is no `<br>` to replace. */
  lemma NoAngleNoBreak(s: string)
    ensures '<' !in s ==> Replace(s, "<br>", "\n") == s
  {
    if '<' !in s {
      forall k: nat ensures !OccursAt(s, "<br>", k) {
        if k + 4 <= |s| {
          assert s[k..k + 4][0] == s[k];
        }
      }
      ReplaceAbsent(s, "<br>", "\n");
    }
  }

  /** Each `<br>` becomes one character, so the replacement never lengthens. */
  lemma {:induction false} BreaksShrink(s: string)
    ensures |Replace(s, "<br>", "\n")| <= |s|
    decreases |s|
  {
    if |s| >= 4 {
      if s[..4] == "<br>" {
        BreaksShrink(s[4..]);
      } else {
        BreaksShrink(s[1..]);
      }
    }
  }

  /** As long as the result of `replace('<br>', '\n')` shows no newline, it
      agrees character for character with its input. */
  lemma {:induction false} BreakFreePrefix(t: string, k: nat)
    requires k <= |Replace(t, "<br>", "\n")|
    ensures '\n' !in Replace(t, "<br>", "\n")[..k] ==> k <= |t| && t[..k] == Replace(t, "<br>", "\n")[..k]
    decreases |t|
  {
    var r := Replace(t, "<br>", "\n");
    if |t| < 4 {
      assert r == t;
    } else if t[..4] == "<br>" {
      assert r == "\n" + Replace(t[4..], "<br>", "\n");
      if k > 0 {
        assert r[..k][0] == '\n';
      }
    } else if k > 0 {
      var rest := Replace(t[1..], "<br>", "\n");
      assert r == [t[0]] + rest;
      assert rest[..k - 1] == r[1..k];
      BreakFreePrefix(t[1..], k - 1);
      if '\n' !in r[..k] {
        assert '\n' !in rest[..k - 1] by {
          forall j | 0 <= j < k - 1 ensures rest[j] != '\n' {
            assert rest[j] == r[..k][j + 1];
          }
        }
        assert t[..k] == [t[0]] + t[1..][..k - 1];
        assert r[..k] == [t[0]] + rest[..k - 1];
      }
    }
  }

  lemma NoBreakAtStart(s: string)
    ensures !OccursAt(Replace(s, "<br>", "\n"), "<br>", 0)
  {
    var r := Replace(s, "<br>", "\n");
    if |s| < 4 {
      assert r == s;
    } else if s[..4] == "<br>" {
      assert r[0] == '\n';
    } else {
      var rest := Replace(s[1..], "<br>", "\n");
      assert r == [s[0]] + rest;
      if OccursAt(r, "<br>", 0) {
        assert r[..4] == "<br>";
        assert rest[..3] == r[1..4];
        BreakFreePrefix(s[1..], 3);
      }
    }
  }

  /** The replacement cannot create a new `<br>`: none is left afterwards. */
  lemma {:induction false} NoBreakLeft(s: string)
    ensures NoOccurrence(BreaksToNewlines(s), "<br>")
    decreases |s|
  {
    var r := Replace(s, "<br>", "\n");
    NoBreakAtStart(s);
    if |s| >= 4 {
      var skip := if s[..4] == "<br>" then 4 else 1;
      var rest := Replace(s[skip..], "<br>", "\n");
      assert r == (if skip == 4 then "\n" else [s[0]]) + rest;
      NoBreakLeft(s[skip..]);
      forall i: nat | 1 <= i ensures !OccursAt(r, "<br>", i) {
        assert !OccursAt(rest, "<br>", i - 1);
        if i + 4 <= |r| {
          assert r[i..i + 4] == rest[i - 1..i + 3];
        }
      }
    }
  }

  /** The elements the four scans produce, before the fallback: two per
      `h1`, `h2` and `p` match, two per list item and one more per `ul` match. */
  function Elements(text: string, sheet: StyleSheet): (r: seq<Flowable>)
    ensures |r| == 2 * (|FindAll(text, "h1")| + |FindAll(text, "h2")| + |FindAll(text, "p")|)
                   + 2 * ItemCount(FindAll(text, "ul")) + |FindAll(text, "ul")|
  {
    Blocks(FindAll(text, "h1"), H1, sheet)
    + Blocks(FindAll(text, "h2"), H2, sheet)
    + Blocks(FindAll(text, "p"), Normal, sheet)
    + ListBlocks(FindAll(text, "ul"), sheet)
  }

  /** The single paragraph used when no pattern matched: tags removed, then
      trimmed and unescaped, in the normal style. */
  function Fallback(text: string, sheet: StyleSheet): (r: Flowable)
    ensures r.Para? && r.key == Normal && r.style == sheet.normal
    ensures '<' !in text ==> r.text == Unescape(Strip(text))
  {
    Para(Unescape(Strip(StripTags(text))), Normal, sheet.normal)
  }

  /** `convert_html_to_reportlab(html_content, template)`. */
  function Convert(html: string, template: string): (r: seq<Flowable>)
    ensures |r| >= 1
  {
    var sheet := TemplateStyles(template);
    var text := BreaksToNewlines(html);
    var elements := Elements(text, sheet);
    if |elements| == 0 then [Fallback(text, sheet)] else elements
  }

  /** The story is never empty, is grouped by kind, and every paragraph is
      styled from the template's sheet under its own key. */
  lemma ConvertShape(html: string, template: string)
    ensures KindOrdered(Convert(html, template))
    ensures StyledBy(Convert(html, template), TemplateStyles(template))
  {
    ElementsShape(BreaksToNewlines(html), TemplateStyles(template));
  }

  lemma AppendKind(x: seq<Flowable>, y: seq<Flowable>, key: StyleKey)
    requires KindOrdered(x) && RanksAtMost(x, Rank(key)) && AllParasOf(y, key)
    ensures KindOrdered(x + y) && RanksAtMost(x + y, Rank(key))
  {
    var r := x + y;
    forall i, j | 0 <= i < j < |r| && r[i].Para? && r[j].Para?
      ensures Rank(r[i].key) <= Rank(r[j].key)
    {
      if j >= |x| {
        assert r[j] == y[j - |x|];
        if i >= |x| {
          assert r[i] == y[i - |x|];
        }
      }
    }
  }

  /** Four runs of paragraphs of the four kinds, in emission order, are grouped by kind. */
  lemma FourRunsOrdered(a: seq<Flowable>, b: seq<Flowable>, c: seq<Flowable>, d: seq<Flowable>)
    requires AllParasOf(a, H1) && AllParasOf(b, H2) && AllParasOf(c, Normal) && AllParasOf(d, Bullet)
    ensures KindOrdered(a + b + c + d)
  {
    assert RanksAtMost(a, 0) && KindOrdered(a) by {
      forall i | 0 <= i < |a| && a[i].Para? ensures Rank(a[i].key) <= 0 {
      }
    }
    AppendKind(a, b, H2);
    AppendKind(a + b, c, Normal);
    AppendKind(a + b + c, d, Bullet);
  }

  lemma FourRunsSpacedAndStyled(a: seq<Flowable>, b: seq<Flowable>, c: seq<Flowable>, d: seq<Flowable>, sheet: StyleSheet)
    requires EachParaSpaced(a) && EachParaSpaced(b) && EachParaSpaced(c) && EachParaSpaced(d)
    requires StyledBy(a, sheet) && StyledBy(b, sheet) && StyledBy(c, sheet) && StyledBy(d, sheet)
    ensures EachParaSpaced(a + b + c + d) && StyledBy(a + b + c + d, sheet)
  {
    SpacedConcat(a, b);
    SpacedConcat(a + b, c);
    SpacedConcat(a + b + c, d);
    StyledConcat(a, b, sheet);
    StyledConcat(a + b, c, sheet);
    StyledConcat(a + b + c, d, sheet);
  }

  /** The emitted elements are grouped by kind, each paragraph followed by the
      spacer of its kind and styled from the sheet. */
  lemma ElementsShape(text: string, sheet: StyleSheet)
    ensures KindOrdered(Elements(text, sheet))
    ensures EachParaSpaced(Elements(text, sheet))
    ensures StyledBy(Elements(text, sheet), sheet)
  {
    var a := Blocks(FindAll(text, "h1"), H1, sheet);
    var b := Blocks(FindAll(text, "h2"), H2, sheet);
    var c := Blocks(FindAll(text, "p"), Normal, sheet);
    var d := ListBlocks(FindAll(text, "ul"), sheet);
    assert Elements(text, sheet) == a + b + c + d;
    FourRunsOrdered(a, b, c, d);
    FourRunsSpacedAndStyled(a, b, c, d, sheet);
  }

  lemma SpacedConcat(x: seq<Flowable>, y: seq<Flowable>)
    requires EachParaSpaced(x) && EachParaSpaced(y)
    ensures EachParaSpaced(x + y)
  {
    var r := x + y;
    forall i | 0 <= i < |r| && r[i].Para?
      ensures i + 1 < |r| && r[i + 1] == Spacer(SpaceAfter(r[i].key))
    {
      if i < |x| {
        assert r[i + 1] == x[i + 1];
      } else {
        assert r[i] == y[i - |x|] && r[i + 1] == y[i + 1 - |x|];
      }
    }
  }

  /** The bullet texts of every list, list after list. */
  function ListTexts(uls: seq<string>): seq<string>
    decreases |uls|
  {
    if |uls| == 0 then [] else Texts(Bullet, Items(uls[0])) + ListTexts(uls[1..])
  }

  lemma {:induction false} ListBlocksTexts(uls: seq<string>, sheet: StyleSheet)
    ensures ParaTexts(ListBlocks(uls, sheet)) == ListTexts(uls)
    decreases |uls|
  {
    if |uls| > 0 {
      var first, rest := ListBlock(uls[0], sheet), ListBlocks(uls[1..], sheet);
      assert ListBlocks(uls, sheet) == first + rest;
      ParaTextsConcat(first, rest);
      ListBlocksTexts(uls[1..], sheet);
    }
  }

  lemma SpacerTexts(blocks: seq<Flowable>)
    ensures ParaTexts(blocks + [Spacer(ListEndSpace)]) == ParaTexts(blocks)
  {
    ParaTextsConcat(blocks, [Spacer(ListEndSpace)]);
    assert [Spacer(ListEndSpace)][1..] == [];
  }

  /** The scans produce nothing exactly when none of the four patterns matched. */
  lemma NothingMatched(text: string, sheet: StyleSheet)
    ensures Elements(text, sheet) == []
        <==> FindAll(text, "h1") == [] && FindAll(text, "h2") == []
             && FindAll(text, "p") == [] && FindAll(text, "ul") == []
  {
  }

  /** What the story says: with no match it is the single fallback paragraph;
      otherwise it holds, in order, the `h1` texts, the `h2` texts, the `p`
      texts and the bullets of every list. */
  lemma {:induction false} ConvertTexts(html: string, template: string)
    ensures var text, sheet := BreaksToNewlines(html), TemplateStyles(template);
      Elements(text, sheet) == [] ==> Convert(html, template) == [Fallback(text, sheet)]
    ensures var text, sheet := BreaksToNewlines(html), TemplateStyles(template);
      Elements(text, sheet) != [] ==> Convert(html, template) == Elements(text, sheet)
    ensures var text := BreaksToNewlines(html);
      Elements(text, TemplateStyles(template)) != [] ==>
        ParaTexts(Convert(html, template))
          == Texts(H1, FindAll(text, "h1")) + Texts(H2, FindAll(text, "h2"))
             + Texts(Normal, FindAll(text, "p")) + ListTexts(FindAll(text, "ul"))
  {
    var text, sheet := BreaksToNewlines(html), TemplateStyles(template);
    var a := Blocks(FindAll(text, "h1"), H1, sheet);
    var b := Blocks(FindAll(text, "h2"), H2, sheet);
    var c := Blocks(FindAll(text, "p"), Normal, sheet);
    var d := ListBlocks(FindAll(text, "ul"), sheet);
    assert Elements(text, sheet) == a + b + c + d;
    ParaTextsConcat(a, b);
    ParaTextsConcat(a + b, c);
    ParaTextsConcat(a + b + c, d);
    ListBlocksTexts(FindAll(text, "ul"), sheet);
  }
}
