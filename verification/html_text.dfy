/**
 * Character-level HTML handling used by the back end: Python's
 * `html.escape(s, quote=True)`, the inverse `html.unescape` on the five
 * entities that `escape` produces, the tag stripper `re.sub(r'<[^>]*>', '', s)`
 * of the PDF converter's fallback, and the résumé tailor's
 * "escape, then turn every newline into `<br>`" sanitiser.
 */
module HtmlText {
  import opened Optional
  import opened PyStr

  /** The replacement `html.escape` uses for one character: an entity for the
      five significant characters, the character itself otherwise. */
  function EscapeChar(c: char): (e: string)
    ensures '<' !in e && '>' !in e && '"' !in e && '\'' !in e
    ensures c !in "&<>\"'" ==> e == [c]
    ensures 1 <= |e| && (e[0] == c || e[0] == '&') && (e[|e| - 1] == c || e[|e| - 1] == ';')
  {
    if c == '&' then "&amp;"
    else if c == '<' then "&lt;"
    else if c == '>' then "&gt;"
    else if c == '"' then "&quot;"
    else if c == '\'' then "&#x27;"
    else [c]
  }

  /** `html.escape(s)` with `quote=True`. */
  function Escape(s: string): (r: string)
    ensures '<' !in r && '>' !in r && '"' !in r && '\'' !in r
    decreases |s|
  {
    if |s| == 0 then [] else EscapeChar(s[0]) + Escape(s[1..])
  }

  /** Escaping keeps every newline and adds none. */
  lemma {:induction false} EscapeKeepsNewlines(s: string)
    ensures CountChar(Escape(s), '\n') == CountChar(s, '\n')
    decreases |s|
  {
    if |s| > 0 {
      var head, tail := EscapeChar(s[0]), Escape(s[1..]);
      assert CountChar(head, '\n') == if s[0] == '\n' then 1 else 0;
      CountCharConcat(head, tail, '\n');
      EscapeKeepsNewlines(s[1..]);
    }
  }

  /** `html.unescape`, restricted to the five entities `Escape` emits; every
      other `&` is left as it is. */
  function Unescape(s: string): string
    decreases |s|
  {
    if |s| == 0 then []
    else if s[0] != '&' then [s[0]] + Unescape(s[1..])
    else if StartsWith(s, "&amp;") then "&" + Unescape(s[5..])
    else if StartsWith(s, "&lt;") then "<" + Unescape(s[4..])
    else if StartsWith(s, "&gt;") then ">" + Unescape(s[4..])
    else if StartsWith(s, "&quot;") then "\"" + Unescape(s[6..])
    else if StartsWith(s, "&#x27;") then "'" + Unescape(s[6..])
    else "&" + Unescape(s[1..])
  }

  lemma {:induction false} EscapeConcat(a: string, b: string)
    ensures Escape(a + b) == Escape(a) + Escape(b)
    decreases |a|
  {
    if |a| == 0 {
      assert a + b == b;
    } else {
      assert (a + b)[0] == a[0];
      assert (a + b)[1..] == a[1..] + b;
      EscapeConcat(a[1..], b);
    }
  }

  lemma UnescapeAfterEntity(c: char, rest: string)
    ensures Unescape(EscapeChar(c) + rest) == [c] + Unescape(rest)
  {
    var s := EscapeChar(c) + rest;
    if c == '&' {
      assert StartsWith(s, "&amp;") && s[5..] == rest;
    } else if c == '<' {
      assert !StartsWith(s, "&amp;") by { assert s[1] == 'l'; }
      assert StartsWith(s, "&lt;") && s[4..] == rest;
    } else if c == '>' {
      assert !StartsWith(s, "&amp;") by { assert s[1] == 'g'; }
      assert !StartsWith(s, "&lt;") by { assert s[1] == 'g'; }
      assert StartsWith(s, "&gt;") && s[4..] == rest;
    } else if c == '"' {
      assert s[..5] != "&amp;" by { assert s[1] == 'q'; }
      assert s[..4] != "&lt;" by { assert s[1] == 'q'; }
      assert s[..4] != "&gt;" by { assert s[1] == 'q'; }
      assert StartsWith(s, "&quot;") && s[6..] == rest;
    } else if c == '\'' {
      assert s[..5] != "&amp;" by { assert s[1] == '#'; }
      assert s[..4] != "&lt;" by { assert s[1] == '#'; }
      assert s[..4] != "&gt;" by { assert s[1] == '#'; }
      assert s[..6] != "&quot;" by { assert s[1] == '#'; }
      assert StartsWith(s, "&#x27;") && s[6..] == rest;
    } else {
      assert s[0] == c && s[1..] == rest;
    }
  }

  /** Unescaping undoes escaping: `html.unescape(html.escape(s)) == s`. */
  lemma {:induction false} UnescapeEscape(s: string)
    ensures Unescape(Escape(s)) == s
    decreases |s|
  {
    if |s| > 0 {
      UnescapeAfterEntity(s[0], Escape(s[1..]));
      UnescapeEscape(s[1..]);
    }
  }

  /** Escaping leaves whitespace alone, and the escape of any other
      character neither starts nor ends with whitespace. */
  lemma EscapeCharSpace(c: char)
    ensures IsSpace(c) ==> EscapeChar(c) == [c]
    ensures !IsSpace(c) ==> !IsSpace(EscapeChar(c)[0]) && !IsSpace(EscapeChar(c)[|EscapeChar(c)| - 1])
  {
    if IsSpace(c) {
      assert c !in "&<>\"'";
    }
  }

  /** Escaping never touches whitespace, so it commutes with `lstrip`. */
  lemma {:induction false} EscapeLStrip(s: string)
    ensures LStrip(Escape(s)) == Escape(LStrip(s))
    decreases |s|
  {
    if |s| > 0 {
      var head, tail := EscapeChar(s[0]), Escape(s[1..]);
      assert Escape(s) == head + tail;
      EscapeCharSpace(s[0]);
      if IsSpace(s[0]) {
        assert (head + tail)[0] == s[0] && (head + tail)[1..] == tail;
        EscapeLStrip(s[1..]);
      } else {
        assert (head + tail)[0] == head[0];
        LStripNoop(head + tail);
        LStripNoop(s);
      }
    }
  }

  /** Escaping never touches whitespace, so it commutes with `rstrip`. */
  lemma {:induction false} EscapeRStrip(s: string)
    ensures RStrip(Escape(s)) == Escape(RStrip(s))
    decreases |s|
  {
    if |s| > 0 {
      var init, last := s[..|s| - 1], s[|s| - 1];
      assert s == init + [last];
      EscapeConcat(init, [last]);
      assert Escape([last]) == EscapeChar(last) + Escape([]);
      var front, back := Escape(init), EscapeChar(last);
      assert Escape(s) == front + back;
      EscapeCharSpace(last);
      if IsSpace(last) {
        assert (front + back)[..|front + back| - 1] == front;
        assert (front + back)[|front + back| - 1] == last;
        EscapeRStrip(init);
      } else {
        assert (front + back)[|front + back| - 1] == back[|back| - 1];
        RStripNoop(front + back);
        RStripNoop(s);
      }
    }
  }

  lemma EscapeStrip(s: string)
    ensures Strip(Escape(s)) == Escape(Strip(s))
  {
    EscapeLStrip(s);
    EscapeRStrip(LStrip(s));
  }

  /** `re.sub(r'<[^>]*>', '', s)`: every `<` that has a `>` somewhere after it
      is removed together with everything up to and including the first such
      `>`; a `<` with no `>` after it stays. */
  function StripTags(s: string): (r: string)
    ensures |r| <= |s|
    ensures '<' !in s ==> r == s
    decreases |s|
  {
    if |s| == 0 then []
    else if s[0] == '<' then
      match Find(s, ">", 1)
      case Some(g) => StripTags(s[g + 1..])
      case None => [s[0]] + StripTags(s[1..])
    else
      [s[0]] + StripTags(s[1..])
  }

  /** Searching for one character finds it exactly when it occurs at or
      after the start position. */
  lemma FindChar(s: string, c: char, start: nat)
    requires start <= |s|
    ensures Find(s, [c], start).Some? <==> c in s[start..]
  {
    if Find(s, [c], start).Some? {
      var h := Find(s, [c], start).value;
      assert s[start..][h - start] == s[h..h + 1][0] == c;
    } else {
      forall k | start <= k < |s| ensures s[k] != c {
        assert !OccursAt(s, [c], k);
        assert s[k..k + 1] == [s[k]];
      }
      forall k | 0 <= k < |s| - start ensures s[start..][k] != c {
        assert s[start..][k] == s[start + k];
      }
    }
  }

  /** The stripper keeps only characters of its input, and what it leaves
      holds no `<` followed later by a `>`. */
  lemma {:induction false} StripTagsLeavesNoTag(s: string)
    ensures forall k :: 0 <= k < |StripTags(s)| ==> StripTags(s)[k] in s
    ensures forall i, j :: 0 <= i < j < |StripTags(s)| && StripTags(s)[i] == '<' ==> StripTags(s)[j] != '>'
    decreases |s|
  {
    if |s| > 0 {
      var r := StripTags(s);
      if s[0] == '<' && Find(s, ">", 1).Some? {
        var g := Find(s, ">", 1).value;
        StripTagsLeavesNoTag(s[g + 1..]);
        assert r == StripTags(s[g + 1..]);
        forall k | 0 <= k < |r| ensures r[k] in s {
          assert r[k] in s[g + 1..];
        }
      } else {
        var rest := StripTags(s[1..]);
        StripTagsLeavesNoTag(s[1..]);
        assert r == [s[0]] + rest;
        forall k | 0 <= k < |r| ensures r[k] in s {
          if k > 0 { assert r[k] == rest[k - 1] && rest[k - 1] in s[1..]; }
        }
        if s[0] == '<' {
          FindChar(s, '>', 1);
          forall j | 0 <= j < |rest| ensures rest[j] != '>' {
            assert rest[j] in s[1..];
          }
        }
      }
    }
  }

  /** Text before the first `<` passes through the tag stripper unchanged. */
  lemma {:induction false} StripTagsPlainPrefix(a: string, b: string)
    requires '<' !in a
    ensures StripTags(a + b) == a + StripTags(b)
    decreases |a|
  {
    if |a| == 0 {
      assert a + b == b;
    } else {
      var s, t := a + b, a[1..];
      assert s[0] == a[0] && s[1..] == t + b;
      StripTagsPlainStep(s);
      assert '<' !in t by {
        forall k | 0 <= k < |t| ensures t[k] != '<' {
          assert t[k] == a[k + 1];
        }
      }
      StripTagsPlainPrefix(t, b);
      assert a == [a[0]] + t;
      ConsAppend(a[0], t, StripTags(b), StripTags(s), StripTags(t + b));
    }
  }

  lemma ConsAppend(x: char, t: string, u: string, whole: string, tail: string)
    requires whole == [x] + tail && tail == t + u
    ensures whole == [x] + t + u
  {
  }

  /** One step of the tag stripper over a character that is not `<`. */
  lemma StripTagsPlainStep(s: string)
    requires |s| > 0 && s[0] != '<'
    ensures StripTags(s) == [s[0]] + StripTags(s[1..])
  {
  }

  /** A tag `<…>` whose inside holds no `>` is removed whole. */
  lemma StripTagsTag(x: string, y: string)
    requires '>' !in x
    ensures StripTags("<" + x + ">" + y) == StripTags(y)
  {
    var s := "<" + x + ">" + y;
    var g := |x| + 1;
    assert s[g] == '>' && OccursAt(s, ">", g);
    forall k: nat | 1 <= k < g ensures !OccursAt(s, ">", k) {
      assert s[k] == x[k - 1];
    }
    assert Find(s, ">", 1) == Some(g);
    assert s[g + 1..] == y;
  }

  /** Without any `>`, no tag can close, so every character stays. */
  lemma {:induction false} StripTagsNoClose(s: string)
    requires '>' !in s
    ensures StripTags(s) == s
    decreases |s|
  {
    if |s| > 0 {
      if s[0] == '<' {
        FindChar(s, '>', 1);
        assert '>' !in s[1..];
      }
      StripTagsNoClose(s[1..]);
      assert s == [s[0]] + s[1..];
    }
  }

  /** Every `<` of `r` starts a `<br>`, and `r` has no other `>` than those
      of its `<br>`s. */
  ghost predicate AnglesOnlyInBreaks(r: string) {
    && (forall i :: 0 <= i < |r| && r[i] == '<' ==> OccursAt(r, "<br>", i))
    && CountChar(r, '>') == CountChar(r, '<')
  }

  /** One step of `replace('\n', '<br>')`. */
  lemma NewlineStep(t: string)
    requires |t| > 0
    ensures Replace(t, "\n", "<br>")
         == (if t[0] == '\n' then "<br>" else [t[0]]) + Replace(t[1..], "\n", "<br>")
  {
    assert t[..1] == "\n" <==> t[0] == '\n';
  }

  /** Turning newlines into `<br>` in a text free of `<` leaves no newline and
      inserts one `<` per newline. */
  lemma {:induction false} BreaksCount(t: string)
    requires '<' !in t
    ensures '\n' !in Replace(t, "\n", "<br>")
    ensures CountChar(Replace(t, "\n", "<br>"), '<') == CountChar(t, '\n')
    ensures '>' !in t ==> CountChar(Replace(t, "\n", "<br>"), '>') == CountChar(t, '\n')
    decreases |t|
  {
    if |t| > 0 {
      NewlineStep(t);
      BreaksCount(t[1..]);
      var pre := if t[0] == '\n' then "<br>" else [t[0]];
      CountCharConcat(pre, Replace(t[1..], "\n", "<br>"), '<');
      CountCharConcat(pre, Replace(t[1..], "\n", "<br>"), '>');
    }
  }

  /** Putting a `<br>`, or one character that is not an angle bracket, in
      front of a text keeps every `<` at the start of a `<br>`. */
  lemma OpenAnglesPrepend(pre: string, rest: string)
    requires pre == "<br>" || (|pre| == 1 && pre[0] != '<' && pre[0] != '>')
    requires forall i :: 0 <= i < |rest| && rest[i] == '<' ==> OccursAt(rest, "<br>", i)
    ensures forall i :: 0 <= i < |pre + rest| && (pre + rest)[i] == '<' ==> OccursAt(pre + rest, "<br>", i)
  {
    var r := pre + rest;
    forall i | 0 <= i < |r| && r[i] == '<'
      ensures OccursAt(r, "<br>", i)
    {
      if i >= |pre| {
        assert rest[i - |pre|] == '<';
        assert r[i..i + 4] == rest[i - |pre|..i - |pre| + 4];
      }
    }
  }

  /** In a text free of angle brackets, after `replace('\n', '<br>')` every
      `<` starts an inserted `<br>`. */
  lemma {:induction false} BreaksAngles(t: string)
    requires '<' !in t && '>' !in t
    ensures var r := Replace(t, "\n", "<br>");
      forall i :: 0 <= i < |r| && r[i] == '<' ==> OccursAt(r, "<br>", i)
    decreases |t|
  {
    if |t| > 0 {
      var rr := Replace(t[1..], "\n", "<br>");
      NewlineStep(t);
      BreaksAngles(t[1..]);
      var pre := if t[0] == '\n' then "<br>" else [t[0]];
      OpenAnglesPrepend(pre, rr);
    }
  }

  /** In a text free of `<`, turning every inserted `<br>` back into a newline
      restores the text. */
  lemma {:induction false} BreaksRoundTrip(t: string)
    requires '<' !in t
    ensures Replace(Replace(t, "\n", "<br>"), "<br>", "\n") == t
    decreases |t|
  {
    if |t| > 0 {
      var r := Replace(t, "\n", "<br>");
      var rr := Replace(t[1..], "\n", "<br>");
      NewlineStep(t);
      BreaksRoundTrip(t[1..]);
      if t[0] == '\n' {
        assert r[..4] == "<br>" && r[4..] == rr;
      } else if |r| < 4 {
        assert rr == t[1..];
      } else {
        assert r[..4] != "<br>" by { assert r[0] != '<'; }
        assert r[1..] == rr;
      }
    }
  }

  /** The résumé tailor's sanitiser: `html.escape(text).replace('\n', '<br>')`. */
  function EscapeAndBreak(text: string): (r: string)
    ensures '\n' !in r
    ensures AnglesOnlyInBreaks(r)
    ensures CountChar(r, '<') == CountChar(text, '\n')
    ensures Replace(r, "<br>", "\n") == Escape(text)
  {
    BreaksCount(Escape(text));
    BreaksAngles(Escape(text));
    BreaksRoundTrip(Escape(text));
    EscapeKeepsNewlines(text);
    Replace(Escape(text), "\n", "<br>")
  }
}
