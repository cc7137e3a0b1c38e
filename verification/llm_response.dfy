/**
 * The back end's handling of the language model: the prompt it sends
 * (`create_prompt`) and the clean-up of the reply (`clean_response`), which
 * removes one surrounding Markdown code fence.
 */
module LlmResponse {
  import opened PyStr

  const HtmlFence: string := "```html"
  const Fence: string := "```"

  /** Python's `t[7:-3]` and `t[3:-3]` on a text fenced on both sides. */
  function Inner(t: string, open: nat): (r: string)
    ensures open + 3 <= |t| ==> r == t[open..|t| - 3]
    ensures |t| < open + 3 ==> r == []
  {
    Slice(t, open, -3)
  }

  /** A text that opens with ```` ```html ```` and closes with ```` ``` ````
      has at least ten characters: the closing fence cannot overlap `html`. */
  lemma HtmlFencedLength(t: string)
    ensures StartsWith(t, HtmlFence) && EndsWith(t, Fence) ==> 10 <= |t|
  {
    if StartsWith(t, HtmlFence) && |t| < 10 {
      assert t[|t| - 3] == HtmlFence[|t| - 3] != '`';
    }
  }

  /** The fence removal `clean_response` applies to the already stripped reply. */
  function Unfence(t: string): (r: string)
    ensures IsStripped(t) ==> IsStripped(r)
    ensures |r| <= |t|
    ensures StartsWith(t, HtmlFence) && EndsWith(t, Fence) ==> 10 <= |t| && r == Strip(t[7..|t| - 3])
    ensures !StartsWith(t, HtmlFence) && StartsWith(t, Fence) && EndsWith(t, Fence) ==>
      (|t| < 6 ==> r == []) && (6 <= |t| ==> r == Strip(t[3..|t| - 3]))
    ensures !(StartsWith(t, Fence) && EndsWith(t, Fence)) ==> r == t
  {
    HtmlFencedLength(t);
    HtmlFenceIsFence(t);
    if StartsWith(t, HtmlFence) && EndsWith(t, Fence) then Strip(Inner(t, 7))
    else if StartsWith(t, Fence) && EndsWith(t, Fence) then Strip(Inner(t, 3))
    else t
  }

  /** ```` ```html ```` begins with ```` ``` ````. */
  lemma HtmlFenceIsFence(t: string)
    ensures StartsWith(t, HtmlFence) ==> StartsWith(t, Fence)
  {
    if StartsWith(t, HtmlFence) {
      assert t[..3] == t[..7][..3];
    }
  }

  /** `clean_response(response_text)`: strip, then remove one fence. */
  function CleanResponse(response: string): (r: string)
    ensures IsStripped(r) && |r| <= |response|
    ensures var t := Strip(response);
      StartsWith(t, HtmlFence) && EndsWith(t, Fence) ==> 10 <= |t| && r == Strip(t[7..|t| - 3])
    ensures var t := Strip(response);
      !StartsWith(t, HtmlFence) && StartsWith(t, Fence) && EndsWith(t, Fence) ==>
        (|t| < 6 ==> r == []) && (6 <= |t| ==> r == Strip(t[3..|t| - 3]))
    ensures var t := Strip(response);
      !(StartsWith(t, Fence) && EndsWith(t, Fence)) ==> r == t
  {
    Unfence(Strip(response))
  }

  /** A text that neither starts nor ends with whitespace is its own `strip()`. */
  lemma StripUnpadded(t: string)
    ensures IsStripped(t) ==> Strip(t) == t
  {
    if IsStripped(t) && |t| > 0 {
      assert LStrip(t) == t;
      assert RStrip(t) == t;
    }
  }

  /** A text between an opening and a closing marker. */
  lemma Wrapped(open: string, body: string, close: string)
    ensures var t := open + body + close;
      StartsWith(t, open) && EndsWith(t, close) && t[|open|..|t| - |close|] == body
  {
    var t := open + body + close;
    assert t[..|open|] == open;
    assert t[|t| - |close|..] == close;
    assert t[|open|..|t| - |close|] == body;
  }

  /** Text between backticks is unchanged by `strip()`, so cleaning it is
      just removing the fence. */
  lemma CleanBackticked(t: string)
    requires |t| > 0 && t[0] == '`' && t[|t| - 1] == '`'
    ensures CleanResponse(t) == Unfence(t)
  {
    StripUnpadded(t);
    assert Strip(t) == t;
    assert CleanResponse(t) == Unfence(Strip(t));
  }

  /** Wrapping a reply in an `html` code fence and cleaning it gives back the
      trimmed reply. */
  lemma CleanHtmlFenced(body: string)
    ensures CleanResponse(HtmlFence + body + Fence) == Strip(body)
  {
    var t := HtmlFence + body + Fence;
    Wrapped(HtmlFence, body, Fence);
    CleanBackticked(t);
  }

  /** The same for a bare code fence, as long as the reply does not itself
      start with `html`, which would make it an `html` fence. */
  lemma CleanPlainFenced(body: string)
    ensures !StartsWith(body, "html") ==> CleanResponse(Fence + body + Fence) == Strip(body)
  {
    var t := Fence + body + Fence;
    Wrapped(Fence, body, Fence);
    CleanBackticked(t);
    HtmlAfterFence(body);
  }

  /** A bare fence opens an `html` fence exactly when the text after it starts with `html`. */
  lemma HtmlAfterFence(body: string)
    ensures StartsWith(Fence + body + Fence, HtmlFence) ==> StartsWith(body, "html")
  {
    var t := Fence + body + Fence;
    if |body| >= 4 {
      assert body[..4] == t[3..7];
    } else {
      assert t[3 + |body|] == '`' != HtmlFence[3 + |body|];
    }
  }

  /** Only one fence is removed: a reply fenced twice keeps its inner fence. */
  lemma OneFenceRemoved(x: string)
    ensures CleanResponse(Fence + HtmlFence + x + Fence + Fence) == HtmlFence + x + Fence
  {
    var body := HtmlFence + x + Fence;
    assert Fence + HtmlFence + x + Fence + Fence == Fence + body + Fence;
    assert body[0] == '`' && body[|body| - 1] == '`';
    CleanBacktickedBody(body);
  }

  /** A fenced reply whose inside begins and ends with a backtick cleans to that inside. */
  lemma CleanBacktickedBody(body: string)
    requires 0 < |body| && body[0] == '`' && body[|body| - 1] == '`'
    ensures CleanResponse(Fence + body + Fence) == body
  {
    assert !StartsWith(body, "html") by { assert body[0] != 'h'; }
    CleanPlainFenced(body);
    assert !IsSpace('`');
    StripUnpadded(body);
  }

  /** A reply of three to six backticks only is a bare fence whose inside is
      empty, so it cleans to nothing. */
  lemma BareBackticksCleanToEmpty(n: nat)
    requires 3 <= n <= 6
    ensures CleanResponse(seq(n, _ => '`')) == []
  {
    var t := seq(n, _ => '`');
    assert !IsSpace('`');
    StripUnpadded(t);
    assert t[..3] == Fence && t[n - 3..] == Fence;
    assert !StartsWith(t, HtmlFence) by { assert |t| < |HtmlFence|; }
  }

  /** The opening `html` fence alone does not end with a fence, so it is kept. */
  lemma HtmlFenceAloneKept()
    ensures CleanResponse(HtmlFence) == HtmlFence
  {
    UnclosedKept(HtmlFence);
  }

  /** A trimmed reply that does not end with a fence comes back unchanged. */
  lemma UnclosedKept(t: string)
    requires 4 <= |t| && t[0] == '`' && t[|t| - 1] != '`' && !IsSpace(t[|t| - 1])
    ensures CleanResponse(t) == t
  {
    StripUnpadded(t);
    assert !EndsWith(t, Fence) by { assert t[|t| - 3..][2] != Fence[2]; }
  }

  /** Cleaning twice changes nothing more unless the first pass left a fenced text. */
  lemma CleanSettles(response: string)
    ensures var once := CleanResponse(response);
      !StartsWith(once, Fence) || !EndsWith(once, Fence) ==> CleanResponse(once) == once
  {
    var once := CleanResponse(response);
    StripUnpadded(once);
    assert CleanResponse(once) == Unfence(once);
  }

  /** The fixed text of the prompt, around the three inserted fields. */
  const PromptIntro: string := Concat([
    "I need you to tailor a resume for a specific job and output it in a well-structured HTML format ",
    "that will be converted to PDF using PyPDF2.\n\n",
    "Here is the original resume:\n"])

  const BeforeJob: string := Concat(["\n\nHere is the job description:\n"])

  const BeforeTemplate: string := Concat(["\n\nStyle the resume in a "])

  /** Everything after the template name, one row per source line; each row
      is cut into short literals, which the verifier handles far more cheaply
      than one long literal. */
  const InstructionLines: seq<string> := [
    " template.\n\n",
    "Please analyze ", "the job ", "description and ", "modify the resume ", "to highlight ", "relevant skills ", "and experiences.\n",
    "Focus on:\n",
    "1. Matching ", "keywords from the ", "job description\n",
    "2. Highlighting ", "relevant ", "accomplishments\n",
    "3. Adjusting the ", "summary/objective ", "to match the job\n",
    "4. Prioritizing ", "relevant ", "experience\n",
    "5. Maintain ", "original ", "formatting with ", "bullets points\n",
    "6. Try to keep ", "resulting HTML to ", "one pdf page\n",
    "7. Try to have at ", "least 15 words on ", "each line\n",
    "8. DO NOT ADD ", "YOUR COMMENTS, ", "TREAT AS FINAL ", "DRAFT\n\n",
    "IMPORTANT: Return ", "a well-structured ", "HTML document ", "that follows ", "these specific ", "guidelines:\n\n",
    "1. Include a ", "proper DOCTYPE, ", "<html>, <head>, ", "and <body> tags\n",
    "2. Use <h1> for ", "the name at the ", "top of the resume\n",
    "3. Use a <p> with ", "class=\"contact-info\" ", "for contact ", "information\n",
    "4. Use <div ", "class=\"section\"> ", "to wrap each ", "section\n",
    "5. Use <h2> for ", "section headings ", "(like ", "\"Experience\", ", "\"Education\", ", "\"Skills\")\n",
    "6. For experience ", "entries, use this ", "structure:\n",
    "   <p><strong>Job ", "Title</strong> at ", "<strong>Company</strong>, ", "Location | ", "Date</p>\n",
    "   <p>Brief ", "description of ", "role</p>\n",
    "   <ul>\n",
    "     ", "<li>Achievement/responsibility ", "1</li>\n",
    "     ", "<li>Achievement/responsibility ", "2</li>\n",
    "   </ul>\n",
    "7. For education ", "entries, use this ", "structure:\n",
    "   ", "<p><strong>Degree</strong>, ", "<strong>Institution</strong>, ", "Location | ", "Date</p>\n",
    "   <p>Additional ", "details (GPA, ", "honors, etc.)</p>\n",
    "8. For skills, ", "use either:\n",
    "   ", "<p><strong>Category:</strong> ", "Skill 1, Skill 2, ", "Skill 3</p>\n",
    "   or a simple ", "list:\n",
    "   <ul>\n",
    "     <li>Skill ", "1</li>\n",
    "     <li>Skill ", "2</li>\n",
    "   </ul>\n",
    "9. DO NOT use any ", "links, images, ", "tables, or ", "complex ", "formatting\n",
    "10. No CSS Styles\n",
    "Return ONLY the ", "HTML document, ", "with no ", "additional text, ", "explanations, or ", "markdown ", "formatting."
  ]

  const Instructions: string := Concat(InstructionLines)

  /** The concatenation of a list of strings, as Python joins adjacent literals. */
  function Concat(parts: seq<string>): string
    decreases |parts|
  {
    if |parts| == 0 then [] else parts[0] + Concat(parts[1..])
  }

  /** The fixed parts of a prompt: the text before the résumé, between the
      résumé and the job description, between that and the template name,
      and after the template name. */
  datatype PromptText = PromptText(intro: string, beforeJob: string, beforeTemplate: string, instructions: string)

  const StandardText: PromptText := PromptText(PromptIntro, BeforeJob, BeforeTemplate, Instructions)

  /** The prompt built from fixed text `text` and the three fields. */
  function Fill(text: PromptText, resume: string, job: string, template: string): (r: string)
    ensures |r| == |text.intro| + |resume| + |text.beforeJob| + |job| + |text.beforeTemplate| + |template| + |text.instructions|
    ensures StartsWith(r, text.intro) && EndsWith(r, text.instructions)
  {
    var r := text.intro + resume + text.beforeJob + job + text.beforeTemplate + template + text.instructions;
    assert r[..|text.intro|] == text.intro;
    assert r[|r| - |text.instructions|..] == text.instructions;
    r
  }

  /** `create_prompt(resume_text, job_description, template)`. */
  function CreatePrompt(resume: string, job: string, template: string): (r: string)
    ensures |r| == |PromptIntro| + |resume| + |BeforeJob| + |job| + |BeforeTemplate| + |template| + |Instructions|
    ensures StartsWith(r, PromptIntro) && EndsWith(r, Instructions)
  {
    Fill(StandardText, resume, job, template)
  }

  /** The `n` characters of `p` starting at `at`, or nothing when `p` is too short. */
  function Field(p: string, at: nat, n: nat): string {
    if at + n <= |p| then p[at..at + n] else []
  }

  /** Reading the three fields back out of a prompt built on `text`, given their lengths. */
  function Fields(text: PromptText, p: string, resumeLength: nat, jobLength: nat, templateLength: nat): (string, string, string) {
    var jobAt := |text.intro| + resumeLength + |text.beforeJob|;
    var templateAt := jobAt + jobLength + |text.beforeTemplate|;
    (Field(p, |text.intro|, resumeLength), Field(p, jobAt, jobLength), Field(p, templateAt, templateLength))
  }

  /** Whatever the fixed text, the three fields come back out of the prompt. */
  lemma FillRoundTrip(text: PromptText, resume: string, job: string, template: string)
    ensures Fields(text, Fill(text, resume, job, template), |resume|, |job|, |template|) == (resume, job, template)
  {
    var p := Fill(text, resume, job, template);
    var jobAt := |text.intro| + |resume| + |text.beforeJob|;
    var templateAt := jobAt + |job| + |text.beforeTemplate|;
    assert p[|text.intro|..|text.intro| + |resume|] == resume;
    assert p[jobAt..jobAt + |job|] == job;
    assert p[templateAt..templateAt + |template|] == template;
  }

  /** The prompt loses nothing: knowing the three lengths, the fields come back. */
  lemma PromptRoundTrip(resume: string, job: string, template: string)
    ensures Fields(StandardText, CreatePrompt(resume, job, template), |resume|, |job|, |template|) == (resume, job, template)
  {
    FillRoundTrip(StandardText, resume, job, template);
  }

  /** Two prompts built from fields of the same lengths are equal only when
      the fields are. */
  lemma PromptInjective(a: (string, string, string), b: (string, string, string))
    requires |a.0| == |b.0| && |a.1| == |b.1| && |a.2| == |b.2|
    ensures CreatePrompt(a.0, a.1, a.2) == CreatePrompt(b.0, b.1, b.2) <==> a == b
  {
    FillInjective(StandardText, a, b);
  }

  /** Whatever the fixed text, equal fillings with fields of equal lengths have equal fields. */
  lemma FillInjective(text: PromptText, a: (string, string, string), b: (string, string, string))
    requires |a.0| == |b.0| && |a.1| == |b.1| && |a.2| == |b.2|
    ensures Fill(text, a.0, a.1, a.2) == Fill(text, b.0, b.1, b.2) ==> a == b
  {
    FillRoundTrip(text, a.0, a.1, a.2);
    FillRoundTrip(text, b.0, b.1, b.2);
  }
}
