# ResumeTailor core, modelled in Dafny

ResumeTailor takes an uploaded résumé PDF and a job description, asks a
language model for a tailored résumé in HTML, and renders that HTML as a PDF
in one of four templates. This project models the parts of that path that
are plain logic:

- the upload form of the front end (`upload-form.tsx`): file validation,
  the drag, drop, change, remove and submit handlers;
- the prompt and reply clean-up of `logic.py` (`create_prompt`,
  `clean_response`), which belong to that file's own `tailor_resume`; `app.py`
  does not call it and uses the tailor of `resume_tailor.py` instead, which
  sends its own prompt and does not clean the reply;
- the résumé tailor's sanitiser, `html.escape(reply).replace('\n', '<br>')`
  (`resume_tailor.py`);
- the PDF generator's translation of HTML into ReportLab flowables
  (`convert_html_to_reportlab`) and its template style table
  (`get_template_styles`) in `pdf_generator.py`.

Modules, one per file:

| module | file | what it holds |
|---|---|---|
| `Optional` | `optional.dfy` | `Option` |
| `PyStr` | `pystr.dfy` | Python's `isspace`, `strip`, `startswith`, `endswith`, `find`, `replace` and slicing with negative bounds |
| `HtmlText` | `html_text.dfy` | `html.escape`, `html.unescape` on the five entities `escape` emits, the tag stripper `re.sub(r'<[^>]*>', '', s)`, and the escape-and-break sanitiser |
| `TagScan` | `tag_scan.dfy` | `re.findall(r'<TAG[^>]*>(.*?)</TAG>', s, re.DOTALL)`, computed by search and specified declaratively (leftmost, lazy, non-overlapping) |
| `Styles` | `styles.dfy` | the four template style sheets and the fallback to `professional` |
| `PdfStory` | `pdf_story.dfy` | `convert_html_to_reportlab` |
| `LlmResponse` | `llm_response.dfy` | `create_prompt` and `clean_response` |
| `UploadForm` | `upload_form.dfy` | the upload component's state and handlers |
| `Pipeline` | `pipeline.dfy` | the tailor's output fed to the converter, as `app.py` wires them |

Things the proofs bring out about the code as written:

- The converter emits all `h1` paragraphs first, then all `h2`, then all
  `p`, then the bullets of every `ul`, whatever their order in the document
  (`PdfStory.ConvertShape`, `PdfStory.ConvertTexts`), so the story does not
  follow the document's order.
- The tailor that `app.py` uses escapes the model's reply before the
  converter sees it, so no `<` survives except those of the inserted `<br>`
  breaks. None of the four patterns can then match, and the flowable list
  handed to ReportLab is always one normal paragraph holding the trimmed
  reply verbatim, tags and all (`Pipeline.TailoredReplyIsOneParagraph`).
  What ReportLab makes of that paragraph's markup is not modelled.
- `clean_response` removes one fence only, and a reply that is nothing but
  three to six backticks cleans to the empty string; ```` ```html ```` on its
  own does not end with a fence and is kept as it is
  (`LlmResponse.OneFenceRemoved`, `LlmResponse.BareBackticksCleanToEmpty`,
  `LlmResponse.HtmlFenceAloneKept`).
- A rejected file leaves an earlier selection in place, so the form can
  show a selected file and an error message together
  (`UploadForm.RejectedDropKeepsSelection`).

## Model

| member | source | states |
|---|---|---|
| PyStr.LStrip | backend/services/pdf_generator.py:42 | `lstrip` removes exactly the leading run of Python whitespace: the result is a suffix, every dropped character is whitespace, and the result does not start with whitespace |
| PyStr.RStrip | backend/services/pdf_generator.py:42 | `rstrip` removes exactly the trailing run of whitespace: the result is a prefix, every dropped character is whitespace, and the result does not end with whitespace |
| PyStr.Strip | backend/services/logic.py:82 | `strip` never lengthens its input, and its result neither starts nor ends with whitespace |
| PyStr.StripTrimmed | backend/services/pdf_generator.py:42 | the stripped text is a contiguous piece of the input with only whitespace before and after it |
| PyStr.StripUnique | backend/services/pdf_generator.py:42 | any piece of the input that has only whitespace around it and neither starts nor ends with whitespace is exactly what `strip` returns |
| PyStr.StripIdempotent | backend/services/logic.py:82 | stripping twice is the same as stripping once |
| PyStr.Find | backend/services/pdf_generator.py:40 | `find` returns the first occurrence at or after the start position, or nothing when there is none |
| PyStr.SliceBound | backend/services/logic.py:84 | a slice bound counts from the start when non-negative and from the end when negative, and is clamped into `0..n` when it falls outside |
| PyStr.Slice | backend/services/logic.py:84 | `s[i:j]` with bounds inside the text is the plain slice; a negative end counts from the end and gives nothing once it is at or before the start; a start at or past the end, or an end at or before `-len(s)`, gives nothing; a start before `-len(s)` is clamped to 0 |
| PyStr.ReplaceAbsent | backend/services/pdf_generator.py:37 | `replace` leaves a text without any occurrence of the pattern unchanged |
| PyStr.ReplaceAtFirst | backend/services/pdf_generator.py:37 | `replace` copies the text up to the first occurrence, writes the replacement for it, and carries on after that occurrence, so occurrences never overlap |
| HtmlText.Escape | backend/services/resume_tailor.py:54 | the escaped text contains no `<`, `>`, `"` or `'` |
| HtmlText.EscapeKeepsNewlines | backend/services/resume_tailor.py:54 | escaping keeps every newline and adds none |
| HtmlText.UnescapeEscape | backend/services/pdf_generator.py:42 | `html.unescape(html.escape(s)) == s` |
| HtmlText.EscapeStrip | backend/services/pdf_generator.py:69 | escaping commutes with `strip`, because it never touches whitespace |
| HtmlText.StripTags | backend/services/pdf_generator.py:68 | the tag stripper never lengthens its input and is the identity on text without `<` |
| HtmlText.StripTagsPlainPrefix | backend/services/pdf_generator.py:68 | text before the first `<` is kept as it is |
| HtmlText.StripTagsTag | backend/services/pdf_generator.py:68 | a `<` with a later `>` and no `>` between them is removed together with everything up to that `>` |
| HtmlText.StripTagsNoClose | backend/services/pdf_generator.py:68 | text without any `>` is kept whole, stray `<` included |
| HtmlText.StripTagsLeavesNoTag | backend/services/pdf_generator.py:68 | every character of the result comes from the input, and no `<` in the result is followed later by `>` |
| HtmlText.BreaksRoundTrip | backend/services/resume_tailor.py:54 | on text without `<`, turning the inserted `<br>` back into newlines restores the text |
| HtmlText.EscapeAndBreak | backend/services/resume_tailor.py:54 | the sanitised reply has no newline, every `<` in it starts a `<br>` and it has as many `>` as `<`, there is one `<` per newline of the reply, and replacing `<br>` by newlines gives the escaped reply |
| TagScan.MatchAt | backend/services/pdf_generator.py:40 | the match found at a position is the regular expression's lazy match there: the attribute run ends at the first `>`, the group ends at the first closing tag; no match is reported only when none exists |
| TagScan.ScanCorrect | backend/services/pdf_generator.py:40 | the scan reports the leftmost match at or after the current position, resumes after its closing tag, and stops when no match remains |
| TagScan.ScanUnique | backend/services/pdf_generator.py:40 | the declarative description of `findall` admits exactly one list of matches |
| TagScan.FindAllCorrect | backend/services/pdf_generator.py:40 | the groups `findall` returns are those of the one leftmost, lazy, non-overlapping list of matches |
| TagScan.MatchesNeedAngle | backend/services/pdf_generator.py:40-60 | a text without `<` has no match for any tag |
| Styles.TemplateStyles | backend/services/pdf_generator.py:75-208 | `h1` is centred and `h2` is not; parents are `Heading1`, `Heading2` and `Normal`; the bullet style has the normal style's size and leading; bullets are indented 15 points in `minimal` and 20 otherwise; only `executive` uses Times-Roman; heading sizes exceed the body size |
| Styles.UnknownTemplateIsProfessional | backend/services/pdf_generator.py:200-201 | an unrecognised template name gets the `professional` sheet |
| Styles.KnownTemplatesDistinct | backend/services/pdf_generator.py:78-198 | the four recognised templates give four different sheets |
| PdfStory.Blocks | backend/services/pdf_generator.py:41-44 | each match gives a paragraph styled by its key followed by the spacer of its kind, and the paragraph texts are the trimmed, unescaped groups in match order |
| PdfStory.ListBlock | backend/services/pdf_generator.py:59-65 | one list gives a bullet paragraph and a 3-point spacer per item, then a closing 6-point spacer even when it has no items; its paragraph texts are its items' texts, each after a bullet and a space |
| PdfStory.ListBlocks | backend/services/pdf_generator.py:58-65 | all lists together give two elements per item plus one per list, all bullets, each followed by its spacer |
| PdfStory.BreaksToNewlines | backend/services/pdf_generator.py:37 | replacing `<br>` by a newline never lengthens the text and changes nothing in text without `<` |
| PdfStory.NoBreakLeft | backend/services/pdf_generator.py:37 | after replacing `<br>` by newlines no `<br>` is left, not even one formed across a replacement |
| PdfStory.BreakFreePrefix | backend/services/pdf_generator.py:37 | up to the first newline it produces, the replacement copies its input unchanged |
| PdfStory.Convert | backend/services/pdf_generator.py:35-72 | the converter always returns at least one flowable |
| PdfStory.ConvertShape | backend/services/pdf_generator.py:38-70 | the output is grouped by kind (`h1`, `h2`, `p`, bullets) and every paragraph carries the template's style for its kind |
| PdfStory.ElementsShape | backend/services/pdf_generator.py:40-65 | before the fallback, every paragraph is immediately followed by the spacer of its kind (12, 8, 6 or 3 points) |
| PdfStory.Elements | backend/services/pdf_generator.py:38-65 | two elements per `h1`, `h2` and `p` match, two per list item, one more per list |
| PdfStory.Fallback | backend/services/pdf_generator.py:67-70 | the fallback is one paragraph in the template's normal style; for text without `<` it holds the unescaped, trimmed text |
| PdfStory.NothingMatched | backend/services/pdf_generator.py:67 | the scans produce no element exactly when none of the four patterns matched |
| PdfStory.ConvertTexts | backend/services/pdf_generator.py:35-72 | with no match the output is the single fallback paragraph; otherwise its paragraph texts are the `h1`, `h2`, `p` and bullet texts, in that order |
| PdfStory.ListBlocksTexts | backend/services/pdf_generator.py:58-65 | the bullet texts are those of each list's items, list after list, each prefixed by a bullet and a space |
| LlmResponse.Inner | backend/services/logic.py:84-86 | `t[open:-3]` is the text between the opening and the last three characters, or nothing when the text is too short for both |
| LlmResponse.Unfence | backend/services/logic.py:83-86 | a trimmed text stays trimmed and never grows; an `html` fence leaves the trimmed inside of `[7:-3]`, a bare fence the trimmed inside of `[3:-3]`, or nothing when the text is shorter than six characters, and an unfenced text is returned as it is |
| LlmResponse.CleanResponse | backend/services/logic.py:81-87 | the result is trimmed; a reply fenced with ```` ```html ```` and ```` ``` ```` yields its trimmed inside; a reply in a bare fence yields its trimmed inside, or nothing when shorter than six characters; any other reply is only trimmed |
| LlmResponse.HtmlFencedLength | backend/services/logic.py:83-84 | a text opening with ```` ```html ```` and closing with ```` ``` ```` has at least ten characters, so the slice `[7:-3]` never crosses |
| LlmResponse.CleanHtmlFenced | backend/services/logic.py:83-84 | cleaning a reply wrapped in an `html` fence gives back the trimmed reply |
| LlmResponse.CleanPlainFenced | backend/services/logic.py:85-86 | cleaning a reply wrapped in a bare fence gives back the trimmed reply, unless the reply starts with `html` |
| LlmResponse.BareBackticksCleanToEmpty | backend/services/logic.py:81-87 | a reply of three to six backticks only cleans to the empty string |
| LlmResponse.HtmlFenceAloneKept | backend/services/logic.py:81-87 | a reply that is only the opening ```` ```html ```` fence is returned unchanged |
| LlmResponse.OneFenceRemoved | backend/services/logic.py:81-87 | a reply fenced twice keeps its inner fence |
| LlmResponse.CleanSettles | backend/services/logic.py:81-87 | a second cleaning changes nothing unless the first left a fenced text |
| LlmResponse.CreatePrompt | backend/services/logic.py:20-72 | the prompt starts with the fixed introduction, ends with the fixed instructions, and is as long as the fixed text plus the three fields |
| LlmResponse.PromptRoundTrip | backend/services/logic.py:20-72 | the résumé, job description and template name can be read back from the prompt, given their lengths |
| LlmResponse.PromptInjective | backend/services/logic.py:20-72 | for fields of the same lengths, equal prompts mean equal fields |
| UploadForm.Validate | frontend/src/components/upload-form.tsx:29-42 | a file passes exactly when its name ends in `.pdf` and it is at most 5 MB; a name not ending in `.pdf` gets the not-a-PDF message whatever the size, and a PDF name over 5 MB gets the size message |
| UploadForm.Offer | frontend/src/components/upload-form.tsx:49-55 | offering no file changes nothing; otherwise the error becomes the first file's validation result and the file is selected exactly when it is acceptable, the earlier selection staying otherwise; the drag state is never touched |
| UploadForm.HandleDrag | frontend/src/components/upload-form.tsx:18-27 | `dragenter` and `dragover` activate the drop zone, `dragleave` deactivates it, other types change nothing; selection and error are untouched |
| UploadForm.HandleDrop | frontend/src/components/upload-form.tsx:44-56 | a drop always deactivates the drop zone; the first dropped file is selected when acceptable, else the earlier selection stays, and the error is its validation result; an empty drop changes neither |
| UploadForm.HandleChange | frontend/src/components/upload-form.tsx:58-68 | picking no file changes nothing; otherwise the first file is selected when acceptable, else the earlier selection stays, and the error is its validation result; the drag state is left alone |
| UploadForm.RemoveFile | frontend/src/components/upload-form.tsx:74-79 | removing clears the selection and keeps the error and drag state |
| UploadForm.HandleSubmit | frontend/src/components/upload-form.tsx:81-85 | submitting uploads the selected file, and nothing when none is selected |
| UploadForm.StepKeepsValid | frontend/src/components/upload-form.tsx:44-85 | every handler keeps the selected file acceptable, and a submit uploads only an acceptable file |
| UploadForm.RunUploadsOnlyAcceptable | frontend/src/components/upload-form.tsx:44-85 | from a valid state, any sequence of events keeps the form valid and uploads only files that pass validation |
| UploadForm.DropSelectsIffAcceptable | frontend/src/components/upload-form.tsx:44-56 | a drop selects the first file exactly when it is acceptable and clears the error exactly then; otherwise the error is the validation message |
| UploadForm.RejectedDropKeepsSelection | frontend/src/components/upload-form.tsx:49-55 | after a good drop and then a bad one, the good file stays selected while the error is shown |
| UploadForm.SizeBoundary | frontend/src/components/upload-form.tsx:35-38 | a file of exactly 5 MB passes and one byte more is refused with the size message |
| UploadForm.UpperCaseExtensionRefused | frontend/src/components/upload-form.tsx:30-32 | the extension check is case-sensitive: `.PDF` is refused as not a PDF |
| Pipeline.NoTagsNoElements | backend/services/pdf_generator.py:40-67 | text without `<` produces no element before the fallback |
| Pipeline.TailoredReplyIsOneParagraph | backend/app.py:45-50 | converting the sanitised reply gives exactly one normal paragraph, holding the trimmed reply itself |

## Left out

- `generate_pdf` in `pdf_generator.py` and in `logic.py`: building and writing the PDF with ReportLab or xhtml2pdf, output paths and `uuid` names are I/O.
- ReportLab's own reading of a `Paragraph`'s text as markup is not modelled; a paragraph holds its text as a string.
- `Spacer` width is always 1 in the code and is not recorded; only the height is.
- Fields a style inherits from ReportLab's sample sheet are not modelled; only the fields the table sets are recorded. Colours are tokens.
- HtmlText.Unescape: decodes only the five entities `html.escape` produces; other named and numeric entities are kept as written, because the full HTML5 entity table is outside this model.
- `extract_text_from_pdf` (PyPDF2), the Gemini calls in `tailor_resume` (both files) and the Flask routes in `app.py` are foreign calls or I/O.
- The prompt f-string of `resume_tailor.py` (lines 27-45) is pure text building but outside this model: only its sanitiser on line 54 feeds the converter; the prompt actually modelled is the one of `logic.py`, whose `tailor_resume` (lines 74-79) is the only caller of `create_prompt` and `clean_response` and is not called from `app.py`.
- `handleClick`, `preventDefault`, `stopPropagation`, the rendering of the component, and the reset of the file input's value in `removeFile` are DOM effects.
- PdfStory.Convert: its own contract only promises a non-empty result; the layout is stated by `PdfStory.ConvertShape` and `PdfStory.ConvertTexts`.
- Regular expressions are modelled only for the fixed shapes the code uses: `<TAG[^>]*>(.*?)</TAG>` with `re.DOTALL`, and `<[^>]*>` for the fallback stripper.
