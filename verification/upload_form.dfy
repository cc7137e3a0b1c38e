/**
 * The résumé upload form of the front end: a drop zone and a hidden file
 * input feeding one selected file, a validation step that accepts only PDF
 * files of at most 5 MB, an error banner, and a submit handler that passes
 * the selected file on. The component's state is a value; each handler is a
 * function from the state and the event's data to the next state.
 */
module UploadForm {
  import opened Optional
  import opened PyStr

  /** The two properties of a browser `File` the form reads. */
  datatype File = File(name: string, size: nat)

  /** `dragActive`, `selectedFile` and `error`, the component's three pieces of state. */
  datatype FormState = FormState(dragActive: bool, selected: Option<File>, error: Option<string>)

  const Initial: FormState := FormState(false, None, None)

  /** 5 MB, the largest accepted size in bytes. */
  const MaxSize: nat := 5 * 1024 * 1024

  const NotPdfMessage: string := "Please upload a PDF file"
  const TooLargeMessage: string := "File size should be less than 5MB"

  /** What the form accepts: a name ending in `.pdf`, compared case-sensitively,
      and a size of at most 5 MB. */
  predicate Acceptable(file: File) {
    EndsWith(file.name, ".pdf") && file.size <= MaxSize
  }

  /** `validateFile`: `None` when the file passes, otherwise the message the
      form shows. The name is checked before the size. */
  function Validate(file: File): (r: Option<string>)
    ensures r.None? <==> Acceptable(file)
    ensures r.Some? ==> r.value in {NotPdfMessage, TooLargeMessage}
    ensures r == Some(TooLargeMessage) ==> EndsWith(file.name, ".pdf")
    ensures !EndsWith(file.name, ".pdf") ==> r == Some(NotPdfMessage)
    ensures EndsWith(file.name, ".pdf") && file.size > MaxSize ==> r == Some(TooLargeMessage)
  {
    if !EndsWith(file.name, ".pdf") then Some(NotPdfMessage)
    else if file.size > MaxSize then Some(TooLargeMessage)
    else None
  }

  /** What the drop and change handlers share: take the first file, if any,
      and either select it and clear the error, or keep the current selection
      and show the error. */
  function Offer(s: FormState, files: seq<File>): (r: FormState)
    ensures r.dragActive == s.dragActive
    ensures |files| == 0 ==> r == s
    ensures |files| > 0 ==> r.error == Validate(files[0])
    ensures |files| > 0 ==> r.selected == (if Acceptable(files[0]) then Some(files[0]) else s.selected)
  {
    if |files| == 0 then s
    else match Validate(files[0])
      case None => s.(selected := Some(files[0]), error := None)
      case Some(message) => s.(error := Some(message))
  }

  /** `handleDrag`: `dragenter` and `dragover` light the drop zone up,
      `dragleave` turns it off, any other event type leaves it alone. */
  function HandleDrag(s: FormState, eventType: string): (r: FormState)
    ensures r.selected == s.selected && r.error == s.error
    ensures eventType in {"dragenter", "dragover"} ==> r.dragActive
    ensures eventType == "dragleave" ==> !r.dragActive
    ensures eventType !in {"dragenter", "dragover", "dragleave"} ==> r == s
  {
    if eventType == "dragenter" || eventType == "dragover" then s.(dragActive := true)
    else if eventType == "dragleave" then s.(dragActive := false)
    else s
  }

  /** `handleDrop`: the drop zone turns off, then the first dropped file is offered. */
  function HandleDrop(s: FormState, files: seq<File>): (r: FormState)
    ensures !r.dragActive
    ensures |files| == 0 ==> r.selected == s.selected && r.error == s.error
    ensures |files| > 0 ==> r.error == Validate(files[0])
    ensures |files| > 0 ==> r.selected == (if Acceptable(files[0]) then Some(files[0]) else s.selected)
  {
    Offer(s.(dragActive := false), files)
  }

  /** `handleChange`: the first file picked in the file input is offered. */
  function HandleChange(s: FormState, files: seq<File>): (r: FormState)
    ensures r.dragActive == s.dragActive
    ensures |files| == 0 ==> r == s
    ensures |files| > 0 ==> r.error == Validate(files[0])
    ensures |files| > 0 ==> r.selected == (if Acceptable(files[0]) then Some(files[0]) else s.selected)
  {
    Offer(s, files)
  }

  /** `removeFile`: the selection is cleared; the drop-zone state and any
      error stay. */
  function RemoveFile(s: FormState): (r: FormState)
    ensures r.selected == None && r.error == s.error && r.dragActive == s.dragActive
  {
    s.(selected := None)
  }

  /** `handleSubmit`: the file handed to `onUpload`, if one is selected. */
  function HandleSubmit(s: FormState): (upload: Option<File>)
    ensures upload.Some? <==> s.selected.Some?
    ensures upload.Some? ==> upload.value == s.selected.value
  {
    s.selected
  }

  /** The form's invariant: the selected file, if any, passed validation. */
  ghost predicate Valid(s: FormState) {
    s.selected.Some? ==> Acceptable(s.selected.value)
  }

  /** The events the component reacts to. */
  datatype Event = Drag(eventType: string) | Drop(files: seq<File>) | Change(files: seq<File>) | Remove | Submit

  /** One event: the next state and the file uploaded by it, if any. */
  function Step(s: FormState, e: Event): (FormState, Option<File>) {
    match e
    case Drag(t) => (HandleDrag(s, t), None)
    case Drop(fs) => (HandleDrop(s, fs), None)
    case Change(fs) => (HandleChange(s, fs), None)
    case Remove => (RemoveFile(s), None)
    case Submit => (s, HandleSubmit(s))
  }

  /** A run of events from a state: the final state and every file uploaded, in order. */
  function Run(s: FormState, events: seq<Event>): (FormState, seq<File>)
    decreases |events|
  {
    if |events| == 0 then (s, [])
    else
      var (next, upload) := Step(s, events[0]);
      var (last, uploads) := Run(next, events[1..]);
      (last, (if upload.Some? then [upload.value] else []) + uploads)
  }

  /** Offering files to a valid form leaves it valid. */
  lemma OfferKeepsValid(s: FormState, files: seq<File>)
    requires Valid(s)
    ensures Valid(Offer(s, files))
  {
  }

  /** Every handler keeps the form valid. */
  lemma StepKeepsValid(s: FormState, e: Event)
    requires Valid(s)
    ensures Valid(Step(s, e).0)
    ensures Step(s, e).1.Some? ==> Acceptable(Step(s, e).1.value)
  {
    match e
    case Drop(fs) => OfferKeepsValid(s.(dragActive := false), fs);
    case Change(fs) => OfferKeepsValid(s, fs);
    case _ =>
  }

  /** Starting from a valid state, whatever the user does, the form stays
      valid and only files that passed validation are ever uploaded. */
  lemma {:induction false} RunUploadsOnlyAcceptable(s: FormState, events: seq<Event>)
    requires Valid(s)
    ensures Valid(Run(s, events).0)
    ensures forall f :: f in Run(s, events).1 ==> Acceptable(f)
    decreases |events|
  {
    if |events| > 0 {
      StepKeepsValid(s, events[0]);
      RunUploadsOnlyAcceptable(Step(s, events[0]).0, events[1..]);
    }
  }

  /** On a valid form, dropping files selects the first one exactly when it is
      acceptable, and clears the error exactly then; otherwise the error is
      the validation message. */
  lemma DropSelectsIffAcceptable(s: FormState, files: seq<File>)
    requires Valid(s) && |files| > 0
    ensures HandleDrop(s, files).selected == Some(files[0]) <==> Acceptable(files[0])
    ensures HandleDrop(s, files).error.None? <==> Acceptable(files[0])
    ensures !Acceptable(files[0]) ==> HandleDrop(s, files).error == Validate(files[0])
  {
  }

  /** A rejected file leaves an earlier selection in place, so the form can
      show a selected file and an error at once. */
  lemma RejectedDropKeepsSelection(good: File, bad: File)
    requires Acceptable(good) && !Acceptable(bad)
    ensures var s := HandleDrop(HandleDrop(Initial, [good]), [bad]);
      s.selected == Some(good) && s.error == Validate(bad) && s.error.Some?
  {
  }

  /** A file of exactly 5 MB is accepted; one byte more is refused with the size message. */
  lemma SizeBoundary(name: string)
    requires EndsWith(name, ".pdf")
    ensures Validate(File(name, MaxSize)) == None
    ensures Validate(File(name, MaxSize + 1)) == Some(TooLargeMessage)
  {
  }

  /** The extension check is case-sensitive: `.PDF` is refused. */
  lemma UpperCaseExtensionRefused()
    ensures Validate(File("resume.PDF", 1)) == Some(NotPdfMessage)
  {
    assert "resume.PDF"[6..] != ".pdf" by { assert "resume.PDF"[7] == 'P'; }
  }
}
