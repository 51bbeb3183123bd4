/** The message composer: a text field, an image picker with its preview, and a PDF picker.
    Submitting turns the composer's contents into up to three sends, PDF first, then image, then
    text, and clears what was sent. The image that is uploaded is read from the picker's file
    input, not from the preview; the picker as written leaves a rejected file in that input, which
    the corrected picker does not (see `PickImageAsWritten` and `PickImage`). */
module Composer {
  import opened Wrappers
  import opened Common
  import opened JsStrings

  /** The composer's state. `imagePreview` is the file whose preview is shown (the preview is that
      file read as a data URL); `imageInput` is the file the hidden image input currently holds. */
  datatype Composer = Composer(text: string, imagePreview: Option<File>, imageInput: Option<File>,
                               pdfFile: Option<File>)

  const Empty: Composer := Composer("", None, None, None)

  /** One store call a submit makes. */
  datatype SendAction = SendPdf(pdf: File) | SendImage(picked: Option<File>) | SendText(body: string)

  /** The order the submit handler makes its calls in. */
  function Rank(a: SendAction): (n: nat)
    ensures n < 3
  {
    match a
    case SendPdf(_) => 0
    case SendImage(_) => 1
    case SendText(_) => 2
  }

  datatype Submitted = Submitted(plan: seq<SendAction>, after: Composer)

  /** Nothing to send: blank text, no image preview and no PDF. Both the send button's `disabled`
      attribute and the submit handler's early return test this. */
  predicate SubmitDisabled(c: Composer) {
    Trim(c.text) == "" && c.imagePreview.None? && c.pdfFile.None?
  }

  /** The calls a submit with something to send makes, given the trimmed text `body`: the PDF if
      one is attached, the image the file input holds if a preview is shown, and the text if it is
      not blank and no preview was shown at the time of the submit. */
  predicate Wanted(c: Composer, body: string, a: SendAction) {
    match a
    case SendPdf(f) => c.pdfFile == Some(f)
    case SendImage(f) => c.imagePreview.Some? && f == c.imageInput
    case SendText(b) => b == body && b != "" && c.imagePreview.None?
  }

  /** Every wanted call, each once, PDF first, then image, then text. */
  function PlanFor(c: Composer, body: string): (plan: seq<SendAction>)
    ensures forall a :: a in plan <==> Wanted(c, body, a)
    ensures forall i, j | 0 <= i < j < |plan| :: Rank(plan[i]) < Rank(plan[j])
  {
    var pdf := if c.pdfFile.Some? then [SendPdf(c.pdfFile.value)] else [];
    var image := if c.imagePreview.Some? then [SendImage(c.imageInput)] else [];
    var text := if body != "" && c.imagePreview.None? then [SendText(body)] else [];
    pdf + image + text
  }

  /** The calls of a submit: the wanted calls for the trimmed text. */
  function Plan(c: Composer): (plan: seq<SendAction>)
    ensures forall a :: a in plan <==> Wanted(c, Trim(c.text), a)
    ensures forall i, j | 0 <= i < j < |plan| :: Rank(plan[i]) < Rank(plan[j])
  {
    PlanFor(c, Trim(c.text))
  }

  /** A text call carries no whitespace at either end. */
  lemma SentTextIsTrimmed(c: Composer)
    ensures forall a | a in Plan(c) && a.SendText? ::
              a.body != "" && !IsWhitespace(a.body[0]) && !IsWhitespace(a.body[|a.body| - 1])
  {
  }

  /** The submit handler. Each store call settles its own errors, so every call in the plan is
      followed by the clearing that comes after it: the PDF and the image are dropped, and the
      text is cleared when it was sent. */
  function HandleSendMessage(c: Composer): (s: Submitted)
    ensures s.plan == [] <==> SubmitDisabled(c)
    ensures SubmitDisabled(c) ==> s.after == c
    ensures !SubmitDisabled(c) ==>
      && s.plan == Plan(c)
      && s.after.pdfFile.None?
      && s.after.imagePreview.None?
      && (c.imagePreview.Some? ==> s.after.imageInput.None?)
      && (c.imagePreview.None? ==> s.after.imageInput == c.imageInput)
      && s.after.text == (if Trim(c.text) != "" && c.imagePreview.None? then "" else c.text)
  {
    if SubmitDisabled(c) then Submitted([], c)
    else
      var plan := Plan(c);
      assert c.pdfFile.Some? || c.imagePreview.Some? || Trim(c.text) != "";
      assert plan != [] by {
        if c.pdfFile.Some? { assert Wanted(c, Trim(c.text), SendPdf(c.pdfFile.value)); }
        else if c.imagePreview.Some? { assert Wanted(c, Trim(c.text), SendImage(c.imageInput)); }
        else { assert Wanted(c, Trim(c.text), SendText(Trim(c.text))); }
      }
      var sent := Trim(c.text) != "" && c.imagePreview.None?;
      var after := Composer(
        if sent then "" else c.text,
        None,
        if c.imagePreview.Some? then None else c.imageInput,
        None);
      Submitted(plan, after)
  }

  function SetText(c: Composer, text: string): (c': Composer)
    ensures c'.text == text
    ensures c'.imagePreview == c.imagePreview && c'.imageInput == c.imageInput
    ensures c'.pdfFile == c.pdfFile
  {
    c.(text := text)
  }

  /** An image file: its type starts with `image/`. */
  predicate IsImageType(f: File) {
    StartsWith(f.mimeType, "image/")
  }

  /** The image picker as written: the input takes whatever the dialog returned; the preview is
      replaced only when a file was returned and its type is an image type. An empty selection
      makes the handler throw before it looks at anything, leaving the preview as it was. */
  function PickImageAsWritten(c: Composer, picked: Option<File>): (c': Composer)
    ensures c'.imageInput == picked
    ensures c'.imagePreview == (if picked.Some? && IsImageType(picked.value) then picked else c.imagePreview)
    ensures c'.text == c.text && c'.pdfFile == c.pdfFile
  {
    var preview := if picked.Some? && IsImageType(picked.value) then picked else c.imagePreview;
    c.(imageInput := picked, imagePreview := preview)
  }

  /** The image picker as evidently intended: a rejected or empty selection leaves the composer
      exactly as it was, input included. */
  function PickImage(c: Composer, picked: Option<File>): (c': Composer)
    ensures picked.Some? && IsImageType(picked.value) ==>
              c'.imageInput == picked && c'.imagePreview == picked
    ensures !(picked.Some? && IsImageType(picked.value)) ==> c' == c
    ensures c'.text == c.text && c'.pdfFile == c.pdfFile
  {
    if picked.Some? && IsImageType(picked.value) then c.(imageInput := picked, imagePreview := picked)
    else c
  }

  /** Removing the image clears the preview and the input. */
  function RemoveImage(c: Composer): (c': Composer)
    ensures c'.imagePreview.None? && c'.imageInput.None?
    ensures c'.text == c.text && c'.pdfFile == c.pdfFile
  {
    c.(imagePreview := None, imageInput := None)
  }

  /** The PDF picker: only a file of type `application/pdf` is kept; anything else, or an empty
      selection, leaves the composer as it was. */
  function PickPdf(c: Composer, picked: Option<File>): (c': Composer)
    ensures picked.Some? && picked.value.mimeType == "application/pdf" ==> c' == c.(pdfFile := picked)
    ensures !(picked.Some? && picked.value.mimeType == "application/pdf") ==> c' == c
  {
    if picked.Some? && picked.value.mimeType == "application/pdf" then c.(pdfFile := picked) else c
  }

  function RemovePdf(c: Composer): (c': Composer)
    ensures c'.pdfFile.None?
    ensures c'.text == c.text && c'.imagePreview == c.imagePreview && c'.imageInput == c.imageInput
  {
    c.(pdfFile := None)
  }

  /** The composer's invariant: whenever a preview is shown, the input holds the previewed file. */
  predicate InputMatchesPreview(c: Composer) {
    c.imagePreview.Some? ==> c.imageInput == c.imagePreview
  }

  /** A user interaction with the composer. */
  datatype Edit = Type(text: string) | ChooseImage(image: Option<File>) | DropImage
                | ChoosePdf(pdf: Option<File>) | DropPdf | Submit

  /** The composer after one interaction, with the corrected image picker. */
  function Apply(c: Composer, e: Edit): (c': Composer)
    ensures InputMatchesPreview(c) ==> InputMatchesPreview(c')
  {
    match e
    case Type(t) => SetText(c, t)
    case ChooseImage(f) => PickImage(c, f)
    case DropImage => RemoveImage(c)
    case ChoosePdf(f) => PickPdf(c, f)
    case DropPdf => RemovePdf(c)
    case Submit => HandleSendMessage(c).after
  }

  function ApplyAll(c: Composer, edits: seq<Edit>): Composer
    decreases |edits|
  {
    if edits == [] then c else ApplyAll(Apply(c, edits[0]), edits[1..])
  }

  /** From the empty composer, any sequence of interactions keeps the invariant, so the image a
      submit uploads is always the one whose preview is shown. */
  lemma {:induction false} ImageSentIsImageShown(c: Composer, edits: seq<Edit>)
    requires InputMatchesPreview(c)
    ensures var c' := ApplyAll(c, edits);
            InputMatchesPreview(c')
            && forall a | a in HandleSendMessage(c').plan && a.SendImage? :: a.picked == c'.imagePreview
    decreases |edits|
  {
    if edits != [] {
      ImageSentIsImageShown(Apply(c, edits[0]), edits[1..]);
    }
  }

  /** With the picker as written, choosing a non-image file after an image leaves the old preview
      on screen while the input holds the rejected file, and the next submit uploads that file. */
  lemma RejectedPickIsUploaded(shown: File, rejected: File)
    requires IsImageType(shown) && !IsImageType(rejected)
    ensures var c := PickImageAsWritten(PickImageAsWritten(Empty, Some(shown)), Some(rejected));
            && c.imagePreview == Some(shown)
            && !InputMatchesPreview(c)
            && HandleSendMessage(c).plan == [SendImage(Some(rejected))]
  {
    var c0 := PickImageAsWritten(Empty, Some(shown));
    assert c0 == Composer("", Some(shown), Some(shown), None);
    var c := PickImageAsWritten(c0, Some(rejected));
    assert c == Composer("", Some(shown), Some(rejected), None);
    assert Trim("") == "";
    assert Plan(c) == [SendImage(Some(rejected))];
  }

  /** A concrete instance: a text file chosen after a PNG. */
  lemma TextFileAfterPng()
    ensures var png := File("cat.png", "image/png", 10);
            var txt := File("notes.txt", "text/plain", 5);
            HandleSendMessage(PickImageAsWritten(PickImageAsWritten(Empty, Some(png)), Some(txt))).plan
              == [SendImage(Some(txt))]
  {
    var png := File("cat.png", "image/png", 10);
    var txt := File("notes.txt", "text/plain", 5);
    assert StartsWith(png.mimeType, "image/");
    assert txt.mimeType[..6][0] != "image/"[0];
    RejectedPickIsUploaded(png, txt);
  }
}
