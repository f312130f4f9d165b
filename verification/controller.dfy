/**
 * The upload-and-generate controller: the page state that file selection,
 * drag-and-drop and the "Generate" button change. Reading a file with
 * `FileReader` and the webhook round trip are not performed here: the data
 * URL a read yields travels with the file, and the webhook's answer is an
 * outcome the caller supplies.
 */
module Controller {
  import opened Wrappers
  import opened Text
  import opened Submission

  /**
   * A file from the picker or a drop: its declared MIME type (`file.type`)
   * and the data URL `readAsDataURL` yields for it (absent when reading fails).
   */
  datatype File = File(mimeType: string, dataUrl: Option<string>)

  predicate IsImage(f: File) {
    StartsWith(f.mimeType, "image/")
  }

  /** The alerts the controller raises. */
  datatype Notification =
    | UploadFirst     // "Please upload an image first"
    | EnterPrompt     // "Please enter a design prompt"
    | Generated       // "Concept generated successfully!"
    | GenerateFailed  // "Error generating concept. Please try again."

  /**
   * What the webhook call comes back with: a failure (the network call threw
   * or the status was not ok) or the parsed JSON reply.
   */
  datatype WebhookOutcome = RequestFailed | Responded(reply: Reply)

  /** One visible step the controller takes, in the order it takes them. */
  datatype Effect =
    | LoadingShown(shown: bool)
    | ButtonDisabled(disabled: bool)
    | PreviewShown(src: string)
    | Posted(request: GenerationRequest)
    | Alerted(note: Notification)

  /**
   * The steps of a submission that passed both guards: overlay on, button
   * off, the post (if the file was read), the new preview (on success), the
   * outcome alert, then overlay off and button on.
   */
  function SubmissionEffects(sent: Option<GenerationRequest>, note: Notification,
                             preview: Option<string>): seq<Effect>
    requires note == Generated ==> preview.Some?
  {
    match sent
    case None =>
      [LoadingShown(true), ButtonDisabled(true),
       Alerted(note), LoadingShown(false), ButtonDisabled(false)]
    case Some(request) =>
      if note == Generated then
        [LoadingShown(true), ButtonDisabled(true), Posted(request),
         PreviewShown(preview.value), ButtonDisabled(false),
         Alerted(note), LoadingShown(false), ButtonDisabled(false)]
      else
        [LoadingShown(true), ButtonDisabled(true), Posted(request),
         Alerted(note), LoadingShown(false), ButtonDisabled(false)]
  }

  /**
   * The result of a submission that passed both guards: the request is
   * posted exactly when the file could be read, and it carries the data
   * URL's payload, the prompt, the timestamp and the derived filenames;
   * success is a posted request answered with a usable image URL, which then
   * becomes the preview; every other outcome is the generic failure and
   * leaves the preview as it was.
   */
  ghost predicate Submitted(file: File, prompt: string, filename: string, now: LocalTime,
                            outcome: WebhookOutcome, sent: Option<GenerationRequest>,
                            note: Notification, previewBefore: Option<string>, previewAfter: Option<string>)
  {
    sent == (match file.dataUrl
             case Some(d) => Some(BuildRequest(d, prompt, now, filename))
             case None => None) &&
    (note == Generated <==> sent.Some? && outcome.Responded? && SelectUrl(outcome.reply).Some?) &&
    (note == Generated ==> previewAfter == SelectUrl(outcome.reply)) &&
    (note != Generated ==> note == GenerateFailed && previewAfter == previewBefore)
  }

  /** The log `Submit` builds one append at a time is `SubmissionEffects`. */
  lemma SubmissionLog(before: seq<Effect>, sent: Option<GenerationRequest>, note: Notification,
                      preview: Option<string>)
    requires note == Generated ==> preview.Some? && sent.Some?
    ensures sent.None? ==>
      before + [LoadingShown(true)] + [ButtonDisabled(true)] + [Alerted(note)] +
      [LoadingShown(false)] + [ButtonDisabled(false)] == before + SubmissionEffects(sent, note, preview)
    ensures sent.Some? && note == Generated ==>
      before + [LoadingShown(true)] + [ButtonDisabled(true)] + [Posted(sent.value)] +
      [PreviewShown(preview.value), ButtonDisabled(false)] + [Alerted(note)] +
      [LoadingShown(false)] + [ButtonDisabled(false)] == before + SubmissionEffects(sent, note, preview)
    ensures sent.Some? && note != Generated ==>
      before + [LoadingShown(true)] + [ButtonDisabled(true)] + [Posted(sent.value)] + [Alerted(note)] +
      [LoadingShown(false)] + [ButtonDisabled(false)] == before + SubmissionEffects(sent, note, preview)
  {
  }

  class Controller {
    /** The selected image: at most one, replaced by each accepted file. */
    var uploadedFile: Option<File>
    /** `generateBtn.disabled` */
    var buttonDisabled: bool
    /** Whether the loading overlay is displayed. */
    var loadingVisible: bool
    /** `previewImage.src`, absent while the placeholder is shown. */
    var previewSrc: Option<string>
    /** Every step taken so far, oldest first. */
    ghost var effects: seq<Effect>

    /**
     * The state between two user actions: no overlay, the selected file is
     * an image, a shown preview means an enabled button, and the button is
     * enabled only once an image has been selected.
     */
    ghost predicate Valid()
      reads this
    {
      !loadingVisible &&
      (uploadedFile.Some? ==> IsImage(uploadedFile.value)) &&
      (previewSrc.Some? ==> !buttonDisabled) &&
      (!buttonDisabled ==> uploadedFile.Some?)
    }

    /** The page as loaded: no file, placeholder shown, button disabled, overlay hidden. */
    constructor ()
      ensures Valid()
      ensures uploadedFile == None && buttonDisabled && !loadingVisible && previewSrc == None
      ensures effects == []
    {
      uploadedFile := None;
      buttonDisabled := true;
      loadingVisible := false;
      previewSrc := None;
      effects := [];
    }

    /** `showLoading(show)` */
    method ShowLoading(show: bool)
      modifies this
      ensures loadingVisible == show
      ensures uploadedFile == old(uploadedFile) && buttonDisabled == old(buttonDisabled)
      ensures previewSrc == old(previewSrc)
      ensures effects == old(effects) + [LoadingShown(show)]
    {
      loadingVisible := show;
      effects := effects + [LoadingShown(show)];
    }

    /** `displayPreviewImage(imageUrl)`: show the image and enable the button. */
    method DisplayPreviewImage(imageUrl: string)
      modifies this
      ensures previewSrc == Some(imageUrl) && !buttonDisabled
      ensures uploadedFile == old(uploadedFile) && loadingVisible == old(loadingVisible)
      ensures effects == old(effects) + [PreviewShown(imageUrl), ButtonDisabled(false)]
    {
      previewSrc := Some(imageUrl);
      buttonDisabled := false;
      effects := effects + [PreviewShown(imageUrl), ButtonDisabled(false)];
    }

    /**
     * `handleFileSelect`: the first chosen file, if it is an image, becomes
     * the selected image and, once read, the preview; anything else changes nothing.
     */
    method HandleFileSelect(files: seq<File>)
      requires Valid()
      modifies this
      ensures Valid()
      ensures !(|files| > 0 && IsImage(files[0])) ==> unchanged(this)
      ensures |files| > 0 && IsImage(files[0]) ==>
                uploadedFile == Some(files[0]) &&
                (match files[0].dataUrl
                 case Some(u) =>
                   previewSrc == Some(u) && !buttonDisabled &&
                   effects == old(effects) + [PreviewShown(u), ButtonDisabled(false)]
                 case None =>
                   previewSrc == old(previewSrc) && buttonDisabled == old(buttonDisabled) &&
                   effects == old(effects))
    {
      if |files| > 0 && IsImage(files[0]) {
        var file := files[0];
        uploadedFile := Some(file);
        if file.dataUrl.Some? {
          DisplayPreviewImage(file.dataUrl.value);
        }
      }
    }

    /** `handleDrop`: the same acceptance rule as selection, for the first dropped file. */
    method HandleDrop(files: seq<File>)
      requires Valid()
      modifies this
      ensures Valid()
      ensures !(|files| > 0 && IsImage(files[0])) ==> unchanged(this)
      ensures |files| > 0 && IsImage(files[0]) ==>
                uploadedFile == Some(files[0]) &&
                (match files[0].dataUrl
                 case Some(u) =>
                   previewSrc == Some(u) && !buttonDisabled &&
                   effects == old(effects) + [PreviewShown(u), ButtonDisabled(false)]
                 case None =>
                   previewSrc == old(previewSrc) && buttonDisabled == old(buttonDisabled) &&
                   effects == old(effects))
    {
      if |files| > 0 && IsImage(files[0]) {
        var file := files[0];
        uploadedFile := Some(file);
        if file.dataUrl.Some? {
          DisplayPreviewImage(file.dataUrl.value);
        }
      }
    }

    /**
     * `handleGenerate`. The two guards come first and, when one fails, only
     * raise their alert. Past them the overlay is shown and the button
     * disabled, the request is posted when the file could be read, the
     * preview switches to the selected result URL on success, exactly one
     * outcome alert is raised, and on every path the overlay is hidden and
     * the button enabled again.
     */
    method HandleGenerate(now: LocalTime, promptText: string, filenameField: Option<string>,
                          outcome: WebhookOutcome)
      returns (sent: Option<GenerationRequest>, note: Notification)
      requires Valid()
      modifies this
      ensures Valid()
      ensures uploadedFile == old(uploadedFile)
      ensures old(uploadedFile) == None ==>
                note == UploadFirst && sent == None &&
                buttonDisabled == old(buttonDisabled) && previewSrc == old(previewSrc) &&
                effects == old(effects) + [Alerted(UploadFirst)]
      ensures old(uploadedFile) != None && Trim(promptText) == [] ==>
                note == EnterPrompt && sent == None &&
                buttonDisabled == old(buttonDisabled) && previewSrc == old(previewSrc) &&
                effects == old(effects) + [Alerted(EnterPrompt)]
      ensures old(uploadedFile) != None && Trim(promptText) != [] ==>
                Submitted(old(uploadedFile).value, Trim(promptText), NormalizeFilename(filenameField), now, outcome,
                          sent, note, old(previewSrc), previewSrc) &&
                !loadingVisible && !buttonDisabled &&
                effects == old(effects) + SubmissionEffects(sent, note, previewSrc)
    {
      if uploadedFile == None {
        sent, note := None, UploadFirst;
        effects := effects + [Alerted(note)];
        return;
      }

      var prompt := Trim(promptText);
      if prompt == [] {
        sent, note := None, EnterPrompt;
        effects := effects + [Alerted(note)];
        return;
      }

      var filename := NormalizeFilename(filenameField);
      sent, note := Submit(uploadedFile.value, prompt, filename, now, outcome);
    }

    /**
     * The part of `handleGenerate` after its guards: the `try` block and the
     * `finally` that always hides the overlay and re-enables the button.
     */
    method Submit(file: File, prompt: string, filename: string, now: LocalTime, outcome: WebhookOutcome)
      returns (sent: Option<GenerationRequest>, note: Notification)
      requires Valid() && uploadedFile == Some(file)
      modifies this
      ensures Valid()
      ensures uploadedFile == old(uploadedFile) && !loadingVisible && !buttonDisabled
      ensures Submitted(file, prompt, filename, now, outcome, sent, note, old(previewSrc), previewSrc)
      ensures effects == old(effects) + SubmissionEffects(sent, note, previewSrc)
    {
      sent := None;
      ghost var before := effects;
      ShowLoading(true);
      buttonDisabled := true;
      effects := effects + [ButtonDisabled(true)];

      // try: the timestamp and both filenames are derived from the clock
      // before the file is read; a read failure discards them unseen
      if file.dataUrl == None {
        // the file could not be read: the failure is caught below
        note := GenerateFailed;
        effects := effects + [Alerted(note)];
      } else {
        var request := BuildRequest(file.dataUrl.value, prompt, now, filename);
        sent := Some(request);
        effects := effects + [Posted(request)];
        var imageUrl := if outcome.Responded? then SelectUrl(outcome.reply) else None;
        if imageUrl.Some? {
          DisplayPreviewImage(imageUrl.value);
          note := Generated;
        } else {
          // a failed call, or a reply without an image URL
          note := GenerateFailed;
        }
        effects := effects + [Alerted(note)];
      }

      // finally
      ShowLoading(false);
      buttonDisabled := false;
      effects := effects + [ButtonDisabled(false)];
      SubmissionLog(before, sent, note, previewSrc);
    }
  }
}
