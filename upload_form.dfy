/**
 * The intake form: which input a submission uses, the size ceiling for
 * inline files, the record handed to storage, and the form state around it.
 * The file reader, the identifier generator, the clock, the storage call and
 * the caption service are inputs: their outcomes are parameters.
 */
module UploadForm {
  import opened Wrappers
  import opened JsString
  import opened PaTypes

  /** The longest inline `data:` URL that is still saved (the prefix counts). */
  const MaxEncodedLength := 45000
  const DefaultCaption := "ไม่มีคำอธิบาย"
  const ExternalLinkHint := "ลิงก์ภายนอก"
  const NoFileHint := "ยังไม่ได้ระบุไฟล์"

  /** A file picked in the form; only its name is read directly. */
  datatype SelectedFile = SelectedFile(name: string)

  /** What reading the picked file as a `data:` URL produced. */
  datatype ReadOutcome = ReadOk(dataUrl: string) | ReadFailed

  /** Why a submission stops before anything is saved, one per alert the form raises. */
  datatype Rejection = EmptyLink | CannotReadFile | FileTooLarge | NoFileChosen

  /** The address a submission would save, or why it is refused. */
  function FinalUrl(fileType: FileType, file: Option<SelectedFile>, urlInput: string, read: ReadOutcome): Result<string, Rejection> {
    if fileType == LINK then
      if Trim(urlInput) == [] then Err(EmptyLink) else Ok(urlInput)
    else if file.Some? then
      match read
      case ReadFailed => Err(CannotReadFile)
      case ReadOk(d) => if JsLength(d) > MaxEncodedLength then Err(FileTooLarge) else Ok(d)
    else Err(NoFileChosen)
  }

  /** `caption || 'ไม่มีคำอธิบาย'` */
  function CaptionOrDefault(caption: string): string {
    if caption == [] then DefaultCaption else caption
  }

  /** The record handed to storage. */
  function BuildRecord(id: string, indicator: MenuItem, finalUrl: string, fileType: FileType, now: string, caption: string): PAUpload {
    PAUpload(id, indicator.id, finalUrl, fileType, now, CaptionOrDefault(caption),
             if fileType == IMAGE then Some(finalUrl) else None)
  }

  /** The file name the caption helper is told about. */
  function FileNameHint(file: Option<SelectedFile>, urlInput: string): string {
    match file
    case Some(f) => f.name
    case None => if urlInput != [] then ExternalLinkHint else NoFileHint
  }

  // ---------------------------------------------------------------------------
  // Validation

  /** A link is refused exactly when it is empty or whitespace, and otherwise saved as typed, untrimmed. */
  lemma LinkValidation(file: Option<SelectedFile>, urlInput: string, read: ReadOutcome)
    ensures FinalUrl(LINK, file, urlInput, read) == Err(EmptyLink) <==> IsBlank(urlInput)
    ensures !IsBlank(urlInput) ==> FinalUrl(LINK, file, urlInput, read) == Ok(urlInput)
  {
    TrimEmptyIffBlank(urlInput);
  }

  /** A file kind ignores the link field, and a link ignores the picked file. */
  lemma InputsAreSeparate(fileType: FileType, file: Option<SelectedFile>, u1: string, u2: string, read: ReadOutcome)
    ensures fileType != LINK ==> FinalUrl(fileType, file, u1, read) == FinalUrl(fileType, file, u2, read)
    ensures fileType == LINK ==> FinalUrl(fileType, file, u1, read) == FinalUrl(fileType, None, u1, ReadFailed)
  {
  }

  /** What the caption helper is asked: the indicator title, the file hint and the current caption. */
  datatype CaptionRequest = CaptionRequest(title: string, fileName: string, caption: string)

  // ---------------------------------------------------------------------------
  // The form

  class Form {
    const indicator: MenuItem
    var fileType: FileType
    var file: Option<SelectedFile>
    var urlInput: string
    var caption: string
    var isUploading: bool
    var isGeneratingAI: bool

    /** A fresh form starts on `LINK` with every field empty. */
    constructor(indicator: MenuItem)
      ensures this.indicator == indicator
      ensures fileType == LINK && file == None && urlInput == [] && caption == []
      ensures !isUploading && !isGeneratingAI
    {
      this.indicator := indicator;
      fileType := LINK;
      file := None;
      urlInput := [];
      caption := [];
      isUploading := false;
      isGeneratingAI := false;
    }

    /** The link field's `onChange`. */
    method TypeUrl(u: string)
      modifies this
      ensures urlInput == u
      ensures fileType == old(fileType) && file == old(file) && caption == old(caption)
      ensures isUploading == old(isUploading) && isGeneratingAI == old(isGeneratingAI)
    {
      urlInput := u;
    }

    /** The file picker's `onChange`: the first picked file, or none. */
    method PickFile(f: Option<SelectedFile>)
      modifies this
      ensures file == f
      ensures fileType == old(fileType) && urlInput == old(urlInput) && caption == old(caption)
      ensures isUploading == old(isUploading) && isGeneratingAI == old(isGeneratingAI)
    {
      file := f;
    }

    /** The caption field's `onChange`. */
    method EditCaption(c: string)
      modifies this
      ensures caption == c
      ensures fileType == old(fileType) && file == old(file) && urlInput == old(urlInput)
      ensures isUploading == old(isUploading) && isGeneratingAI == old(isGeneratingAI)
    {
      caption := c;
    }

    /** A type button: the new kind, with the picked file and the link cleared. */
    method SelectType(t: FileType)
      modifies this
      ensures fileType == t && file == None && urlInput == []
      ensures caption == old(caption) && isUploading == old(isUploading) && isGeneratingAI == old(isGeneratingAI)
    {
      fileType := t;
      file := None;
      urlInput := [];
    }

    /**
     * `handleSubmit`. `read` is what the file reader produced, `id` and `now`
     * the generated identifier and timestamp, `saveThrows` whether the storage
     * call failed. `request` is the record handed to storage, `completed`
     * whether the parent was told to refresh, and `refusal` the alert a
     * refused submission raises.
     */
    method Submit(read: ReadOutcome, id: string, now: string, saveThrows: bool)
      returns (request: Option<PAUpload>, completed: bool, refusal: Option<Rejection>)
      modifies this
      ensures refusal == if FinalUrl(old(fileType), old(file), old(urlInput), read).Err?
                         then Some(FinalUrl(old(fileType), old(file), old(urlInput), read).error) else None
      ensures FinalUrl(old(fileType), old(file), old(urlInput), read).Err? ==>
                request == None && !completed
                && file == old(file) && urlInput == old(urlInput) && caption == old(caption)
      ensures FinalUrl(old(fileType), old(file), old(urlInput), read).Ok? ==>
                request == Some(BuildRecord(id, indicator, FinalUrl(old(fileType), old(file), old(urlInput), read).value,
                                            old(fileType), now, old(caption)))
                && completed == !saveThrows
      ensures FinalUrl(old(fileType), old(file), old(urlInput), read).Ok? && !saveThrows ==>
                file == None && urlInput == [] && caption == []
      ensures saveThrows ==> file == old(file) && urlInput == old(urlInput) && caption == old(caption)
      ensures !isUploading
      ensures fileType == old(fileType) && isGeneratingAI == old(isGeneratingAI)
    {
      isUploading := true;
      request := None;
      completed := false;
      refusal := None;
      var finalUrl := [];
      if fileType == LINK {
        if Trim(urlInput) == [] {
          refusal := Some(EmptyLink);
          isUploading := false;
          return;
        }
        finalUrl := urlInput;
      } else if file.Some? {
        match read {
          case ReadFailed =>
            refusal := Some(CannotReadFile);
            isUploading := false;
            return;
          case ReadOk(d) =>
            finalUrl := d;
            if JsLength(finalUrl) > MaxEncodedLength {
              refusal := Some(FileTooLarge);
              isUploading := false;
              return;
            }
        }
      } else {
        refusal := Some(NoFileChosen);
        isUploading := false;
        return;
      }
      request := Some(BuildRecord(id, indicator, finalUrl, fileType, now, caption));
      if !saveThrows {
        file := None;
        urlInput := [];
        caption := [];
        completed := true;
      }
      isUploading := false;
    }

    /**
     * `handleAIHelp`. `suggestion` is what the caption service resolved with;
     * the service does not reject, so a missing key or a failed request
     * arrives as one of its fixed answers and replaces the caption like any
     * other. `None` stands for the handler's own `catch`, which keeps the
     * caption. `request` is what the service was asked, `None` when the guard
     * stopped the handler.
     */
    method AiHelp(suggestion: Option<string>) returns (request: Option<CaptionRequest>)
      modifies this
      ensures old(caption) == [] && old(file) == None && old(urlInput) == [] ==>
                request == None && caption == old(caption) && isGeneratingAI == old(isGeneratingAI)
      ensures !(old(caption) == [] && old(file) == None && old(urlInput) == []) ==>
                request == Some(CaptionRequest(indicator.title, FileNameHint(old(file), old(urlInput)), old(caption)))
                && caption == suggestion.GetOr(old(caption))
                && !isGeneratingAI
      ensures fileType == old(fileType) && file == old(file) && urlInput == old(urlInput)
      ensures isUploading == old(isUploading)
    {
      if caption == [] && file == None && urlInput == [] {
        return None;
      }
      isGeneratingAI := true;
      request := Some(CaptionRequest(indicator.title, FileNameHint(file, urlInput), caption));
      if suggestion.Some? {
        caption := suggestion.value;
      }
      isGeneratingAI := false;
    }
  }

  /** The answer the caption service resolves with when no key is configured. */
  const MissingKeyAnswer := "API Key missing. Please configure your environment."
  /** The answer the caption service resolves with when its request fails. */
  const FailedCallAnswer := "ไม่สามารถสร้างคำอธิบายได้ในขณะนี้"

  // ---------------------------------------------------------------------------
  // Whole submissions, from a fresh form

  /**
   * Picking a file and submitting it: the encoded file is saved iff its
   * JavaScript length is at most 45000, and the record carries it, the
   * indicator, the kind, the date, the caption or its default, and a
   * thumbnail exactly for images.
   */
  method SubmitPickedFile(indicator: MenuItem, t: FileType, f: SelectedFile, caption: string,
                          d: string, id: string, now: string)
    returns (request: Option<PAUpload>, refusal: Option<Rejection>)
    requires t != LINK
    ensures JsLength(d) <= 45000 ==>
              refusal == None
              && request == Some(PAUpload(id, indicator.id, d, t, now,
                                          if caption == [] then DefaultCaption else caption,
                                          if t == IMAGE then Some(d) else None))
    ensures JsLength(d) > 45000 ==> request == None && refusal == Some(FileTooLarge)
  {
    var form := new Form(indicator);
    form.SelectType(t);
    form.PickFile(Some(f));
    form.EditCaption(caption);
    var completed;
    request, completed, refusal := form.Submit(ReadOk(d), id, now, false);
  }

  /** Typing a link and submitting it: refused iff blank, otherwise saved as typed with no thumbnail. */
  method SubmitTypedLink(indicator: MenuItem, u: string, caption: string, id: string, now: string)
    returns (request: Option<PAUpload>, refusal: Option<Rejection>)
    ensures IsBlank(u) ==> request == None && refusal == Some(EmptyLink)
    ensures !IsBlank(u) ==>
              refusal == None
              && request == Some(PAUpload(id, indicator.id, u, LINK, now,
                                          if caption == [] then DefaultCaption else caption, None))
  {
    var form := new Form(indicator);
    form.TypeUrl(u);
    form.EditCaption(caption);
    LinkValidation(None, u, ReadFailed);
    var completed;
    request, completed, refusal := form.Submit(ReadFailed, id, now, false);
  }

  /** A link typed before switching to a file kind is gone, so without a picked file nothing is saved. */
  method LinkLostOnTypeSwitch(indicator: MenuItem, u: string, t: FileType, read: ReadOutcome, id: string, now: string)
    returns (request: Option<PAUpload>, refusal: Option<Rejection>)
    requires t != LINK
    ensures request == None && refusal == Some(NoFileChosen)
  {
    var form := new Form(indicator);
    form.TypeUrl(u);
    form.SelectType(t);
    var completed;
    request, completed, refusal := form.Submit(read, id, now, false);
  }

  /**
   * Asking for a caption on a fresh form: nothing is asked while every
   * input is empty; otherwise the request names the picked file, or says
   * that a link was typed, and the caption becomes the answer if any.
   */
  method AskCaptionHelp(indicator: MenuItem, f: Option<SelectedFile>, u: string, suggestion: Option<string>)
    returns (request: Option<CaptionRequest>, caption: string)
    ensures f.None? && u == [] ==> request == None && caption == []
    ensures f.Some? ==> request == Some(CaptionRequest(indicator.title, f.value.name, [])) && caption == suggestion.GetOr([])
    ensures f.None? && u != [] ==>
              request == Some(CaptionRequest(indicator.title, ExternalLinkHint, [])) && caption == suggestion.GetOr([])
  {
    var form := new Form(indicator);
    if f.Some? {
      form.SelectType(PDF);
      form.PickFile(f);
    } else {
      form.TypeUrl(u);
    }
    request := form.AiHelp(suggestion);
    caption := form.caption;
  }

  /**
   * Notes typed into the caption and a caption service that cannot answer:
   * the service's fixed failure text replaces the notes.
   */
  method FailedServiceReplacesNotes(indicator: MenuItem, notes: string, keyMissing: bool)
    returns (request: Option<CaptionRequest>, caption: string)
    requires notes != []
    ensures request == Some(CaptionRequest(indicator.title, NoFileHint, notes))
    ensures caption == if keyMissing then MissingKeyAnswer else FailedCallAnswer
  {
    var form := new Form(indicator);
    form.EditCaption(notes);
    request := form.AiHelp(Some(if keyMissing then MissingKeyAnswer else FailedCallAnswer));
    caption := form.caption;
  }
}
