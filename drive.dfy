/**
 * The Google Drive resolver of the gallery. The two expressions
 * `\/d\/([a-zA-Z0-9_-]+)` and `[?&]id=([a-zA-Z0-9_-]+)` become leftmost
 * scanners; the preview template is picked from path hints in the link.
 */
module Drive {
  import opened Wrappers
  import opened JsString

  /** `[a-zA-Z0-9_-]` */
  predicate IsDriveIdChar(c: char) {
    IsAsciiAlnum(c) || c == '_' || c == '-'
  }

  predicate IsDriveId(id: string) {
    |id| > 0 && forall k :: 0 <= k < |id| ==> IsDriveIdChar(id[k])
  }

  /** The two ways a link can carry a file id. */
  datatype IdPattern = PathSegment | QueryParam {
    /** Length of the literal part that precedes the captured id. */
    function Lead(): nat {
      match this
      case PathSegment => 3
      case QueryParam => 4
    }
  }

  /** `pat` matches at `i`: its literal part and at least one id character. */
  predicate MatchesAt(pat: IdPattern, s: string, i: nat) {
    match pat
    case PathSegment =>
      i + 4 <= |s| && s[i] == '/' && s[i + 1] == 'd' && s[i + 2] == '/' && IsDriveIdChar(s[i + 3])
    case QueryParam =>
      i + 5 <= |s| && (s[i] == '?' || s[i] == '&') && s[i + 1] == 'i' && s[i + 2] == 'd'
      && s[i + 3] == '=' && IsDriveIdChar(s[i + 4])
  }

  /** Where the greedy run of id characters starting at `i` ends. */
  function IdRunEnd(s: string, i: nat): (j: nat)
    requires i <= |s|
    ensures i <= j <= |s|
    ensures forall k :: i <= k < j ==> IsDriveIdChar(s[k])
    ensures j == |s| || !IsDriveIdChar(s[j])
    decreases |s| - i
  {
    if i == |s| || !IsDriveIdChar(s[i]) then i else IdRunEnd(s, i + 1)
  }

  /** The leftmost index at or after `i` where `pat` matches. */
  function FirstMatch(pat: IdPattern, s: string, i: nat): (r: Option<nat>)
    requires i <= |s|
    ensures r.Some? ==> i <= r.value <= |s| && MatchesAt(pat, s, r.value)
    ensures r.Some? ==> forall k :: i <= k < r.value ==> !MatchesAt(pat, s, k)
    ensures r.None? ==> forall k :: i <= k <= |s| ==> !MatchesAt(pat, s, k)
    decreases |s| - i
  {
    if MatchesAt(pat, s, i) then Some(i)
    else if i == |s| then None
    else FirstMatch(pat, s, i + 1)
  }

  /** Group 1 of `url.match(...)` for `pat`, or `None` when it does not match. */
  function MatchedId(pat: IdPattern, s: string): (r: Option<string>)
    ensures r.Some? ==> IsDriveId(r.value)
  {
    match FirstMatch(pat, s, 0)
    case None => None
    case Some(i) =>
      var a := i + pat.Lead();
      Some(s[a..IdRunEnd(s, a)])
  }

  /** The id the resolver settles on: the path form first, then the query form. */
  function DriveId(url: string): (r: Option<string>)
    ensures r.Some? ==> IsDriveId(r.value)
  {
    match MatchedId(PathSegment, url)
    case Some(id) => Some(id)
    case None => MatchedId(QueryParam, url)
  }

  /** The preview templates, one per Google service. */
  datatype DriveTemplate = DocumentPreview | PresentationPreview | SpreadsheetPreview | FormView | FilePreview

  /** The first path hint found picks the template; a plain Drive file otherwise. */
  function TemplateFor(url: string): DriveTemplate {
    if Includes(url, "/document/") then DocumentPreview
    else if Includes(url, "/presentation/") then PresentationPreview
    else if Includes(url, "/spreadsheets/") then SpreadsheetPreview
    else if Includes(url, "/forms/") then FormView
    else FilePreview
  }

  /** The text of a template before the id. */
  function TemplateHead(t: DriveTemplate): string {
    match t
    case DocumentPreview => "https://docs.google.com/document/d/"
    case PresentationPreview => "https://docs.google.com/presentation/d/"
    case SpreadsheetPreview => "https://docs.google.com/spreadsheets/d/"
    case FormView => "https://docs.google.com/forms/d/"
    case FilePreview => "https://drive.google.com/file/d/"
  }

  /** The text of a template after the id. */
  function TemplateTail(t: DriveTemplate): string {
    match t
    case FormView => "/viewform?embedded=true"
    case _ => "/preview"
  }

  function EmbedUrl(t: DriveTemplate, id: string): string {
    TemplateHead(t) + id + TemplateTail(t)
  }

  /** `getGoogleDriveEmbedUrl` */
  function DriveEmbedUrl(url: string): Option<string> {
    if !Includes(url, "google.com") then None
    else match DriveId(url)
      case None => None
      case Some(id) => Some(EmbedUrl(TemplateFor(url), id))
  }

  // ---------------------------------------------------------------------------
  // What the resolver accepts

  /** The resolver yields an address iff the link names `google.com` and either pattern occurs. */
  lemma DriveEmbedUrlAccepts(url: string)
    ensures DriveEmbedUrl(url).Some? <==>
              Includes(url, "google.com")
              && exists i :: 0 <= i <= |url| && (MatchesAt(PathSegment, url, i) || MatchesAt(QueryParam, url, i))
  {
    if exists i :: 0 <= i <= |url| && (MatchesAt(PathSegment, url, i) || MatchesAt(QueryParam, url, i)) {
      var i :| 0 <= i <= |url| && (MatchesAt(PathSegment, url, i) || MatchesAt(QueryParam, url, i));
      assert FirstMatch(PathSegment, url, 0).Some? || FirstMatch(QueryParam, url, 0).Some?;
    }
  }

  /** When both forms occur, the path form wins, taken at its leftmost occurrence. */
  lemma PathFormFirst(url: string, i: nat)
    requires i <= |url|
    requires MatchesAt(PathSegment, url, i)
    requires forall k :: 0 <= k < i ==> !MatchesAt(PathSegment, url, k)
    ensures DriveId(url) == Some(url[i + 3..IdRunEnd(url, i + 3)])
  {
  }

  /** Without the path form, the leftmost query form decides. */
  lemma QueryFormOtherwise(url: string, i: nat)
    requires forall k :: 0 <= k <= |url| ==> !MatchesAt(PathSegment, url, k)
    requires i <= |url|
    requires MatchesAt(QueryParam, url, i)
    requires forall k :: 0 <= k < i ==> !MatchesAt(QueryParam, url, k)
    ensures DriveId(url) == Some(url[i + 4..IdRunEnd(url, i + 4)])
  {
  }

  /** The address is the chosen template filled with the resolved id. */
  lemma DriveEmbedUrlShape(url: string)
    requires DriveEmbedUrl(url).Some?
    ensures DriveId(url).Some?
    ensures DriveEmbedUrl(url).value == EmbedUrl(TemplateFor(url), DriveId(url).value)
  {
  }

  // ---------------------------------------------------------------------------
  // The produced address carries the same id

  /** A head that ends with its only `/d/` and contains `google.com`. */
  ghost predicate IsGoodHead(h: string) {
    && |h| >= 4
    && h[|h| - 3] == '/' && h[|h| - 2] == 'd' && h[|h| - 1] == '/'
    && (forall k :: 0 <= k < |h| - 3 ==> !(h[k] == '/' && h[k + 1] == 'd' && h[k + 2] == '/'))
    && Includes(h, "google.com")
  }

  /** `h` starts with `https://` + a host whose `google.com` begins at `g`. */
  lemma HeadIsGood(h: string, g: nat)
    requires |h| >= 4 && g + 10 <= |h|
    requires forall k :: 0 <= k < 10 ==> h[g + k] == "google.com"[k]
    requires h[|h| - 3] == '/' && h[|h| - 2] == 'd' && h[|h| - 1] == '/'
    requires forall k :: 0 <= k < |h| - 3 ==> !(h[k] == '/' && h[k + 1] == 'd' && h[k + 2] == '/')
    ensures IsGoodHead(h)
  {
    assert h[g..g + 10] == "google.com";
    assert OccursAt(h, "google.com", g);
  }

  lemma DocumentPreviewHeadIsGood()
    ensures IsGoodHead(TemplateHead(DocumentPreview))
  {
    var h := TemplateHead(DocumentPreview);
    forall k | 0 <= k < |h| - 3 ensures !(h[k] == '/' && h[k + 1] == 'd' && h[k + 2] == '/') { }
    HeadIsGood(h, 13);
  }

  lemma PresentationPreviewHeadIsGood()
    ensures IsGoodHead(TemplateHead(PresentationPreview))
  {
    var h := TemplateHead(PresentationPreview);
    forall k | 0 <= k < |h| - 3 ensures !(h[k] == '/' && h[k + 1] == 'd' && h[k + 2] == '/') { }
    HeadIsGood(h, 13);
  }

  lemma SpreadsheetPreviewHeadIsGood()
    ensures IsGoodHead(TemplateHead(SpreadsheetPreview))
  {
    var h := TemplateHead(SpreadsheetPreview);
    forall k | 0 <= k < |h| - 3 ensures !(h[k] == '/' && h[k + 1] == 'd' && h[k + 2] == '/') { }
    HeadIsGood(h, 13);
  }

  lemma FormViewHeadIsGood()
    ensures IsGoodHead(TemplateHead(FormView))
  {
    var h := TemplateHead(FormView);
    forall k | 0 <= k < |h| - 3 ensures !(h[k] == '/' && h[k + 1] == 'd' && h[k + 2] == '/') { }
    HeadIsGood(h, 13);
  }

  lemma FilePreviewHeadIsGood()
    ensures IsGoodHead(TemplateHead(FilePreview))
  {
    var h := TemplateHead(FilePreview);
    forall k | 0 <= k < |h| - 3 ensures !(h[k] == '/' && h[k + 1] == 'd' && h[k + 2] == '/') { }
    HeadIsGood(h, 14);
  }

  lemma TemplateHeadIsGood(t: DriveTemplate)
    ensures IsGoodHead(TemplateHead(t))
  {
    match t {
      case DocumentPreview => DocumentPreviewHeadIsGood();
      case PresentationPreview => PresentationPreviewHeadIsGood();
      case SpreadsheetPreview => SpreadsheetPreviewHeadIsGood();
      case FormView => FormViewHeadIsGood();
      case FilePreview => FilePreviewHeadIsGood();
    }
  }

  lemma IncludesPrefix(s: string, t: string, p: string)
    requires Includes(s, p)
    ensures Includes(s + t, p)
  {
    var i: nat :| i <= |s| && OccursAt(s, p, i);
    assert (s + t)[i..i + |p|] == s[i..i + |p|];
    assert OccursAt(s + t, p, i);
  }

  /** A good head, then an id, then text that does not start with an id character. */
  lemma FilledTemplateId(h: string, id: string, tail: string)
    requires IsGoodHead(h)
    requires IsDriveId(id)
    requires |tail| > 0 && !IsDriveIdChar(tail[0])
    ensures DriveId(h + id + tail) == Some(id)
    ensures Includes(h + id + tail, "google.com")
  {
    var e := h + id + tail;
    var n := |h|;
    forall k | 0 <= k < n - 3 ensures !MatchesAt(PathSegment, e, k) {
      assert e[k] == h[k] && e[k + 1] == h[k + 1] && e[k + 2] == h[k + 2];
    }
    assert e[n - 3] == h[n - 3] && e[n - 2] == h[n - 2] && e[n - 1] == h[n - 1] && e[n] == id[0];
    assert MatchesAt(PathSegment, e, n - 3);
    assert FirstMatch(PathSegment, e, 0) == Some(n - 3);
    forall k | n <= k < n + |id| ensures IsDriveIdChar(e[k]) {
      assert e[k] == id[k - n];
    }
    assert e[n + |id|] == tail[0];
    assert IdRunEnd(e, n) == n + |id|;
    assert e[n..n + |id|] == id;
    IncludesPrefix(h, id + tail, "google.com");
    assert h + (id + tail) == e;
  }

  /** Resolving the produced address again finds the same id. */
  lemma DriveIdRoundTrip(url: string)
    requires DriveEmbedUrl(url).Some?
    ensures DriveId(DriveEmbedUrl(url).value) == DriveId(url)
    ensures DriveEmbedUrl(DriveEmbedUrl(url).value).Some?
  {
    DriveEmbedUrlShape(url);
    var t := TemplateFor(url);
    var id := DriveId(url).value;
    TemplateHeadIsGood(t);
    var tail := TemplateTail(t);
    assert tail[0] == '/';
    FilledTemplateId(TemplateHead(t), id, tail);
    var e := TemplateHead(t) + id + tail;
    assert DriveEmbedUrl(url).value == e;
    assert DriveEmbedUrl(e) == Some(EmbedUrl(TemplateFor(e), id));
  }
}
