/**
 * The gallery: for one record, `renderInlineContent` picks one display
 * strategy from its declared kind and, for links, from the first resolver
 * that recognises the address; the list keeps a single fullscreen slot.
 */
module FileGallery {
  import opened Wrappers
  import opened JsString
  import opened PaTypes
  import opened Youtube
  import opened Drive
  import opened ImageLink
  import opened PdfViewer
  import opened Base64
  import opened UriComponent

  /** The display strategies, with the address each one shows and, for images, the caption as alt text. */
  datatype Plan =
    | NativeImage(src: string, alt: string, opensFullscreen: bool)
    | NativeVideo(src: string)
    | DocumentViewer(url: string)
    | DownloadOnly(href: string)
    | YoutubeFrame(src: string)
    | DriveFrame(src: string)
    | LinkedImage(src: string, alt: string)
    | WebFrame(src: string)
  {
    predicate IsLinkPlan() {
      YoutubeFrame? || DriveFrame? || LinkedImage? || WebFrame?
    }
  }

  /** The ladder for a `LINK` record, given what the YouTube, Drive and image tests said. */
  function LinkLadder(youtube: Option<string>, drive: Option<string>, isImage: bool, url: string, caption: string): Plan {
    match youtube
    case Some(y) => YoutubeFrame(y)
    case None =>
      match drive
      case Some(d) => DriveFrame(d)
      case None => if isImage then LinkedImage(url, caption) else WebFrame(url)
  }

  /** YouTube first, then Drive, then an image file, then the sandboxed page. */
  function LinkPlan(url: string, caption: string): Plan {
    LinkLadder(YoutubeEmbedUrl(url), DriveEmbedUrl(url), IsImageLink(url), url, caption)
  }

  /** `renderInlineContent` */
  function RenderInline(f: PAUpload, isFullscreen: bool): Plan {
    match f.fileType
    case IMAGE => NativeImage(f.fileUrl, f.caption, !isFullscreen)
    case VIDEO => NativeVideo(f.fileUrl)
    case PDF => DocumentViewer(f.fileUrl)
    case DOCX => if StartsWith(f.fileUrl, "data:") then DownloadOnly(f.fileUrl) else DocumentViewer(f.fileUrl)
    case LINK => LinkPlan(f.fileUrl, f.caption)
  }

  // ---------------------------------------------------------------------------
  // The dispatch against the design's decision table

  /** The strategies of the design, one per row of its decision table, and the state with no preview. */
  datatype Strategy =
    | ShowImage | PlayVideo | LocalPreview | RemotePreview | DownloadOffer
    | VideoEmbed | DriveEmbed | ImageEmbed | GenericFrame | NoPreview

  /** A payload is inline when it is a `data:` URL, and an external address otherwise. */
  predicate IsInlinePayload(url: string) {
    StartsWith(url, "data:")
  }

  /**
   * The decision table: the declared kind first, then the shape of the
   * payload, then, for links, the first resolver that recognises it.
   */
  function DesignStrategy(kind: FileType, url: string): Strategy {
    match kind
    case IMAGE => ShowImage
    case VIDEO => PlayVideo
    case PDF => if IsInlinePayload(url) then LocalPreview else RemotePreview
    case DOCX => if IsInlinePayload(url) then DownloadOffer else RemotePreview
    case LINK => LinkRow(YoutubeEmbedUrl(url).Some?, DriveEmbedUrl(url).Some?, IsImageLink(url))
  }

  /**
   * The four link rows, tried in order. The design and the code agree on
   * this order, so for links the table adds only the order; what each
   * resolver recognises is stated in its own module (`Youtube.MatchDecides`,
   * `Drive.DriveEmbedUrlAccepts`, `ImageLink.ImageLinkIffExtension`).
   */
  function LinkRow(isVideo: bool, isDrive: bool, isImage: bool): Strategy {
    if isVideo then VideoEmbed else if isDrive then DriveEmbed else if isImage then ImageEmbed else GenericFrame
  }

  /** What a plan amounts to once the document viewer's effect has run. */
  function StrategyOf(p: Plan): Strategy {
    match p
    case NativeImage(_, _, _) => ShowImage
    case NativeVideo(_) => PlayVideo
    case DocumentViewer(u) =>
      (match PreparedHandle(u)
       case None => NoPreview
       case Some(BlobHandle(_)) => LocalPreview
       case Some(ViewerHandle(_)) => RemotePreview)
    case DownloadOnly(_) => DownloadOffer
    case YoutubeFrame(_) => VideoEmbed
    case DriveFrame(_) => DriveEmbed
    case LinkedImage(_, _) => ImageEmbed
    case WebFrame(_) => GenericFrame
  }

  lemma PdfPrefixIsInline(url: string)
    requires StartsWith(url, PdfDataPrefix)
    ensures IsInlinePayload(url)
  {
    assert url[..5] == PdfDataPrefix[..5];
  }

  /** An external document address goes to the remote viewer. */
  lemma ExternalDocumentIsRemote(u: string)
    requires u != [] && !IsInlinePayload(u)
    ensures StrategyOf(DocumentViewer(u)) == RemotePreview
  {
    if StartsWith(u, PdfDataPrefix) { PdfPrefixIsInline(u); }
    assert PreparedHandle(u) == Some(ViewerHandle(ViewerUrl(u)));
  }

  /** Helper: the ladder lands on the row of the first test that succeeded, whatever the tests say. */
  lemma LadderFollowsRows(youtube: Option<string>, drive: Option<string>, isImage: bool, url: string, caption: string)
    ensures StrategyOf(LinkLadder(youtube, drive, isImage, url, caption)) == LinkRow(youtube.Some?, drive.Some?, isImage)
  {
  }

  /** A link gets the row of the first resolver that recognises it. */
  lemma LinkFollowsDesignTable(u: string, caption: string)
    ensures StrategyOf(LinkPlan(u, caption)) == DesignStrategy(LINK, u)
  {
    LadderFollowsRows(YoutubeEmbedUrl(u), DriveEmbedUrl(u), IsImageLink(u), u, caption);
  }

  /**
   * Every record with a non-empty payload gets the strategy of its row of
   * the table, except an inline PDF, which the two lemmas below settle.
   */
  lemma DispatchFollowsDesignTable(f: PAUpload, isFullscreen: bool)
    requires f.fileUrl != [] && !(f.fileType == PDF && IsInlinePayload(f.fileUrl))
    ensures StrategyOf(RenderInline(f, isFullscreen)) == DesignStrategy(f.fileType, f.fileUrl)
  {
    var u := f.fileUrl;
    match f.fileType
    case IMAGE =>
    case VIDEO =>
    case PDF =>
      ExternalDocumentIsRemote(u);
    case DOCX =>
      if !IsInlinePayload(u) { ExternalDocumentIsRemote(u); }
    case LINK =>
      LinkFollowsDesignTable(u, f.caption);
  }

  /** An inline PDF as the form stores it, the base64 encoding of its bytes, gets the local preview of its row. */
  lemma InlinePdfFollowsDesignTable(f: PAUpload, isFullscreen: bool, b: seq<byte>)
    requires f.fileType == PDF && f.fileUrl == PdfDataPrefix + Btoa(b)
    ensures StrategyOf(RenderInline(f, isFullscreen)) == LocalPreview == DesignStrategy(f.fileType, f.fileUrl)
  {
    InlineDocumentRoundTrip(b);
    StartsWithAppend(PdfDataPrefix, Btoa(b));
    PdfPrefixIsInline(f.fileUrl);
  }

  /**
   * Where the code departs from the table: an inline PDF of another MIME
   * type goes to the remote viewer, one whose payload does not decode gets
   * no preview, and so does a document with an empty payload.
   */
  lemma InlinePdfDepartures(f: PAUpload, isFullscreen: bool)
    ensures f.fileType == PDF && IsInlinePayload(f.fileUrl) && !StartsWith(f.fileUrl, PdfDataPrefix) ==>
              StrategyOf(RenderInline(f, isFullscreen)) == RemotePreview
    ensures f.fileType == PDF && StartsWith(f.fileUrl, PdfDataPrefix)
            && Atob(Split(f.fileUrl[|PdfDataPrefix|..], ',')[0]) == None ==>
              StrategyOf(RenderInline(f, isFullscreen)) == NoPreview
    ensures (f.fileType == PDF || f.fileType == DOCX) && f.fileUrl == [] ==>
              StrategyOf(RenderInline(f, isFullscreen)) == NoPreview
  {
    if f.fileType == PDF && StartsWith(f.fileUrl, PdfDataPrefix)
       && Atob(Split(f.fileUrl[|PdfDataPrefix|..], ',')[0]) == None {
      RejectedInlineDocumentStoresNothing(f.fileUrl);
    }
  }

  /** The strategy reads only the kind, the address and the caption of a record. */
  lemma RenderReadsKindAddressCaption(f: PAUpload, g: PAUpload, isFullscreen: bool)
    requires f.fileType == g.fileType && f.fileUrl == g.fileUrl && f.caption == g.caption
    ensures RenderInline(f, isFullscreen) == RenderInline(g, isFullscreen)
  {
  }

  /** Saving a resolved YouTube embed address as a link shows the same frame again. */
  lemma EmbedAddressRendersAlike(url: string, caption: string)
    requires YoutubeEmbedUrl(url).Some?
    ensures LinkPlan(YoutubeEmbedUrl(url).value, caption) == LinkPlan(url, caption)
  {
    EmbedUrlIsFixedPoint(url);
  }

  /** The address a strategy shows: the record's own, or the resolved embed address. */
  function ShownAddress(p: Plan): string {
    match p
    case NativeImage(s, _, _) => s
    case NativeVideo(s) => s
    case DocumentViewer(s) => s
    case DownloadOnly(s) => s
    case YoutubeFrame(s) => s
    case DriveFrame(s) => s
    case LinkedImage(s, _) => s
    case WebFrame(s) => s
  }

  /** Only the two embedding strategies rewrite the address; each shows a well-formed embed address. */
  lemma AddressesComeFromTheRecord(f: PAUpload, isFullscreen: bool)
    ensures var p := RenderInline(f, isFullscreen);
            && (!p.YoutubeFrame? && !p.DriveFrame? ==> ShownAddress(p) == f.fileUrl)
            && (p.YoutubeFrame? ==> exists id :: p.src == EmbedBase + id && JsLength(id) == 11)
            && (p.DriveFrame? ==> exists t, id :: p.src == EmbedUrl(t, id) && IsDriveId(id))
  {
    var p := RenderInline(f, isFullscreen);
    var u := f.fileUrl;
    if p.YoutubeFrame? {
      ResultNeedsMatch(u);
      var q: nat, b: nat :| RegexMatch(u, q, b);
      MatchDecides(u, q, b);
      var id := u[q + MarkerLength(u, q)..b];
      assert p.src == EmbedBase + id;
    }
    if p.DriveFrame? {
      DriveEmbedUrlShape(u);
      assert p.src == EmbedUrl(TemplateFor(u), DriveId(u).value);
    }
  }

  /** Showing a record fullscreen changes nothing but whether a click on an image opens the overlay. */
  lemma FullscreenOnlyAffectsImageClick(f: PAUpload)
    ensures RenderInline(f, true).NativeImage? ==>
              RenderInline(f, false) == RenderInline(f, true).(opensFullscreen := true)
              && !RenderInline(f, true).opensFullscreen
    ensures !RenderInline(f, true).NativeImage? ==> RenderInline(f, false) == RenderInline(f, true)
  {
  }

  // ---------------------------------------------------------------------------
  // The list

  /** One card of the list. */
  datatype Card = Card(item: PAUpload, content: Plan, showsDelete: bool)

  datatype GalleryScreen =
    | EmptyNotice
    | Listing(cards: seq<Card>, overlay: Option<Plan>)

  function Cards(uploads: seq<PAUpload>, readOnly: bool): (cs: seq<Card>)
    ensures |cs| == |uploads|
    ensures forall k :: 0 <= k < |uploads| ==>
              cs[k].item == uploads[k] && cs[k].content == RenderInline(uploads[k], false)
              && cs[k].showsDelete == !readOnly
  {
    if uploads == [] then []
    else [Card(uploads[0], RenderInline(uploads[0], false), !readOnly)] + Cards(uploads[1..], readOnly)
  }

  /** What the gallery draws, given the slot's content. */
  function Screen(uploads: seq<PAUpload>, readOnly: bool, fullscreenFile: Option<PAUpload>): GalleryScreen {
    if |uploads| == 0 then EmptyNotice
    else Listing(Cards(uploads, readOnly),
                 match fullscreenFile
                 case None => None
                 case Some(f) => Some(RenderInline(f, true)))
  }

  /** No card offers deletion in read-only mode, and every card does otherwise. */
  lemma DeleteButtonIffEditable(uploads: seq<PAUpload>, readOnly: bool, slot: Option<PAUpload>, k: nat)
    requires Screen(uploads, readOnly, slot).Listing?
    requires k < |Screen(uploads, readOnly, slot).cards|
    ensures Screen(uploads, readOnly, slot).cards[k].showsDelete <==> !readOnly
  {
  }

  /** The component's one piece of state: the record shown fullscreen, if any. */
  class Gallery {
    var fullscreenFile: Option<PAUpload>

    constructor()
      ensures fullscreenFile == None
    {
      fullscreenFile := None;
    }

    function View(uploads: seq<PAUpload>, readOnly: bool): GalleryScreen
      reads this
    {
      Screen(uploads, readOnly, fullscreenFile)
    }

    /** The maximise button of a card. */
    method Maximise(item: PAUpload)
      modifies this
      ensures fullscreenFile == Some(item)
    {
      fullscreenFile := Some(item);
    }

    /** A click on an inline image: it opens the overlay unless the image is already fullscreen. */
    method ImageClicked(item: PAUpload, isFullscreen: bool)
      modifies this
      ensures fullscreenFile == if isFullscreen then old(fullscreenFile) else Some(item)
    {
      if !isFullscreen {
        fullscreenFile := Some(item);
      }
    }

    /** The close button of the overlay. */
    method Close()
      modifies this
      ensures fullscreenFile == None
    {
      fullscreenFile := None;
    }
  }

  /** Opening a record replaces whatever was shown, and closing empties the slot. */
  method OpenThenClose(g: Gallery, a: PAUpload, b: PAUpload, uploads: seq<PAUpload>) returns (shown: Option<Plan>, after: GalleryScreen)
    requires |uploads| > 0
    modifies g
    ensures shown == Some(RenderInline(b, true))
    ensures after == Listing(Cards(uploads, false), None)
  {
    g.Maximise(a);
    g.Maximise(b);
    shown := g.View(uploads, false).overlay;
    g.Close();
    after := g.View(uploads, false);
  }
}
