# Paapichat evidence portfolio — a verified model of its core

Paapichat is a single-page portfolio a teacher uses to collect evidence for a
performance assessment (PA). Each piece of evidence is a record filed under
one indicator of the assessment menu. A record is either a link or an inline
file stored as a `data:` URL.

This project models the parts of the application that decide things:
- how the gallery chooses a display strategy for a record, including the
  YouTube, Google Drive and image-link resolvers and the inline PDF decoder;
- how the intake form validates a submission and builds the record;
- how the storage service routes between the remote sheet and the local
  browser store;
- how the application shell selects the page, themes its header, filters
  and counts uploads, and keeps the list consistent while loading and
  deleting.

Modules, one concept each:

| module | file | models |
|---|---|---|
| `Wrappers` | `wrappers.dfy` | `Option` and `Result` |
| `JsString` | `js_string.dfy` | JavaScript string operations: `startsWith`, `includes`, `split`, `trim`, `.length` in UTF-16 code units |
| `Seqs` | `seqs.dfy` | `Array.prototype.filter` |
| `PaTypes` | `pa_types.dfy` | `types.ts`: `FileType`, `PAUpload`, `MenuItem`, and removal by id |
| `Youtube` | `youtube.dfy` | the YouTube link resolver, with its regular expression as an explicit scanner |
| `Drive` | `drive.dfy` | the Google Drive link resolver and its preview templates |
| `ImageLink` | `image_link.dfy` | the image-extension test on links |
| `Base64` | `base64.dfy` | `atob` (forgiving-base64 decoding, as the WHATWG HTML standard defines it) and the encoding `FileReader.readAsDataURL` produces |
| `UriComponent` | `uri_component.dfy` | `encodeURIComponent` and the viewer address built from it |
| `PdfViewer` | `pdf_viewer.dfy` | `SafePdfViewer`: the decode-or-viewer effect and its byte-fill loop |
| `FileGallery` | `file_gallery.dfy` | `renderInlineContent`, the card list and the fullscreen slot |
| `UploadForm` | `upload_form.dfy` | `handleSubmit`, the type buttons and `handleAIHelp` |
| `Storage` | `storage.dfy` | `services/storage.ts` |
| `App` | `app.dfy` | `App.tsx`: the active entry, header theme, page filter, progress count, `fetchData` and `handleDelete` |

Modelling conventions:
- Components and the storage service are classes. Their React state and
  their browser-storage key are fields, and each handler is a method.
- Pure helpers are functions, and what they promise is proved as lemmas.
- Whatever comes from outside is a parameter of the method that receives
  it:
  - the outcome of a network request;
  - `window.confirm`;
  - the file reader's result;
  - the generated id and timestamp;
  - the caption service's answer;
  - whether the browser lets a write of the local key through.
- A Dafny `char` is a Unicode scalar value. `JsLength` counts UTF-16 code
  units, so the 45000 ceiling and the 11-character video-id check are stated
  as JavaScript measures them.

Where the description of the system and the code differ, the model follows
the code:
- After a remote delete that the network accepted, the refreshed list
  replaces the optimistic one. This holds even if the refreshed list still
  holds the deleted record. The list is restored from the snapshot only
  when the delete call rejects.
- A saved upload is not added to the list optimistically. The form reports
  completion and the shell fetches again.
- The local store puts a new record first, not last.
- The design's decision table gives every record one display strategy
  from its declared kind and payload shape. `FileGallery.DesignStrategy` is
  that table, and `FileGallery.StrategyOf` reads a rendered plan as a
  strategy once the document viewer has run. Code and table differ only for
  documents, and only in three cases:
  - an inline PDF whose MIME type is not `application/pdf` goes to the
    remote viewer, not the local preview;
  - an inline PDF whose payload `atob` rejects keeps the loading
    placeholder, with no error shown;
  - a document with an empty payload gets no preview.

## Model

| member | source | states |
|---|---|---|
| PaTypes.WithoutId | services/storage.ts:132 | the `filter(u => u.id !== id)` shared by the local delete and the optimistic removal; its properties are the four lemmas below |
| PaTypes.WithoutIdMembers | App.tsx:43-44 | removing an id keeps exactly the records with another id |
| PaTypes.WithoutIdKeepsOrder | services/storage.ts:130-134 | removal by id distributes over concatenation, so surviving records keep their order |
| PaTypes.WithoutAbsentId | services/storage.ts:130-134 | removing an id no record has leaves the list unchanged |
| PaTypes.WithoutPresentIdShrinks | App.tsx:43-44 | removing an id some record has makes the list strictly shorter |
| JsString.Split | components/FileGallery.tsx:21 | the first piece of `split` is the longest prefix without the separator, followed by the separator when shorter than the string |
| JsString.SplitAfterFirst | components/FileGallery.tsx:21 | the pieces after the first are the split of the text after the first separator |
| JsString.TrimEmptyIffBlank | components/UploadForm.tsx:53 | `trim()` yields the empty string exactly when the text is all JavaScript whitespace |
| JsString.JsLengthOfBmp | components/FileGallery.tsx:23 | a string of Basic Multilingual Plane characters has a JavaScript length equal to its character count |
| Youtube.YoutubeEmbedUrl | components/FileGallery.tsx:109-115 | `getYoutubeEmbedUrl`: the scanner for the pattern, then the 11-unit test on the capture; MatchDecides and ResultNeedsMatch tie it to the declarative match `RegexMatch` |
| Youtube.NoMarkerAmongIdChars | components/FileGallery.tsx:111 | no alternative of group 1 begins with a video-id character, so a bare id holds no marker |
| Youtube.PrefixLimitMeans | components/FileGallery.tsx:111 | the leading `.*` reaches a position exactly when no line terminator lies before it |
| Youtube.LastMarker | components/FileGallery.tsx:111 | the greedy `.*` settles on the last position up to the bound where a marker starts, and on none when no position has one |
| Youtube.CaptureEnd | components/FileGallery.tsx:111 | the capture `[^#&?]*` runs to the first `#`, `&` or `?` or to the end |
| Youtube.MatchDecides | components/FileGallery.tsx:111-113 | once the pattern matches, the result is the embed address of the capture exactly when its JavaScript length is 11, and null otherwise |
| Youtube.ResultNeedsMatch | components/FileGallery.tsx:111-113 | an embed address is produced only when the pattern matches |
| Youtube.NoMarkerNoResult | components/FileGallery.tsx:111-113 | a link with no marker before its first line break yields null |
| Youtube.ShortLinkResolves | components/FileGallery.tsx:111-113 | `https://youtu.be/<id>` resolves to the embed address of that id |
| Youtube.WatchLinkResolves | components/FileGallery.tsx:111-113 | `https://www.youtube.com/watch?v=<id>` resolves to the embed address of that id |
| Youtube.EmbedUrlIsFixedPoint | components/FileGallery.tsx:111-113 | resolving an embed address the resolver produced gives that address back |
| Drive.DriveEmbedUrl | components/FileGallery.tsx:82-107 | `getGoogleDriveEmbedUrl`: the `google.com` guard, the id, then the template; DriveEmbedUrlAccepts characterises when it answers |
| Drive.DriveId | components/FileGallery.tsx:86-96 | the id found by the two patterns in order; any id it returns is a non-empty run of letters, digits, `-` and `_` |
| Drive.TemplateFor | components/FileGallery.tsx:99-105 | the `includes` ladder that picks the document, presentation, spreadsheet, form or file preview; DriveIdRoundTrip shows each filled template is accepted again |
| Drive.IdRunEnd | components/FileGallery.tsx:88-93 | the id capture is the maximal run of letters, digits, `-` and `_` |
| Drive.FirstMatch | components/FileGallery.tsx:88-93 | the match found is the leftmost occurrence of the pattern, and none is found when it occurs nowhere |
| Drive.DriveEmbedUrlAccepts | components/FileGallery.tsx:82-107 | the resolver yields an address exactly when the link contains `google.com` and either id pattern occurs |
| Drive.PathFormFirst | components/FileGallery.tsx:88-94 | when a `/d/` segment occurs, the id is taken at its leftmost occurrence |
| Drive.QueryFormOtherwise | components/FileGallery.tsx:91-94 | without a `/d/` segment, the id is taken at the leftmost `?id=` or `&id=` |
| Drive.DriveIdRoundTrip | components/FileGallery.tsx:82-107 | the produced preview address is accepted again and carries the same id |
| ImageLink.IsImageLink | components/FileGallery.tsx:117 | `isImageLink`: the case-insensitive extension test on the part before `?`; ImageLinkIffExtension gives it an independent reading |
| ImageLink.BeforeQuery | components/FileGallery.tsx:117 | the part before the query is the longest prefix without `?` |
| ImageLink.BeforeQueryUnique | components/FileGallery.tsx:117 | that part is determined by the first `?` |
| ImageLink.QueryStringIgnored | components/FileGallery.tsx:117 | appending a query string never changes whether a link is an image |
| ImageLink.CaseIgnored | components/FileGallery.tsx:117 | links equal up to ASCII case are both image links or neither |
| ImageLink.ImageLinkIffExtension | components/FileGallery.tsx:117 | the suffix test holds exactly when the text after the last dot of the path, lower-cased, is one of the seven extensions |
| Base64.Btoa | components/UploadForm.tsx:36-43 | the padded base64 text `readAsDataURL` puts after the comma; AtobBtoa is its round trip with `atob` |
| Base64.Base64Char | components/FileGallery.tsx:22 | every sextet has a character of the alphabet, and decoding that character gives the sextet back |
| Base64.Unpadded | components/UploadForm.tsx:36-43 | the encoding uses only alphabet characters, and its length is four per full group plus the two or three characters a partial group needs |
| Base64.DecodeGroups | components/FileGallery.tsx:22 | decoding yields three bytes per full group and one byte fewer than the characters of a partial group |
| Base64.Atob | components/FileGallery.tsx:22 | every character of a decoded string is below 256 |
| Base64.AtobBtoa | components/FileGallery.tsx:22 | `atob` of the padded encoding of any bytes gives one character per byte, in order |
| UriComponent.EncodeURIComponent | components/FileGallery.tsx:37 | `encodeURIComponent`: unreserved characters kept, every other character as `%XX` of its UTF-8 bytes; DecodeEncode inverts it |
| UriComponent.ViewerUrl | components/FileGallery.tsx:37 | the third-party viewer address around the encoded link; ViewerUrlCarriesLink reads the link back out of it |
| UriComponent.Utf8Char | components/FileGallery.tsx:37 | a character encodes to one to four bytes, and to its own code exactly when it is ASCII |
| UriComponent.DecodeEncode | components/FileGallery.tsx:37 | percent-decoding `encodeURIComponent(s)` yields the UTF-8 bytes of `s` |
| UriComponent.EncodedIsSafe | components/FileGallery.tsx:37 | `encodeURIComponent` output holds no `&`, `=`, `#` or `?` |
| UriComponent.ViewerUrlCarriesLink | components/FileGallery.tsx:37 | the viewer address is its base, then a query value that stops at the `&embedded` parameter and decodes to the link, then that tail |
| PdfViewer.Payload | components/FileGallery.tsx:21 | `url.split(',')[1]`, absent when the link has no comma; PayloadOfDataUrl locates it after the prefix |
| PdfViewer.PreparedHandle | components/FileGallery.tsx:15-38 | the handle the effect stores: none for an empty link or a rejected payload, a blob of the decoded bytes, or the viewer address; the round-trip and viewer lemmas below characterise it |
| PdfViewer.BinaryBytes | components/FileGallery.tsx:23-26 | the bytes written are as many as the characters, each the low eight bits of its character |
| PdfViewer.FillBytes | components/FileGallery.tsx:23-26 | the loop fills a new array of the string's JavaScript length with the low byte of each character |
| PdfViewer.SafePdfViewer.constructor | components/FileGallery.tsx:12-13 | a fresh viewer holds no handle and is not external |
| PdfViewer.SafePdfViewer.Prepare | components/FileGallery.tsx:15-38 | the effect stores the prepared handle and sets the external flag exactly for a viewer address; it leaves both unchanged for an empty link or a rejected payload |
| PdfViewer.PayloadOfDataUrl | components/FileGallery.tsx:21 | the payload of an inline PDF is the text after the prefix up to the next comma |
| PdfViewer.InlineDocumentRoundTrip | components/FileGallery.tsx:18-30 | an inline PDF whose payload is the base64 encoding of some bytes is shown as a blob of exactly those bytes |
| PdfViewer.LinkedDocumentUsesViewer | components/FileGallery.tsx:34-37 | any other non-empty link is shown through the viewer, whose `url` parameter decodes to the link |
| PdfViewer.RejectedInlineDocumentStoresNothing | components/FileGallery.tsx:31-33 | an inline PDF whose payload `atob` rejects stores no handle |
| PdfViewer.PlaceholderWhenNothingPrepared | components/FileGallery.tsx:45-52 | a fresh viewer that prepares nothing draws the loading placeholder |
| FileGallery.LinkPlan | components/FileGallery.tsx:175-226 | the link ladder: YouTube, then Drive, then an image file, then the sandboxed page; LinkFollowsDesignTable checks it against the design table |
| FileGallery.RenderInline | components/FileGallery.tsx:119-229 | `renderInlineContent`: the kind switch, with the `data:` test for Word documents and the ladder for links; DispatchFollowsDesignTable checks it against the design table |
| FileGallery.DispatchFollowsDesignTable | components/FileGallery.tsx:119-229 | every record with a non-empty payload, other than an inline PDF, gets the strategy the design's decision table assigns to its kind and payload shape, once the document viewer has run |
| FileGallery.ExternalDocumentIsRemote | components/FileGallery.tsx:34-38 | a document at an external address ends in the remote viewer |
| FileGallery.LinkFollowsDesignTable | components/FileGallery.tsx:175-226 | a link gets the table row of the first resolver that recognises it; table and code share the order, and what each resolver recognises is stated by its own lemmas |
| FileGallery.InlinePdfFollowsDesignTable | components/FileGallery.tsx:143-149 | an inline PDF holding the base64 encoding of any bytes gets the local preview the table assigns to it |
| FileGallery.InlinePdfDepartures | components/FileGallery.tsx:16-38 | where the code leaves the table: an inline PDF of another MIME type goes to the remote viewer, an undecodable one and an empty document get no preview |
| FileGallery.RenderReadsKindAddressCaption | components/FileGallery.tsx:119-229 | two records with the same kind, address and caption are drawn alike, whatever their id, indicator or date |
| FileGallery.EmbedAddressRendersAlike | components/FileGallery.tsx:177-184 | saving a resolved YouTube embed address as a link shows the same frame again |
| FileGallery.AddressesComeFromTheRecord | components/FileGallery.tsx:119-226 | only the two embedding strategies rewrite the address; a YouTube frame shows the embed base and an 11-unit id, a Drive frame a filled template with a valid id |
| FileGallery.FullscreenOnlyAffectsImageClick | components/FileGallery.tsx:123-129 | rendering fullscreen differs only in that a native image no longer opens the overlay |
| FileGallery.Cards | components/FileGallery.tsx:246-287 | one card per record, in order, each with the record's inline content and a delete button exactly when editable |
| FileGallery.Screen | components/FileGallery.tsx:70-306 | the gallery's output: the empty notice for an empty list, otherwise one card per record and the overlay for the slot's record; its properties are the Cards contract and the lemmas below |
| FileGallery.DeleteButtonIffEditable | components/FileGallery.tsx:261 | a card offers deletion exactly when the gallery is not read-only |
| FileGallery.Gallery.constructor | components/FileGallery.tsx:68 | the fullscreen slot starts empty |
| FileGallery.Gallery.Maximise | components/FileGallery.tsx:260 | the maximise button puts the record in the slot |
| FileGallery.Gallery.ImageClicked | components/FileGallery.tsx:125 | a click on an inline image fills the slot unless it is the fullscreen copy |
| FileGallery.Gallery.Close | components/FileGallery.tsx:298 | the close button empties the slot |
| FileGallery.OpenThenClose | components/FileGallery.tsx:291-306 | the overlay shows the record opened last, and after closing no overlay is drawn |
| UploadForm.FinalUrl | components/UploadForm.tsx:52-89 | the address a submission saves, or the alert that stops it |
| UploadForm.BuildRecord | components/UploadForm.tsx:91-99 | the record handed to storage; SubmitPickedFile and SubmitTypedLink state its fields from the user's inputs, UploadThenRefresh where it appears |
| UploadForm.FileNameHint | components/UploadForm.tsx:25 | the file hint sent to the caption service; AskCaptionHelp states it from the user's inputs |
| UploadForm.LinkValidation | components/UploadForm.tsx:52-58 | a link is refused exactly when it is empty or whitespace, and is otherwise saved as the handler received it, untrimmed (browser validation is not modelled) |
| UploadForm.InputsAreSeparate | components/UploadForm.tsx:52-89 | a file kind ignores the link field, and a link ignores the picked file and the reader |
| UploadForm.Form.constructor | components/UploadForm.tsx:14-19 | a fresh form is on `LINK` with every field empty and nothing pending |
| UploadForm.Form.TypeUrl | components/UploadForm.tsx:188 | the link field replaces the link and nothing else |
| UploadForm.Form.PickFile | components/UploadForm.tsx:207 | the file picker replaces the picked file and nothing else |
| UploadForm.Form.EditCaption | components/UploadForm.tsx:254 | the caption field replaces the caption and nothing else |
| UploadForm.Form.SelectType | components/UploadForm.tsx:140-144 | a type button sets the kind and clears the file and the link, keeping the caption |
| UploadForm.Form.Submit | components/UploadForm.tsx:45-117 | a refused submission raises its alert, stores nothing and keeps the fields; an accepted one hands storage the record built from the inputs, clears the fields only when saving succeeded, and always ends not uploading |
| UploadForm.Form.AiHelp | components/UploadForm.tsx:21-33 | with every input empty nothing is asked; otherwise the service is asked with the title, the hint and the caption, the caption becomes its answer or stays as it was, and the busy flag ends false |
| UploadForm.SubmitPickedFile | components/UploadForm.tsx:59-99 | from a fresh form, a picked file whose encoding has JavaScript length at most 45000 is saved with the indicator, kind, date, caption or its default, and a thumbnail exactly for images; a longer one raises the too-large alert and saves nothing |
| UploadForm.SubmitTypedLink | components/UploadForm.tsx:52-99 | from a fresh form, a typed link is refused with its alert iff blank, and is otherwise saved as typed without a thumbnail |
| UploadForm.LinkLostOnTypeSwitch | components/UploadForm.tsx:85-89 | a link typed before switching to a file kind is cleared, so submitting without a file raises the no-file alert |
| UploadForm.AskCaptionHelp | components/UploadForm.tsx:21-33 | from a fresh form, nothing is asked while every input is empty; otherwise the request names the picked file or the typed link, and the caption becomes the answer or stays empty |
| UploadForm.FailedServiceReplacesNotes | services/gemini.ts:11-41 | notes typed into the caption are replaced by the service's fixed text when the key is missing or the request fails |
| Storage.IsConfigured | services/storage.ts:10 | the routing guard: an endpoint that is set and is not the placeholder |
| Storage.MockRecord | services/storage.ts:103-113 | the seed record, dated when the module loads; FirstReadSeeds shows when it is written |
| Storage.ShippedEndpointIsConfigured | services/storage.ts:6-13 | the endpoint the build ships with is configured, so every call goes remote |
| Storage.Store.GetLocalUploads | services/storage.ts:115-122 | a read returns what is stored, and the first read of a never-written key writes and returns the seed record |
| Storage.Store.SaveLocalUpload | services/storage.ts:124-128 | when the browser lets the write through, the stored list becomes the new record followed by everything a read returned; when the quota refuses it, the call rejects and the key keeps what the read left |
| Storage.Store.DeleteLocalUpload | services/storage.ts:130-134 | the stored list becomes what a read returned without the id |
| Storage.Store.GetUploads | services/storage.ts:8-41 | a configured endpoint that answers with a list wins; any other case falls back to the local list, so the call never fails |
| Storage.Store.SaveUpload | services/storage.ts:43-71 | unconfigured saves are local and reject exactly when the local write is refused; configured ones leave the local key alone and reject exactly when the request failed |
| Storage.Store.DeleteUpload | services/storage.ts:73-95 | unconfigured deletes are local and succeed; configured ones leave the local key alone and reject exactly when the request failed |
| Storage.DeleteRemovesAllAndKeepsOrder | services/storage.ts:132 | after a local delete no record has the id, and the rest keep their order |
| Storage.DeleteAbsentIdKeepsList | services/storage.ts:130-134 | deleting an id no record has leaves the list a read returns unchanged |
| Storage.FirstReadSeeds | services/storage.ts:103-122 | the first read of an empty store returns exactly the seed record and stores it |
| Storage.EmptiedStoreStaysEmpty | services/storage.ts:115-122 | a key holding an empty list is not seeded again |
| App.FindById | App.tsx:20 | lookup finds the first entry with the id, or reports that none has it |
| App.ActiveMenuItem | App.tsx:20 | the active entry is always an entry of the menu |
| App.ActiveMenuItemChoice | App.tsx:20 | an id in the menu selects its first entry with that id; any other id falls back to the first entry |
| App.ThemeFor | App.tsx:77-124 | `getHeaderTheme` reduced to which of its four headers it picks |
| App.IsDefaultTheme | App.tsx:127 | the page's separate default-header test |
| App.ThemeIffPrefix | App.tsx:77-124 | each domain header is chosen exactly when the id starts with that domain's prefix |
| App.DefaultThemeAgrees | App.tsx:127 | the separate default test holds exactly when the ladder reaches its plain header |
| App.HeaderOfEachPage | App.tsx:77-124 | whatever follows the prefix, an indicator `dK-...` gets the header of domain K, and the domain headings, the home page and the challenge page get the plain one |
| App.CurrentUploads | App.tsx:130 | the uploads shown on the active page |
| App.CurrentUploadsMembers | App.tsx:130 | the page shows exactly the uploads filed under the active id |
| App.SavedRecordShowsFirst | App.tsx:130 | a record put first appears first on its own page and leaves every other page as it was |
| App.DeleteCommutesWithPage | App.tsx:130 | removing an id and then choosing the page equals choosing the page and then removing the id |
| App.DistinctIndicatorCount | App.tsx:340 | the size of the set of indicators that have an upload |
| App.CountAfterSave | App.tsx:340 | a record under an indicator that already has one leaves the count alone; any other raises it by one |
| App.CountBounds | App.tsx:340 | the count never exceeds the number of uploads, and is zero exactly when there are none |
| App.DeleteNeverRaisesCount | App.tsx:340 | a delete never raises the count |
| App.AppState.constructor | App.tsx:11-15 | the shell starts on the home page with no uploads and not loading |
| App.AppState.Select | App.tsx:136 | choosing an entry changes only the active id |
| App.AppState.BeginFetch | App.tsx:22-24 | the loading flag turns on only when the list the handler saw is empty |
| App.AppState.FetchData | App.tsx:22-33 | the list becomes what the storage service returns, and loading ends |
| App.AppState.ConfirmDelete | App.tsx:39-44 | a declined delete changes nothing; a confirmed one snapshots the list and removes the id at once |
| App.AppState.HandleDelete | App.tsx:39-62 | a declined delete changes nothing. A local delete shows and stores the list without the id. A rejected remote delete restores the snapshot. Otherwise the list becomes what the refetch returns, and a refetch that falls back stores the list it read |
| App.OptimisticRemoval | App.tsx:42-44 | right after confirmation, the page shows its earlier records other than the deleted one, in their order |
| App.UploadThenRefresh | App.tsx:387-390 | a record saved to the local store followed by the refresh the form triggers: the list becomes the record and then the earlier list, and the record heads its indicator's page; a refused local write leaves the list and the store as they were |

## Left out

- Rendering: markup, CSS classes, icons, the header's style strings and the
  date formatting on cards are left out. The header theme is an enumeration
  of its four cases.
- Timers (the 2-second settle wait in the delete and submit handlers) are
  left out. Only the order of the steps is kept.
- `window.confirm`, `alert` and console logging are left out:
  - the user's answer to the dialog is a parameter;
  - alerts are the `Rejection` cases;
  - logging is not modelled.
- `uuid` and `Date` are parameters. Network requests are parameters too:
  - a fetch outcome for the list request;
  - a delivery flag for the write requests.
- What the remote sheet stores is outside the model. JSON encoding is
  treated as the identity.
- A remote answer that is valid JSON but not a list is not modelled.
- A corrupt local key that makes `JSON.parse` throw is not modelled.
  Because of this, the `catch` of `fetchData` is unreachable in the model
  and is left out.
- The cache-busting timestamp and the `no-cors` request modes are left out.
- The caption service's request is not modelled; its answer is a parameter.
  The service never rejects. A missing key or a failed request resolves with
  one of its two fixed texts (`UploadForm.MissingKeyAnswer`,
  `UploadForm.FailedCallAnswer`), and that text replaces the caption. `None`
  models only the handler's own `catch`, which the shipped service never
  reaches.
- `FileReader.readAsDataURL` is a parameter. `Base64.Btoa` models the
  encoding it emits for the round-trip lemmas.
- Blob handles are modelled by the bytes they hold. Revoking them when the
  link changes is left out.
- `encodeURIComponent` throws `URIError` on a lone surrogate, and the
  program can meet one: `JSON.parse` accepts `"\ud800"` in a stored
  `fileUrl`. The model cannot represent such a string, since a Dafny
  string holds Unicode scalar values only. The throwing path is therefore
  not modelled.
- The sidebar, the publish flow, the public view and the user profile are
  outside this core.
- The `subItems` and `isHeader` fields of `MenuItem` are omitted.
- App.ActiveMenuItem: requires a non-empty menu. The shipped menu is not
  part of this model; it begins with the home entry.
- Drive.DriveIdRoundTrip: states only that the produced address is accepted
  again with the same id, not that it is a fixed point. A file-template
  address whose id is `document` selects the document template on the
  second pass.
- Base64.AtobBtoa: only the decode-after-encode direction is stated. `atob`
  also accepts unpadded input and nonzero trailing bits, so encoding a
  decoded string need not give the input back.
- PdfViewer.FillBytes: requires characters below U+10000. This is where the
  character count and the JavaScript length agree, and every string `atob`
  returns lies below 256.
- App.AppState.HandleDelete: runs from the dialog to the refetch with
  nothing in between. During its awaits and its pause, a refresh triggered
  by a completed upload or a second confirmed delete can change the list.
  The source's `setUploads(previousUploads)` then overwrites that change.
  Those interleavings are not modelled.
- UploadForm.Form.Submit: runs to completion in one step. The `isUploading`
  flag is observable only at the end, so the disabled submit button that
  blocks a second submission while the first is pending is not modelled.
- UploadForm.LinkValidation: describes what the handler does with the value
  it receives. The field is `<input type="url" required>`, so the browser
  first refuses an empty or malformed address and strips whitespace and
  newlines from it. That constraint validation is not modelled, so "saved
  as typed" means "saved as the handler received it".
- Storage.Store.GetLocalUploads, Storage.Store.DeleteLocalUpload: their own
  writes of the local key are taken to succeed. The seed is one short record,
  and a delete writes a list no longer than one already stored. Either
  write could still be refused if other data filled the origin's quota in
  between, and that path is not modelled.
