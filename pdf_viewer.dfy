/**
 * `SafePdfViewer`: a document stored inline as a `data:` URL of RFC 2397
 * is decoded into bytes; any other address is shown through a third-party
 * viewer. The browser's blob handle is modelled by the bytes it holds.
 */
module PdfViewer {
  import opened Wrappers
  import opened JsString
  import opened Base64
  import opened UriComponent

  /** The only inline form the viewer decodes itself. */
  const PdfDataPrefix := "data:application/pdf;base64,"

  /** What the `blobUrl` state can hold: a blob of decoded bytes, or a viewer address. */
  datatype Handle = BlobHandle(bytes: seq<byte>) | ViewerHandle(address: string)

  /** What the component draws. */
  datatype Display = LoadingPlaceholder | Frame(source: Handle)

  /** `Uint8Array` element assignment keeps the low eight bits of the code unit. */
  function ToUint8(c: char): byte {
    (c as int % 256) as byte
  }

  /** The bytes the fill loop writes for a binary string. */
  function BinaryBytes(binary: string): (b: seq<byte>)
    ensures |b| == |binary| && forall i :: 0 <= i < |b| ==> b[i] == ToUint8(binary[i])
  {
    seq(|binary|, i requires 0 <= i < |binary| => ToUint8(binary[i]))
  }

  /** The loop that copies each character code of `binary` into a fresh byte array. */
  method FillBytes(binary: string) returns (bytes: array<byte>)
    requires forall k :: 0 <= k < |binary| ==> binary[k] as int < 0x1_0000
    ensures fresh(bytes)
    ensures bytes.Length == |binary| == JsLength(binary)
    ensures forall i :: 0 <= i < bytes.Length ==> bytes[i] == ToUint8(binary[i])
  {
    JsLengthOfBmp(binary);
    bytes := new byte[|binary|];
    var i := 0;
    while i < |binary|
      invariant 0 <= i <= |binary|
      invariant forall k :: 0 <= k < i ==> bytes[k] == ToUint8(binary[k])
    {
      bytes[i] := ToUint8(binary[i]);
      i := i + 1;
    }
  }

  /** `url.split(',')[1]`, defined whenever the link has a comma. */
  function Payload(url: string): Option<string> {
    var parts := Split(url, ',');
    if |parts| >= 2 then Some(parts[1]) else None
  }

  /**
   * The handle the effect stores for `url`, or `None` when it stores
   * nothing: an empty link, or an inline document `atob` rejects.
   */
  function PreparedHandle(url: string): Option<Handle> {
    if url == [] then None
    else if StartsWith(url, PdfDataPrefix) then
      match Payload(url)
      case None => None
      case Some(p) =>
        match Atob(p)
        case None => None
        case Some(binary) => Some(BlobHandle(BinaryBytes(binary)))
    else Some(ViewerHandle(ViewerUrl(url)))
  }

  class SafePdfViewer {
    var blobUrl: Option<Handle>
    var isExternal: bool

    constructor()
      ensures blobUrl == None && !isExternal
    {
      blobUrl := None;
      isExternal := false;
    }

    function Shown(): Display
      reads this
    {
      match blobUrl
      case None => LoadingPlaceholder
      case Some(h) => Frame(h)
    }

    /** The effect that runs when `url` changes. */
    method Prepare(url: string)
      modifies this
      ensures PreparedHandle(url).None? ==> blobUrl == old(blobUrl) && isExternal == old(isExternal)
      ensures PreparedHandle(url).Some? ==>
                blobUrl == PreparedHandle(url) && isExternal == PreparedHandle(url).value.ViewerHandle?
    {
      if url == [] {
        return;
      }
      if StartsWith(url, PdfDataPrefix) {
        var parts := Split(url, ',');
        if |parts| >= 2 {
          var decoded := Atob(parts[1]);
          if decoded.Some? {
            var binary := decoded.value;
            var bytes := FillBytes(binary);
            assert bytes[..] == BinaryBytes(binary);
            blobUrl := Some(BlobHandle(bytes[..]));
            isExternal := false;
          }
        }
      } else {
        isExternal := true;
        blobUrl := Some(ViewerHandle(ViewerUrl(url)));
      }
    }
  }

  // ---------------------------------------------------------------------------
  // Properties of the prepared handle

  /** The payload of an inline document is the text between its first and second comma. */
  lemma PayloadOfDataUrl(rest: string)
    ensures Payload(PdfDataPrefix + rest) == Some(Split(rest, ',')[0])
  {
    var url := PdfDataPrefix + rest;
    var n := |PdfDataPrefix|;
    forall k | 0 <= k < n - 1 ensures url[k] != ',' {
      assert url[k] == PdfDataPrefix[k];
    }
    assert url[n - 1] == ',';
    SplitAfterFirst(url, ',', n - 1);
    assert url[n..] == rest;
  }

  lemma NoCommaInBase64(b: seq<byte>)
    ensures forall k :: 0 <= k < |Btoa(b)| ==> Btoa(b)[k] != ','
  {
    var u := Unpadded(b);
    forall k | 0 <= k < |Btoa(b)| ensures Btoa(b)[k] != ',' {
      assert k < |u| ==> Btoa(b)[k] == u[k];
    }
  }

  lemma SplitWithoutSeparator(s: string)
    requires forall k :: 0 <= k < |s| ==> s[k] != ','
    ensures Split(s, ',')[0] == s
  {
  }

  lemma EncodedPayload(b: seq<byte>)
    ensures Payload(PdfDataPrefix + Btoa(b)) == Some(Btoa(b))
  {
    PayloadOfDataUrl(Btoa(b));
    NoCommaInBase64(b);
    SplitWithoutSeparator(Btoa(b));
  }

  lemma PreparedInline(url: string, p: string, binary: string)
    requires StartsWith(url, PdfDataPrefix) && Payload(url) == Some(p) && Atob(p) == Some(binary)
    ensures PreparedHandle(url) == Some(BlobHandle(BinaryBytes(binary)))
  {
  }

  /** A document read as `data:application/pdf;base64,...` is decoded back to exactly its bytes. */
  lemma InlineDocumentRoundTrip(b: seq<byte>)
    ensures PreparedHandle(PdfDataPrefix + Btoa(b)) == Some(BlobHandle(b))
  {
    var url := PdfDataPrefix + Btoa(b);
    StartsWithAppend(PdfDataPrefix, Btoa(b));
    EncodedPayload(b);
    AtobBtoa(b);
    var binary := BinaryString(b);
    PreparedInline(url, Btoa(b), binary);
    BytesOfBinaryString(b);
  }

  /** The fill loop undoes the one-character-per-byte encoding of `atob`. */
  lemma BytesOfBinaryString(b: seq<byte>)
    ensures BinaryBytes(BinaryString(b)) == b
  {
    var x := BinaryBytes(BinaryString(b));
    forall i | 0 <= i < |b| ensures x[i] == b[i] {
      assert BinaryString(b)[i] as int == b[i] as int;
    }
  }

  /** Any link that is not an inline PDF is shown through the viewer, with the link as its `url` parameter. */
  lemma LinkedDocumentUsesViewer(url: string)
    requires url != [] && !StartsWith(url, PdfDataPrefix)
    ensures PreparedHandle(url) == Some(ViewerHandle(ViewerUrl(url)))
    ensures PercentDecode(ViewerUrl(url)[|ViewerBase|..|ViewerUrl(url)| - |ViewerTail|]) == Some(Utf8(url))
  {
    ViewerUrlCarriesLink(url);
  }

  /** An inline PDF that `atob` rejects leaves a fresh viewer on its placeholder. */
  lemma RejectedInlineDocumentStoresNothing(url: string)
    requires StartsWith(url, PdfDataPrefix)
    requires Atob(Split(url[|PdfDataPrefix|..], ',')[0]) == None
    ensures PreparedHandle(url) == None
  {
    assert url == PdfDataPrefix + url[|PdfDataPrefix|..];
    PayloadOfDataUrl(url[|PdfDataPrefix|..]);
  }

  /** A fresh viewer given an empty link, or an inline PDF that `atob` rejects, keeps its placeholder. */
  method PlaceholderWhenNothingPrepared(url: string) returns (d: Display)
    requires PreparedHandle(url).None?
    ensures d == LoadingPlaceholder
  {
    var v := new SafePdfViewer();
    v.Prepare(url);
    d := v.Shown();
  }
}
