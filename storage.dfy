/**
 * The storage service: a remote sheet behind a web endpoint, and a local
 * fallback that keeps the whole list under one browser-storage key. The
 * endpoint's answers are inputs; the local key is the state.
 */
module Storage {
  import opened Wrappers
  import opened JsString
  import opened PaTypes

  /** The endpoint the application ships with, written in pieces short enough to reason about one by one. */
  const EndpointPart0 := "https://script.googl"
  const EndpointPart1 := "e.com/macros/s/AKfyc"
  const EndpointPart2 := "bwflqvOSKvyOdNBPg84c"
  const EndpointPart3 := "eNReiCIq1gM18ddNxDVy"
  const EndpointPart4 := "U7il-RDc-4Gt9iE7qtra"
  const EndpointPart5 := "izMxBoAVA/exec"
  const ShippedEndpoint := EndpointPart0 + EndpointPart1 + EndpointPart2 + EndpointPart3 + EndpointPart4 + EndpointPart5

  /** The placeholder text an unconfigured endpoint still contains. */
  const Placeholder := "วาง_URL"

  /** The remote sheet is used only when an endpoint is set and is not the placeholder. */
  predicate IsConfigured(endpoint: string) {
    endpoint != [] && !Includes(endpoint, Placeholder)
  }

  predicate IsAscii(s: string) {
    forall j :: 0 <= j < |s| ==> s[j] as int < 0x80
  }

  lemma AsciiAppend(a: string, b: string)
    requires IsAscii(a) && IsAscii(b)
    ensures IsAscii(a + b)
  {
    forall j | 0 <= j < |a + b| ensures (a + b)[j] as int < 0x80 {
      if j < |a| { assert (a + b)[j] == a[j]; } else { assert (a + b)[j] == b[j - |a|]; }
    }
  }

  /** The ASCII endpoint cannot contain the Thai placeholder, so the shipped build always goes remote. */
  lemma ShippedEndpointIsConfigured()
    ensures IsConfigured(ShippedEndpoint)
  {
    assert IsAscii(EndpointPart0) by { forall j | 0 <= j < |EndpointPart0| ensures EndpointPart0[j] as int < 0x80 { } }
    assert IsAscii(EndpointPart1) by { forall j | 0 <= j < |EndpointPart1| ensures EndpointPart1[j] as int < 0x80 { } }
    assert IsAscii(EndpointPart2) by { forall j | 0 <= j < |EndpointPart2| ensures EndpointPart2[j] as int < 0x80 { } }
    assert IsAscii(EndpointPart3) by { forall j | 0 <= j < |EndpointPart3| ensures EndpointPart3[j] as int < 0x80 { } }
    assert IsAscii(EndpointPart4) by { forall j | 0 <= j < |EndpointPart4| ensures EndpointPart4[j] as int < 0x80 { } }
    assert IsAscii(EndpointPart5) by { forall j | 0 <= j < |EndpointPart5| ensures EndpointPart5[j] as int < 0x80 { } }
    AsciiAppend(EndpointPart0, EndpointPart1);
    AsciiAppend(EndpointPart0 + EndpointPart1, EndpointPart2);
    AsciiAppend(EndpointPart0 + EndpointPart1 + EndpointPart2, EndpointPart3);
    AsciiAppend(EndpointPart0 + EndpointPart1 + EndpointPart2 + EndpointPart3, EndpointPart4);
    AsciiAppend(EndpointPart0 + EndpointPart1 + EndpointPart2 + EndpointPart3 + EndpointPart4, EndpointPart5);
    var e := ShippedEndpoint;
    forall j | 0 <= j < |e| ensures e[j] != Placeholder[0] {
      assert e[j] as int < 0x80;
    }
    NotIncludedWhenCharMissing(e, Placeholder, 0);
  }

  /** The seed record written on the first read of an empty store; its date is taken when the module loads. */
  function MockRecord(loadTime: string): PAUpload {
    PAUpload("mock-1", "d1-4", "https://picsum.photos/800/600", IMAGE, loadTime,
             "สื่อการสอน PowerPoint เรื่องพลังงานทดแทน (ตัวอย่าง)", Some("https://picsum.photos/800/600"))
  }

  /** What the list request produced. */
  datatype FetchOutcome =
    | Fetched(data: seq<PAUpload>)
    | BadStatus(status: int)
    | NetworkError
    | NotJson

  /** Whether a fire-and-forget write reached the network. */
  datatype Delivery = Delivered | DeliveryFailed

  /** Whether the browser let a write of the local key through, or refused it because the origin's quota is used up. */
  datatype LocalWrite = Fits | QuotaExceeded

  class Store {
    /** The endpoint constant the build was made with. */
    const endpoint: string
    /** The date of the seed record. */
    const loadTime: string
    /** The local key: `None` while it has never been written. */
    var stored: Option<seq<PAUpload>>

    constructor(endpoint: string, loadTime: string, stored: Option<seq<PAUpload>>)
      ensures this.endpoint == endpoint && this.loadTime == loadTime && this.stored == stored
    {
      this.endpoint := endpoint;
      this.loadTime := loadTime;
      this.stored := stored;
    }

    /** The list a local read returns: what is stored, or the seed when nothing is. */
    function LocalContents(): seq<PAUpload>
      reads this
    {
      match stored
      case None => [MockRecord(loadTime)]
      case Some(list) => list
    }

    // -------------------------------------------------------------------------
    // The local fallback

    /** `getLocalUploads`: the first read of an empty key writes the seed. */
    method GetLocalUploads() returns (list: seq<PAUpload>)
      modifies this
      ensures list == old(LocalContents())
      ensures stored == Some(list)
      ensures old(stored).Some? ==> stored == old(stored)
    {
      if stored.None? {
        list := [MockRecord(loadTime)];
        stored := Some(list);
      } else {
        list := stored.value;
      }
    }

    /**
     * `saveLocalUpload`: the new record goes first. A refused write throws,
     * so the call rejects and the key keeps what the read left in it.
     */
    method SaveLocalUpload(upload: PAUpload, write: LocalWrite) returns (threw: bool)
      modifies this
      ensures threw == (write == QuotaExceeded)
      ensures write == Fits ==> stored == Some([upload] + old(LocalContents()))
      ensures write == QuotaExceeded ==> stored == Some(old(LocalContents()))
    {
      var current := GetLocalUploads();
      if write == QuotaExceeded {
        return true;
      }
      stored := Some([upload] + current);
      threw := false;
    }

    /** `deleteLocalUpload`: every record with the id goes. */
    method DeleteLocalUpload(id: string)
      modifies this
      ensures stored == Some(WithoutId(old(LocalContents()), id))
    {
      var current := GetLocalUploads();
      stored := Some(WithoutId(current, id));
    }

    // -------------------------------------------------------------------------
    // Routing

    /** `getUploads`: the remote list when it arrives, the local one otherwise; it never fails. */
    method GetUploads(response: FetchOutcome) returns (list: seq<PAUpload>)
      modifies this
      ensures IsConfigured(endpoint) && response.Fetched? ==> list == response.data && stored == old(stored)
      ensures !(IsConfigured(endpoint) && response.Fetched?) ==>
                list == old(LocalContents()) && stored == Some(list)
    {
      if !IsConfigured(endpoint) {
        list := GetLocalUploads();
        return;
      }
      match response {
        case Fetched(data) =>
          list := data;
        case _ =>
          list := GetLocalUploads();
      }
    }

    /**
     * `saveUpload`: `threw` says whether the call rejected. `delivery` is the
     * outcome of the remote request, `write` that of the local one.
     */
    method SaveUpload(upload: PAUpload, delivery: Delivery, write: LocalWrite) returns (threw: bool)
      modifies this
      ensures !IsConfigured(endpoint) ==> threw == (write == QuotaExceeded)
      ensures !IsConfigured(endpoint) && write == Fits ==> stored == Some([upload] + old(LocalContents()))
      ensures !IsConfigured(endpoint) && write == QuotaExceeded ==> stored == Some(old(LocalContents()))
      ensures IsConfigured(endpoint) ==> threw == (delivery == DeliveryFailed) && stored == old(stored)
    {
      if !IsConfigured(endpoint) {
        threw := SaveLocalUpload(upload, write);
        return;
      }
      threw := delivery == DeliveryFailed;
    }

    /** `deleteUpload`: `threw` says whether the call rejected. */
    method DeleteUpload(id: string, delivery: Delivery) returns (threw: bool)
      modifies this
      ensures !IsConfigured(endpoint) ==> !threw && stored == Some(WithoutId(old(LocalContents()), id))
      ensures IsConfigured(endpoint) ==> threw == (delivery == DeliveryFailed) && stored == old(stored)
    {
      if !IsConfigured(endpoint) {
        DeleteLocalUpload(id);
        return false;
      }
      threw := delivery == DeliveryFailed;
    }
  }

  // ---------------------------------------------------------------------------
  // The local list, read through `LocalContents`

  /** After a local delete, no record has the id and the others keep their order. */
  lemma DeleteRemovesAllAndKeepsOrder(before: seq<PAUpload>, id: string, a: seq<PAUpload>, b: seq<PAUpload>)
    requires before == a + b
    ensures forall u :: u in WithoutId(before, id) <==> u in before && u.id != id
    ensures WithoutId(before, id) == WithoutId(a, id) + WithoutId(b, id)
  {
    WithoutIdMembers(before, id);
    WithoutIdKeepsOrder(a, b, id);
  }

  /** Deleting an id no record has leaves the list a local read returns unchanged. */
  method DeleteAbsentIdKeepsList(s: Store, id: string)
    requires forall k :: 0 <= k < |s.LocalContents()| ==> s.LocalContents()[k].id != id
    modifies s
    ensures s.LocalContents() == old(s.LocalContents())
  {
    WithoutAbsentId(s.LocalContents(), id);
    s.DeleteLocalUpload(id);
  }

  /** A first read of an empty store returns exactly the seed and leaves it stored. */
  method FirstReadSeeds(loadTime: string) returns (list: seq<PAUpload>, s: Store)
    ensures list == [MockRecord(loadTime)] && s.stored == Some(list)
  {
    s := new Store([], loadTime, None);
    list := s.GetLocalUploads();
  }

  /** A store that was emptied by deletes is not seeded again. */
  method EmptiedStoreStaysEmpty(loadTime: string) returns (list: seq<PAUpload>)
    ensures list == []
  {
    var s := new Store([], loadTime, Some([]));
    list := s.GetLocalUploads();
  }
}
