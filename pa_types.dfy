/** The records the application stores and displays (`types.ts`). */
module PaTypes {
  import opened Wrappers
  import opened Seqs

  /** The declared kind of an upload, chosen at intake and never inferred from the URL. */
  datatype FileType = PDF | DOCX | IMAGE | VIDEO | LINK

  /**
   * One piece of evidence attached to an indicator. `fileUrl` is either an
   * inline `data:` URL or an external link; `thumbnailUrl` is absent
   * (`undefined`) unless set.
   */
  datatype PAUpload = PAUpload(
    id: string,
    indicator: string,
    fileUrl: string,
    fileType: FileType,
    uploadDate: string,
    caption: string,
    thumbnailUrl: Option<string>)

  /** An entry of the indicator menu; only the fields the core reads. */
  datatype MenuItem = MenuItem(id: string, title: string, description: Option<string>)

  /** `list.filter(item => item.id !== id)` */
  function WithoutId(list: seq<PAUpload>, id: string): seq<PAUpload> {
    Filter((u: PAUpload) => u.id != id, list)
  }

  /** Every record with the id is gone and every other record stays. */
  lemma WithoutIdMembers(list: seq<PAUpload>, id: string)
    ensures forall u :: u in WithoutId(list, id) <==> u in list && u.id != id
  {
    var r := WithoutId(list, id);
    forall u | u in r ensures u in list && u.id != id {
      var k :| 0 <= k < |r| && r[k] == u;
    }
    forall u | u in list && u.id != id ensures u in r {
      var k :| 0 <= k < |list| && list[k] == u;
    }
  }

  /** The records that stay keep their relative order: removal commutes with concatenation. */
  lemma WithoutIdKeepsOrder(a: seq<PAUpload>, b: seq<PAUpload>, id: string)
    ensures WithoutId(a + b, id) == WithoutId(a, id) + WithoutId(b, id)
  {
    FilterAppend((u: PAUpload) => u.id != id, a, b);
  }

  /** Removing an id that no record carries leaves the list exactly as it was. */
  lemma WithoutAbsentId(list: seq<PAUpload>, id: string)
    requires forall k :: 0 <= k < |list| ==> list[k].id != id
    ensures WithoutId(list, id) == list
  {
    FilterKeepsAll((u: PAUpload) => u.id != id, list);
  }

  /** Removing a present id shortens the list. */
  lemma WithoutPresentIdShrinks(list: seq<PAUpload>, id: string, k: nat)
    requires k < |list| && list[k].id == id
    ensures |WithoutId(list, id)| < |list|
  {
    var p := (u: PAUpload) => u.id != id;
    assert list == list[..k] + ([list[k]] + list[k + 1..]);
    FilterAppend(p, list[..k], [list[k]] + list[k + 1..]);
    FilterAppend(p, [list[k]], list[k + 1..]);
    assert Filter(p, [list[k]]) == [] by {
      assert [list[k]][1..] == [];
    }
  }
}
