/**
 * The application shell: which menu entry is active, the header theme of
 * that entry, the uploads shown for it, the progress count, and the list
 * state kept across loading and deleting. Confirmation dialogs, timers and
 * the storage service's network answers are inputs.
 */
module App {
  import opened Wrappers
  import opened JsString
  import opened Seqs
  import opened PaTypes
  import opened Storage

  // ---------------------------------------------------------------------------
  // The active menu entry

  /** `menu.findIndex(item => item.id === id)`, as an option. */
  function FindById(menu: seq<MenuItem>, id: string): (r: Option<nat>)
    ensures r.Some? ==> r.value < |menu| && menu[r.value].id == id
                        && forall j :: 0 <= j < r.value ==> menu[j].id != id
    ensures r.None? ==> forall j :: 0 <= j < |menu| ==> menu[j].id != id
  {
    if menu == [] then None
    else if menu[0].id == id then Some(0)
    else match FindById(menu[1..], id)
         case None => None
         case Some(k) => Some(k + 1)
  }

  /** The entry whose page is shown: the first with the active id, else the first entry. */
  function ActiveMenuItem(menu: seq<MenuItem>, activeId: string): (r: MenuItem)
    requires |menu| > 0
    ensures r in menu
  {
    match FindById(menu, activeId)
    case Some(k) => menu[k]
    case None => menu[0]
  }

  /** An id in the menu selects its first entry with that id; any other id falls back to the first entry. */
  lemma ActiveMenuItemChoice(menu: seq<MenuItem>, activeId: string)
    requires |menu| > 0
    ensures (exists k :: 0 <= k < |menu| && menu[k].id == activeId) ==>
              ActiveMenuItem(menu, activeId).id == activeId
              && exists k :: 0 <= k < |menu| && menu[k] == ActiveMenuItem(menu, activeId)
                             && forall j :: 0 <= j < k ==> menu[j].id != activeId
    ensures (forall k :: 0 <= k < |menu| ==> menu[k].id != activeId) ==>
              ActiveMenuItem(menu, activeId) == menu[0]
  {
    match FindById(menu, activeId)
    case Some(k) =>
      assert menu[k] == ActiveMenuItem(menu, activeId);
    case None =>
  }

  // ---------------------------------------------------------------------------
  // The header theme

  /** The four headers: one per evaluation domain and a plain one for the rest. */
  datatype HeaderTheme = LearningDomain | SupportDomain | ProfessionDomain | PlainHeader

  /** `getHeaderTheme`: the domain is read off the `d1` / `d2` / `d3` prefix of the id. */
  function ThemeFor(id: string): HeaderTheme {
    if StartsWith(id, "d1") then LearningDomain
    else if StartsWith(id, "d2") then SupportDomain
    else if StartsWith(id, "d3") then ProfessionDomain
    else PlainHeader
  }

  /** `isDefaultTheme`, written separately from the theme ladder in the page. */
  predicate IsDefaultTheme(id: string) {
    !StartsWith(id, "d1") && !StartsWith(id, "d2") && !StartsWith(id, "d3")
  }

  lemma SecondCharacter(id: string, p: string)
    requires |p| == 2 && StartsWith(id, p)
    ensures |id| >= 2 && id[0] == p[0] && id[1] == p[1]
  {
    assert id[..2] == p;
    assert id[0] == id[..2][0] && id[1] == id[..2][1];
  }

  /** The three prefixes exclude each other, so each theme is chosen exactly by its own prefix. */
  lemma ThemeIffPrefix(id: string)
    ensures ThemeFor(id) == LearningDomain <==> StartsWith(id, "d1")
    ensures ThemeFor(id) == SupportDomain <==> StartsWith(id, "d2")
    ensures ThemeFor(id) == ProfessionDomain <==> StartsWith(id, "d3")
  {
    if StartsWith(id, "d2") {
      SecondCharacter(id, "d2");
      if StartsWith(id, "d1") { SecondCharacter(id, "d1"); }
    }
    if StartsWith(id, "d3") {
      SecondCharacter(id, "d3");
      if StartsWith(id, "d1") { SecondCharacter(id, "d1"); }
      if StartsWith(id, "d2") { SecondCharacter(id, "d2"); }
    }
  }

  /** The separately written default test agrees with the ladder's last branch. */
  lemma DefaultThemeAgrees(id: string)
    ensures IsDefaultTheme(id) <==> ThemeFor(id) == PlainHeader
  {
  }

  /** An id that does not begin with `d` followed by a digit from 1 to 3 gets the plain header. */
  lemma NoDomainPrefix(id: string)
    requires |id| >= 2 && (id[0] != 'd' || !('1' <= id[1] <= '3'))
    ensures IsDefaultTheme(id)
  {
    if StartsWith(id, "d1") { SecondCharacter(id, "d1"); }
    if StartsWith(id, "d2") { SecondCharacter(id, "d2"); }
    if StartsWith(id, "d3") { SecondCharacter(id, "d3"); }
  }

  /**
   * Whatever follows the domain prefix, an indicator `dK-...` gets the header
   * of domain K, while the domain headings, the home page and the challenge
   * page get the plain one.
   */
  lemma HeaderOfEachPage(n: string)
    ensures ThemeFor("d1-" + n) == LearningDomain
    ensures ThemeFor("d2-" + n) == SupportDomain
    ensures ThemeFor("d3-" + n) == ProfessionDomain
    ensures ThemeFor("domain-" + n) == PlainHeader
    ensures ThemeFor("home") == PlainHeader && ThemeFor("challenge") == PlainHeader
  {
    assert ("d1-" + n)[..2] == "d1";
    assert ("d2-" + n)[..2] == "d2";
    assert ("d3-" + n)[..2] == "d3";
    ThemeIffPrefix("d1-" + n);
    ThemeIffPrefix("d2-" + n);
    ThemeIffPrefix("d3-" + n);
    assert ("domain-" + n)[1] == 'o';
    NoDomainPrefix("domain-" + n);
    NoDomainPrefix("home");
    NoDomainPrefix("challenge");
  }

  // ---------------------------------------------------------------------------
  // The uploads of the active page

  /** `uploads.filter(u => u.indicator === activeMenuId)` */
  function CurrentUploads(uploads: seq<PAUpload>, activeId: string): seq<PAUpload> {
    Filter((u: PAUpload) => u.indicator == activeId, uploads)
  }

  /** The page shows exactly the uploads filed under its id. */
  lemma CurrentUploadsMembers(uploads: seq<PAUpload>, activeId: string)
    ensures forall u :: u in CurrentUploads(uploads, activeId) <==> u in uploads && u.indicator == activeId
  {
    var r := CurrentUploads(uploads, activeId);
    forall u | u in r ensures u in uploads && u.indicator == activeId {
      var k :| 0 <= k < |r| && r[k] == u;
    }
    forall u | u in uploads && u.indicator == activeId ensures u in r {
      var k :| 0 <= k < |uploads| && uploads[k] == u;
    }
  }

  /** A new record appears first on its own page and leaves every other page as it was. */
  lemma SavedRecordShowsFirst(uploads: seq<PAUpload>, u: PAUpload, activeId: string)
    ensures u.indicator == activeId ==>
              CurrentUploads([u] + uploads, activeId) == [u] + CurrentUploads(uploads, activeId)
    ensures u.indicator != activeId ==>
              CurrentUploads([u] + uploads, activeId) == CurrentUploads(uploads, activeId)
  {
    var p := (x: PAUpload) => x.indicator == activeId;
    FilterAppend(p, [u], uploads);
    assert [u][1..] == [];
  }

  /** Removing an id and then choosing a page is the same as choosing the page and then removing the id. */
  lemma {:induction false} DeleteCommutesWithPage(uploads: seq<PAUpload>, id: string, activeId: string)
    ensures CurrentUploads(WithoutId(uploads, id), activeId) == WithoutId(CurrentUploads(uploads, activeId), id)
  {
    if uploads != [] {
      var h := uploads[0];
      var t := uploads[1..];
      DeleteCommutesWithPage(t, id, activeId);
      var kept := if h.id != id then [h] else [];
      var shown := if h.indicator == activeId then [h] else [];
      assert WithoutId(uploads, id) == kept + WithoutId(t, id);
      assert CurrentUploads(uploads, activeId) == shown + CurrentUploads(t, activeId);
      KeepHead(h, kept, WithoutId(t, id), (x: PAUpload) => x.indicator == activeId);
      KeepHead(h, shown, CurrentUploads(t, activeId), (x: PAUpload) => x.id != id);
    }
  }

  /** Filtering a list whose head is either `h` alone or nothing. */
  lemma KeepHead(h: PAUpload, head: seq<PAUpload>, rest: seq<PAUpload>, p: PAUpload -> bool)
    requires head == [h] || head == []
    ensures Filter(p, head + rest) == (if head != [] && p(h) then [h] else []) + Filter(p, rest)
  {
    if head == [] {
      assert head + rest == rest;
    } else {
      assert (head + rest)[0] == h && (head + rest)[1..] == rest;
    }
  }

  // ---------------------------------------------------------------------------
  // The progress count

  /** `new Set(uploads.map(u => u.indicator))` */
  function Indicators(uploads: seq<PAUpload>): set<string> {
    set k | 0 <= k < |uploads| :: uploads[k].indicator
  }

  /** Its `.size`: how many indicators have at least one upload. */
  function DistinctIndicatorCount(uploads: seq<PAUpload>): nat {
    |Indicators(uploads)|
  }

  lemma IndicatorsOfPrepend(u: PAUpload, uploads: seq<PAUpload>)
    ensures Indicators([u] + uploads) == {u.indicator} + Indicators(uploads)
  {
    var s := [u] + uploads;
    forall x | x in Indicators(s) ensures x in {u.indicator} + Indicators(uploads) {
      var k :| 0 <= k < |s| && s[k].indicator == x;
      if k > 0 { assert s[k] == uploads[k - 1]; }
    }
    forall x | x in Indicators(uploads) ensures x in Indicators(s) {
      var k :| 0 <= k < |uploads| && uploads[k].indicator == x;
      assert s[k + 1] == uploads[k];
    }
    assert s[0] == u;
  }

  /** A record filed under an indicator that already has one leaves the count alone; any other adds one. */
  lemma CountAfterSave(u: PAUpload, uploads: seq<PAUpload>)
    ensures (exists k :: 0 <= k < |uploads| && uploads[k].indicator == u.indicator) ==>
              DistinctIndicatorCount([u] + uploads) == DistinctIndicatorCount(uploads)
    ensures (forall k :: 0 <= k < |uploads| ==> uploads[k].indicator != u.indicator) ==>
              DistinctIndicatorCount([u] + uploads) == DistinctIndicatorCount(uploads) + 1
  {
    IndicatorsOfPrepend(u, uploads);
    if exists k :: 0 <= k < |uploads| && uploads[k].indicator == u.indicator {
      var k :| 0 <= k < |uploads| && uploads[k].indicator == u.indicator;
      assert u.indicator in Indicators(uploads);
      assert {u.indicator} + Indicators(uploads) == Indicators(uploads);
    } else {
      assert u.indicator !in Indicators(uploads);
    }
  }

  /** Never more indicators than uploads, and none exactly when there are no uploads. */
  lemma {:induction false} CountBounds(uploads: seq<PAUpload>)
    ensures DistinctIndicatorCount(uploads) <= |uploads|
    ensures DistinctIndicatorCount(uploads) == 0 <==> uploads == []
  {
    if uploads != [] {
      assert uploads == [uploads[0]] + uploads[1..];
      IndicatorsOfPrepend(uploads[0], uploads[1..]);
      CountBounds(uploads[1..]);
    }
  }

  lemma {:induction false} SubsetCardinality(a: set<string>, b: set<string>)
    requires a <= b
    ensures |a| <= |b|
    decreases |b|
  {
    if b != {} {
      var x :| x in b;
      SubsetCardinality(a - {x}, b - {x});
      assert a == (a - {x}) + (if x in a then {x} else {});
    }
  }

  /** A delete can only lower the count. */
  lemma DeleteNeverRaisesCount(uploads: seq<PAUpload>, id: string)
    ensures DistinctIndicatorCount(WithoutId(uploads, id)) <= DistinctIndicatorCount(uploads)
  {
    var r := WithoutId(uploads, id);
    forall x | x in Indicators(r) ensures x in Indicators(uploads) {
      var k :| 0 <= k < |r| && r[k].indicator == x;
      var j :| 0 <= j < |uploads| && uploads[j] == r[k];
    }
    SubsetCardinality(Indicators(r), Indicators(uploads));
  }

  // ---------------------------------------------------------------------------
  // The page state

  class AppState {
    /** The menu the page is built from; the shipped one starts with the home entry. */
    const menu: seq<MenuItem>
    var activeMenuId: string
    var uploads: seq<PAUpload>
    var isLoading: bool

    constructor(menu: seq<MenuItem>)
      requires |menu| > 0
      ensures this.menu == menu && activeMenuId == "home" && uploads == [] && !isLoading
    {
      this.menu := menu;
      activeMenuId := "home";
      uploads := [];
      isLoading := false;
    }

    /** The sidebar's selection. */
    method Select(id: string)
      modifies this
      ensures activeMenuId == id && uploads == old(uploads) && isLoading == old(isLoading)
    {
      activeMenuId := id;
    }

    /**
     * The start of `fetchData`. `seen` is the list the handler's render
     * captured: the current list on mount, the pre-delete list after a delete.
     */
    method BeginFetch(seen: seq<PAUpload>)
      modifies this
      ensures isLoading == (seen == [] || old(isLoading))
      ensures uploads == old(uploads) && activeMenuId == old(activeMenuId)
    {
      if |seen| == 0 {
        isLoading := true;
      }
    }

    /** The rest of `fetchData`: the storage read never rejects, so its list is always taken. */
    method FetchData(store: Store, response: FetchOutcome, seen: seq<PAUpload>)
      modifies this, store
      ensures IsConfigured(store.endpoint) && response.Fetched? ==>
                uploads == response.data && store.stored == old(store.stored)
      ensures !(IsConfigured(store.endpoint) && response.Fetched?) ==>
                uploads == old(store.LocalContents()) && store.stored == Some(uploads)
      ensures !isLoading && activeMenuId == old(activeMenuId)
    {
      BeginFetch(seen);
      var data := store.GetUploads(response);
      uploads := data;
      isLoading := false;
    }

    /**
     * The synchronous part of `handleDelete`: when the user confirms, the
     * list is snapshotted and the record removed at once.
     */
    method ConfirmDelete(id: string, confirmed: bool) returns (snapshot: Option<seq<PAUpload>>)
      modifies this
      ensures !confirmed ==> snapshot == None && uploads == old(uploads)
      ensures confirmed ==> snapshot == Some(old(uploads)) && uploads == WithoutId(old(uploads), id)
      ensures isLoading == old(isLoading) && activeMenuId == old(activeMenuId)
    {
      if !confirmed {
        return None;
      }
      snapshot := Some(uploads);
      uploads := WithoutId(uploads, id);
    }

    /**
     * `handleDelete` end to end. `confirmed` is the dialog's answer,
     * `delivery` whether the delete request went out, `response` what the
     * refetch after the pause receives.
     */
    method HandleDelete(store: Store, id: string, confirmed: bool, delivery: Delivery, response: FetchOutcome)
      modifies this, store
      ensures !confirmed ==>
                uploads == old(uploads) && isLoading == old(isLoading) && store.stored == old(store.stored)
      ensures confirmed && !IsConfigured(store.endpoint) ==>
                uploads == WithoutId(old(store.LocalContents()), id) && store.stored == Some(uploads) && !isLoading
      ensures confirmed && IsConfigured(store.endpoint) && delivery == DeliveryFailed ==>
                uploads == old(uploads) && isLoading == old(isLoading) && store.stored == old(store.stored)
      ensures confirmed && IsConfigured(store.endpoint) && delivery == Delivered && response.Fetched? ==>
                uploads == response.data && !isLoading && store.stored == old(store.stored)
      ensures confirmed && IsConfigured(store.endpoint) && delivery == Delivered && !response.Fetched? ==>
                uploads == old(store.LocalContents()) && store.stored == Some(uploads) && !isLoading
      ensures activeMenuId == old(activeMenuId)
    {
      var snapshot := ConfirmDelete(id, confirmed);
      if snapshot.None? {
        return;
      }
      var threw := store.DeleteUpload(id, delivery);
      if threw {
        uploads := snapshot.value;
        return;
      }
      FetchData(store, response, snapshot.value);
    }
  }

  /** Between the confirmation and the server's answer the deleted record is already off its page. */
  method OptimisticRemoval(app: AppState, id: string) returns (shown: seq<PAUpload>)
    modifies app
    ensures shown == WithoutId(old(CurrentUploads(app.uploads, app.activeMenuId)), id)
    ensures forall u :: u in shown <==> u in old(CurrentUploads(app.uploads, app.activeMenuId)) && u.id != id
  {
    var snapshot := app.ConfirmDelete(id, true);
    shown := CurrentUploads(app.uploads, app.activeMenuId);
    DeleteCommutesWithPage(old(app.uploads), id, app.activeMenuId);
    WithoutIdMembers(CurrentUploads(old(app.uploads), app.activeMenuId), id);
  }

  /**
   * A record the form hands to the local store, followed by the refresh the
   * form triggers once the save resolved: the list becomes the record
   * followed by the earlier local list, and the record heads the page of its
   * own indicator. When the browser refuses the write, the save rejects, the
   * form raises its error alert and no refresh happens.
   */
  method UploadThenRefresh(app: AppState, store: Store, r: PAUpload, delivery: Delivery, write: LocalWrite,
                           response: FetchOutcome)
    requires !IsConfigured(store.endpoint)
    modifies app, store
    ensures write == Fits ==> app.uploads == [r] + old(store.LocalContents())
    ensures write == Fits ==>
              CurrentUploads(app.uploads, r.indicator) == [r] + CurrentUploads(old(store.LocalContents()), r.indicator)
    ensures write == QuotaExceeded ==>
              app.uploads == old(app.uploads) && store.LocalContents() == old(store.LocalContents())
  {
    var threw := store.SaveUpload(r, delivery, write);
    if !threw {
      app.FetchData(store, response, app.uploads);
      SavedRecordShowsFirst(old(store.LocalContents()), r, r.indicator);
    }
  }
}
