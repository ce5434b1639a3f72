/** The moderation logic of the ad detail page and its rejection dialog:
    choosing the reason text, building the request payload, what a reject /
    request-changes / approve does to the page state, navigation to the
    neighbouring ad, and the guards on the keyboard shortcuts and buttons.
    The page exists in two near-identical versions; where they differ in how
    a rule is written, both writings are modelled and shown to agree on the
    inputs the page can give them (for the reason select, its options). */
module Moderation {
  import opened Options
  import opened Text
  import opened Domain

  // ---------------------------------------------------------------- reasons

  datatype RejectionReason =
    | ProhibitedItem
    | WrongCategory
    | IncorrectDescription
    | PhotoProblems
    | SuspectedFraud
    | OtherReason

  /** The text of each reason, which is also its value in the dialog's select. */
  function ReasonText(r: RejectionReason): string {
    match r
    case ProhibitedItem => "Запрещенный товар"
    case WrongCategory => "Неверная категория"
    case IncorrectDescription => "Некорректное описание"
    case PhotoProblems => "Проблемы с фото"
    case SuspectedFraud => "Подозрение на мошенничество"
    case OtherReason => "Другое"
  }

  /** The reasons in the order the select lists them. */
  const Reasons: seq<RejectionReason> :=
    [ProhibitedItem, WrongCategory, IncorrectDescription, PhotoProblems, SuspectedFraud, OtherReason]

  /** The dialog's `isValidReason`: the reason a select value names, if any. */
  function ParseReason(value: string): (r: Option<RejectionReason>)
    ensures r.Some? ==> ReasonText(r.value) == value
  {
    if value == "Запрещенный товар" then Some(ProhibitedItem)
    else if value == "Неверная категория" then Some(WrongCategory)
    else if value == "Некорректное описание" then Some(IncorrectDescription)
    else if value == "Проблемы с фото" then Some(PhotoProblems)
    else if value == "Подозрение на мошенничество" then Some(SuspectedFraud)
    else if value == "Другое" then Some(OtherReason)
    else None
  }

  /** Exactly the six reason texts are accepted, each as its own reason. */
  lemma ParseReasonExactlyTexts(value: string)
    ensures forall r :: ParseReason(ReasonText(r)) == Some(r)
    ensures ParseReason(value).None? <==> forall i :: 0 <= i < |Reasons| ==> ReasonText(Reasons[i]) != value
  {
    forall r: RejectionReason ensures ParseReason(ReasonText(r)) == Some(r) {
      match r
      case ProhibitedItem =>
      case WrongCategory =>
      case IncorrectDescription =>
      case PhotoProblems =>
      case SuspectedFraud =>
      case OtherReason =>
    }
    if ParseReason(value).Some? {
      var r := ParseReason(value).value;
      assert r in Reasons by {
        match r
        case ProhibitedItem =>
        case WrongCategory =>
        case IncorrectDescription =>
        case PhotoProblems =>
        case SuspectedFraud =>
        case OtherReason =>
      }
    }
  }

  /** The select's change handler: `onReasonChange` is called with the reason
      exactly when the chosen value is one of the six texts; otherwise the
      selection stays as it was. */
  function SelectReason(current: RejectionReason, value: string): (r: RejectionReason)
    ensures ParseReason(value).Some? ==> r == ParseReason(value).value
    ensures ParseReason(value).None? ==> r == current
  {
    match ParseReason(value)
    case Some(reason) => reason
    case None => current
  }

  /** The inline dialogs of `AdDetail.tsx` take the select's value as a
      reason without checking it. A select reports only one of its options,
      the texts of `Reasons`, and on each of them the checked handler picks
      that very reason, so the two writings agree. */
  lemma SelectOptionAgrees(current: RejectionReason, i: nat)
    requires i < |Reasons|
    ensures SelectReason(current, ReasonText(Reasons[i])) == Reasons[i]
  {
    ParseReasonExactlyTexts(ReasonText(Reasons[i]));
  }

  /** What the dialog shows: the free-text reason field, and whether the
      confirm button is disabled. */
  datatype DialogView = DialogView(customReasonField: bool, confirmDisabled: bool)

  function RenderDialog(selected: RejectionReason, loading: bool): (v: DialogView)
    ensures v.customReasonField <==> selected == OtherReason
    ensures v.confirmDisabled <==> loading
  {
    DialogView(selected == OtherReason, loading)
  }

  // ---------------------------------------------------------------- payload

  /** `getReasonValue`: the free text when "Другое" is selected, otherwise the
      selected reason's text. */
  function ReasonValue(selected: RejectionReason, customReason: string): (v: string)
    ensures selected == OtherReason ==> v == customReason
    ensures selected != OtherReason ==> ParseReason(v) == Some(selected)
  {
    if selected == OtherReason then customReason else ReasonText(selected)
  }

  /** The body of a reject / request-changes request. */
  datatype Payload = Payload(reason: RejectionReason, comment: string)

  /** The payload, or None when the reason text is blank and the action is
      abandoned. The payload always carries the selected reason, never the
      free text; the comment falls back to the reason text. */
  function BuildPayload(selected: RejectionReason, customReason: string, comment: string): (p: Option<Payload>)
    ensures p.None? <==> Trim(ReasonValue(selected, customReason)) == []
    ensures p.Some? ==> p.value.reason == selected
    ensures p.Some? && comment != "" ==> p.value.comment == comment
    ensures p.Some? && comment == "" ==> p.value.comment == ReasonValue(selected, customReason)
  {
    var reason := ReasonValue(selected, customReason);
    if Trim(reason) == [] then None
    else Some(Payload(selected, if comment != "" then comment else reason))
  }

  /** A listed reason is never blank, so only "Другое" with a blank free text
      abandons the action. */
  lemma OnlyBlankCustomReasonAborts(selected: RejectionReason, customReason: string, comment: string)
    ensures BuildPayload(selected, customReason, comment).None?
        <==> selected == OtherReason && IsBlank(customReason)
  {
    if selected != OtherReason {
      var t := ReasonText(selected);
      assert !IsWhitespace(t[0]);
    }
  }

  // ---------------------------------------------------------------- page state

  datatype Ad = Ad(id: int, status: AdStatus)

  datatype DetailState = DetailState(
    ad: Option<Ad>,
    actionLoading: bool,
    showRejectDialog: bool,
    showRequestChangesDialog: bool,
    selectedReason: RejectionReason,
    comment: string,
    customReason: string)

  datatype ModerationKind = RejectAd | RequestChanges

  /** The request a moderation action sends. */
  datatype Call = Call(kind: ModerationKind, adId: int, payload: Payload)

  /** How the request settled: the updated ad, or a failure. */
  datatype Outcome = Succeeded(updated: Ad) | Failed

  /** The dialog of `kind` closed, the other left as it is. */
  function CloseDialog(st: DetailState, kind: ModerationKind): DetailState {
    match kind
    case RejectAd => st.(showRejectDialog := false)
    case RequestChanges => st.(showRequestChangesDialog := false)
  }

  /** The page state once a sent moderation request settles: success
      replaces the ad, closes the dialog of `kind` and clears the comment and
      the free-text reason; failure changes nothing else. Either way the
      action is no longer loading. */
  function Settle(st: DetailState, kind: ModerationKind, outcome: Outcome): (r: DetailState)
    ensures !r.actionLoading && r.selectedReason == st.selectedReason
    ensures outcome.Succeeded? ==>
      && r.ad == Some(outcome.updated)
      && r.comment == "" && r.customReason == ""
      && (kind == RejectAd ==> !r.showRejectDialog && r.showRequestChangesDialog == st.showRequestChangesDialog)
      && (kind == RequestChanges ==> !r.showRequestChangesDialog && r.showRejectDialog == st.showRejectDialog)
    ensures outcome.Failed? ==> r == st.(actionLoading := false)
  {
    match outcome
    case Succeeded(updated) =>
      CloseDialog(st, kind).(ad := Some(updated), comment := "", customReason := "", actionLoading := false)
    case Failed => st.(actionLoading := false)
  }

  /** `handleAction` (reject / request changes). Without an ad or with a
      blank reason nothing is sent and nothing changes. Otherwise one request
      is sent for the current ad with the built payload, and the state is
      settled by its outcome. */
  function SubmitModeration(st: DetailState, kind: ModerationKind, outcome: Outcome): (res: (DetailState, Option<Call>))
    ensures res.1.None? ==> res.0 == st
    ensures res.1.Some? <==> st.ad.Some? && BuildPayload(st.selectedReason, st.customReason, st.comment).Some?
    ensures res.1.Some? ==>
      && res.1.value == Call(kind, st.ad.value.id, BuildPayload(st.selectedReason, st.customReason, st.comment).value)
      && res.0 == Settle(st, kind, outcome)
  {
    var payload := BuildPayload(st.selectedReason, st.customReason, st.comment);
    if st.ad.None? || payload.None? then (st, None)
    else (Settle(st, kind, outcome), Some(Call(kind, st.ad.value.id, payload.value)))
  }

  /** `handleApprove`: without an ad nothing is sent; otherwise the ad's id is
      sent and success replaces the ad. Loading ends false either way. */
  function SubmitApprove(st: DetailState, outcome: Outcome): (res: (DetailState, Option<int>))
    ensures st.ad.None? <==> res.1.None?
    ensures st.ad.None? ==> res.0 == st
    ensures res.1.Some? ==> res.1.value == st.ad.value.id && !res.0.actionLoading
    ensures res.1.Some? && outcome.Succeeded? ==> res.0 == st.(ad := Some(outcome.updated), actionLoading := false)
    ensures res.1.Some? && outcome.Failed? ==> res.0 == st.(actionLoading := false)
  {
    match st.ad
    case None => (st, None)
    case Some(ad) =>
      match outcome
      case Succeeded(updated) => (st.(ad := Some(updated), actionLoading := false), Some(ad.id))
      case Failed => (st.(actionLoading := false), Some(ad.id))
  }

  /** Reject and request-changes share every rule but the dialog they close:
      on success the two resulting states differ only in the dialog flags. */
  lemma RejectAndRequestChangesAgree(st: DetailState, outcome: Outcome)
    ensures SubmitModeration(st, RejectAd, outcome).1.Some? <==> SubmitModeration(st, RequestChanges, outcome).1.Some?
    ensures
      var a := SubmitModeration(st, RejectAd, outcome).0;
      var b := SubmitModeration(st, RequestChanges, outcome).0;
      a.(showRejectDialog := false, showRequestChangesDialog := false)
        == b.(showRejectDialog := false, showRequestChangesDialog := false)
  {
  }

  // ---------------------------------------------------------------- navigation

  /** `findIndex`: the first position of `id`, or -1. */
  function FindIndex(ids: seq<int>, id: int): (i: int)
    ensures -1 <= i < |ids|
    ensures i >= 0 ==> ids[i] == id && forall j :: 0 <= j < i ==> ids[j] != id
    ensures i == -1 <==> id !in ids
    decreases |ids|
  {
    if ids == [] then -1
    else if ids[0] == id then 0
    else
      var k := FindIndex(ids[1..], id);
      if k == -1 then -1 else k + 1
  }

  datatype Direction = NextAd | PrevAd

  /** `loadAdjacentAd` as one page writes it: a target index, a validity rule
      per direction, and a range check on the target. */
  function AdjacentAd(ids: seq<int>, current: int, dir: Direction): Option<int> {
    var index := FindIndex(ids, current);
    var target := if dir == NextAd then index + 1 else index - 1;
    var valid := if dir == NextAd then index >= 0 && index < |ids| - 1 else index > 0;
    if valid && 0 <= target < |ids| then Some(ids[target]) else None
  }

  /** `loadNextAd` as the other page writes it. It moves to the following ad
      exactly when the current one is found and is not the last. */
  function NextAdId(ids: seq<int>, current: int): (r: Option<int>)
    ensures r.Some? <==> current in ids && FindIndex(ids, current) < |ids| - 1
    ensures r.Some? ==> r.value == ids[FindIndex(ids, current) + 1]
  {
    var index := FindIndex(ids, current);
    if index >= 0 && index < |ids| - 1 then Some(ids[index + 1]) else None
  }

  /** `loadPrevAd` as the other page writes it. It moves to the preceding ad
      exactly when the current one is found and is not the first. */
  function PrevAdId(ids: seq<int>, current: int): (r: Option<int>)
    ensures r.Some? <==> current in ids && FindIndex(ids, current) > 0
    ensures r.Some? ==> r.value == ids[FindIndex(ids, current) - 1]
  {
    var index := FindIndex(ids, current);
    if index > 0 then Some(ids[index - 1]) else None
  }

  /** The two writings of neighbour navigation agree on every list. */
  lemma AdjacentAdAgrees(ids: seq<int>, current: int)
    ensures AdjacentAd(ids, current, NextAd) == NextAdId(ids, current)
    ensures AdjacentAd(ids, current, PrevAd) == PrevAdId(ids, current)
  {
  }

  /** The whole neighbour lookup: nothing without an ad or when the listing
      request fails (`listing` is None); otherwise the neighbour in the
      listing, in the requested direction. */
  function Navigate(ad: Option<Ad>, listing: Option<seq<int>>, dir: Direction): (r: Option<int>)
    ensures ad.None? || listing.None? ==> r.None?
    ensures r.Some? ==> r.value in listing.value
    ensures ad.Some? && listing.Some? && dir == NextAd ==> r == NextAdId(listing.value, ad.value.id)
    ensures ad.Some? && listing.Some? && dir == PrevAd ==> r == PrevAdId(listing.value, ad.value.id)
  {
    if ad.None? || listing.None? then None
    else
      AdjacentAdAgrees(listing.value, ad.value.id);
      AdjacentAd(listing.value, ad.value.id, dir)
  }

  // ---------------------------------------------------------------- guards

  /** The `a` shortcut approves only an ad that is not approved yet, and not
      while an action is running. */
  predicate ApproveKeyFires(st: DetailState) {
    st.ad.Some? && st.ad.value.status != Approved && !st.actionLoading
  }

  /** The `d` shortcut opens the reject dialog only for an ad that is not
      rejected, not while an action is running, and not when it is open. */
  predicate RejectKeyFires(st: DetailState) {
    st.ad.Some? && st.ad.value.status != Rejected && !st.actionLoading && !st.showRejectDialog
  }

  /** The approve button is disabled while an action runs or once approved. */
  predicate ApproveButtonDisabled(actionLoading: bool, ad: Ad) {
    actionLoading || ad.status == Approved
  }

  /** The reject button is disabled while an action runs or once rejected. */
  predicate RejectButtonDisabled(actionLoading: bool, ad: Ad) {
    actionLoading || ad.status == Rejected
  }

  /** The reject shortcut's effect: the reject dialog opens when its guard
      holds, and nothing else changes. */
  function OnRejectKey(st: DetailState): (r: DetailState)
    ensures r.showRejectDialog <==> st.showRejectDialog || RejectKeyFires(st)
    ensures r.(showRejectDialog := st.showRejectDialog) == st
  {
    if RejectKeyFires(st) then st.(showRejectDialog := true) else st
  }

  /** The next / previous shortcuts fire only while no action runs. */
  predicate NavigationKeyFires(st: DetailState) {
    !st.actionLoading
  }

  /** The previous and next buttons are disabled while an action runs. */
  predicate NavigationButtonDisabled(actionLoading: bool) {
    actionLoading
  }

  /** The shortcuts and the buttons agree: a shortcut fires exactly when the
      corresponding button is shown and enabled (and, for reject, the dialog
      is not already open). The arrow keys follow the enabled state of the
      previous and next buttons. */
  lemma ShortcutsMatchButtons(st: DetailState)
    ensures ApproveKeyFires(st) <==> st.ad.Some? && !ApproveButtonDisabled(st.actionLoading, st.ad.value)
    ensures RejectKeyFires(st)
        <==> st.ad.Some? && !RejectButtonDisabled(st.actionLoading, st.ad.value) && !st.showRejectDialog
    ensures NavigationKeyFires(st) <==> !NavigationButtonDisabled(st.actionLoading)
  {
  }

  /** An arrow shortcut: while no action runs it goes where the matching
      button goes, and while one runs it goes nowhere. */
  function OnNavigateKey(st: DetailState, listing: Option<seq<int>>, dir: Direction): (r: Option<int>)
    ensures !NavigationButtonDisabled(st.actionLoading) ==> r == Navigate(st.ad, listing, dir)
    ensures st.actionLoading ==> r.None?
    ensures r.Some? ==> st.ad.Some? && listing.Some? && r.value in listing.value
  {
    if NavigationKeyFires(st) then Navigate(st.ad, listing, dir) else None
  }
}
