/** The fund-request screen (components/FundRequestManagement.tsx): the two-hour display
    window applied after each fetch, the approve and reject handlers up to the request
    they send, the per-request notes map, and the status tallies. */
module FundRequests {
  import opened Basics
  import opened Text
  import opened Seqs
  import opened LanguageContext

  datatype FundStatus = Pending | Approved | Rejected

  /** A driver's top-up request as the admin API returns it. Timestamps are
      milliseconds since the epoch. */
  datatype FundRequest = FundRequest(
    id: string,
    driverId: string,
    amount: real,
    paymentMethod: string,
    status: FundStatus,
    adminNotes: Option<string>,
    processedAt: Option<int>,
    createdAt: int)

  /** Two hours in milliseconds. */
  const WindowMs: int := 2 * 60 * 60 * 1000

  // ---------------------------------------------------------------------------
  // The display window
  // ---------------------------------------------------------------------------

  predicate InWindow(r: FundRequest, now: int) {
    r.createdAt >= now - WindowMs
  }

  /** The filter in `fetchFundRequests`: keep the requests created at most two hours
      before `now`, in the order the API returned them. */
  function RecentRequests(data: seq<FundRequest>, now: int): (shown: seq<FundRequest>)
    ensures IsSubsequence(shown, data)
    ensures forall r | r in shown :: r in data && r.createdAt >= now - 7_200_000
    ensures forall r | r in data && r.createdAt >= now - 7_200_000 :: r in shown
    ensures forall r :: multiset(shown)[r] == (if r.createdAt >= now - 7_200_000 then multiset(data)[r] else 0)
  {
    FilterIsSubsequence(data, (r: FundRequest) => InWindow(r, now));
    FilterCounts(data, (r: FundRequest) => InWindow(r, now));
    Filter(data, (r: FundRequest) => InWindow(r, now))
  }

  /** Applying the window twice with the same clock reading changes nothing. */
  lemma RecentRequestsIdempotent(data: seq<FundRequest>, now: int)
    ensures RecentRequests(RecentRequests(data, now), now) == RecentRequests(data, now)
  {
    FilterIdempotent(data, (r: FundRequest) => InWindow(r, now));
  }

  /** A later clock reading shows a subsequence of what an earlier one showed. */
  lemma RecentRequestsShrinkOverTime(data: seq<FundRequest>, now1: int, now2: int)
    requires now1 <= now2
    ensures IsSubsequence(RecentRequests(data, now2), RecentRequests(data, now1))
  {
    FilterMonotone(data, (r: FundRequest) => InWindow(r, now2), (r: FundRequest) => InWindow(r, now1));
  }

  /** The approve and reject buttons and the notes box are rendered only on the card of a
      pending request. */
  predicate OffersDecision(r: FundRequest) {
    r.status == Pending
  }

  /** The requests an admin can act on from this screen: the pending ones among those
      displayed. */
  function ActionableRequests(data: seq<FundRequest>, now: int): seq<FundRequest> {
    Filter(RecentRequests(data, now), OffersDecision)
  }

  /** A request can be approved or rejected here exactly when it is pending and inside
      the window: an older pending request has no card and so no buttons. */
  lemma ActionableIff(data: seq<FundRequest>, now: int, r: FundRequest)
    requires r in data
    ensures r in ActionableRequests(data, now) <==> r.status == Pending && r.createdAt >= now - WindowMs
  {
  }

  // ---------------------------------------------------------------------------
  // Approve and reject
  // ---------------------------------------------------------------------------

  /** The notes typed into each card's box, by request id. */
  type Notes = map<string, string>

  datatype Decision = Approve | Reject

  /** The POST a handler sends: `/admin/fund-requests/{id}/{approve|reject}` with a
      `notes` body. */
  datatype DecisionRequest = DecisionRequest(decision: Decision, requestId: string, notes: string)

  datatype HandlerOutcome =
    | Refused(message: string)        // an alert, nothing sent
    | Sent(request: DecisionRequest)

  const RejectionReasonRequired: string := "Rejection reason is required"

  /** `handleApprove`: always sends; a missing or empty note is sent as the empty string. */
  function HandleApprove(notes: Notes, id: string): (out: HandlerOutcome)
    ensures out.Sent? && out.request.decision == Approve && out.request.requestId == id
    ensures out.request.notes == (if id in notes then notes[id] else "")
  {
    Sent(DecisionRequest(Approve, id, Lookup(notes, id).GetOr("")))
  }

  /** `handleReject`: sends only when the note exists and holds a character that is not
      whitespace; otherwise it refuses with an alert. The note is sent as typed. */
  function HandleReject(notes: Notes, id: string): (out: HandlerOutcome)
    ensures out.Sent? <==> id in notes && exists i | 0 <= i < |notes[id]| :: !IsJsWhitespace(notes[id][i])
    ensures out.Sent? ==> out.request == DecisionRequest(Reject, id, notes[id])
    ensures out.Refused? ==> out.message == RejectionReasonRequired
  {
    var rejectionNotes := Lookup(notes, id);
    if rejectionNotes.None? || Trim(rejectionNotes.value) == "" then Refused(RejectionReasonRequired)
    else Sent(DecisionRequest(Reject, id, rejectionNotes.value))
  }

  /** The notes box's `onChange`: the card's note becomes what was typed. */
  function EditNote(notes: Notes, id: string, text: string): (r: Notes)
    ensures id in r && r[id] == text
    ensures forall k | k != id :: (k in r <==> k in notes) && (k in notes ==> r[k] == notes[k])
  {
    notes[id := text]
  }

  /** Approving sends the note as it was typed, blank or not. */
  lemma ApproveSendsTypedNote(notes: Notes, id: string, text: string)
    ensures HandleApprove(EditNote(notes, id, text), id) == Sent(DecisionRequest(Approve, id, text))
  {
  }

  /** Rejecting after typing a note sends it exactly when it is not all whitespace. */
  lemma RejectAfterTyping(notes: Notes, id: string, text: string)
    ensures HandleReject(EditNote(notes, id, text), id).Sent? <==> !IsBlank(text)
    ensures HandleReject(EditNote(notes, id, text), id).Sent? ==>
              HandleReject(EditNote(notes, id, text), id).request == DecisionRequest(Reject, id, text)
  {
    var out := HandleReject(EditNote(notes, id, text), id);
    if !IsBlank(text) {
      var i :| 0 <= i < |text| && !IsJsWhitespace(text[i]);
      assert out.Sent?;
    }
  }

  /** The notes map after a handler ran: a request the server accepted loses its note;
      a refused or failed request keeps every note. */
  function NotesAfter(notes: Notes, id: string, out: HandlerOutcome, serverOk: bool): (r: Notes)
    ensures out.Sent? && serverOk ==> r.Keys == notes.Keys - {id}
    ensures !(out.Sent? && serverOk) ==> r == notes
    ensures forall k | k in r :: k in notes && r[k] == notes[k]
    ensures forall k | k in notes && k != id :: k in r
  {
    if out.Sent? && serverOk then notes - {id} else notes
  }

  /** A rejection with a blank note sends nothing and leaves the notes as they were. */
  lemma BlankRejectChangesNothing(notes: Notes, id: string, serverOk: bool)
    requires id !in notes || IsBlank(notes[id])
    ensures HandleReject(notes, id).Refused?
    ensures NotesAfter(notes, id, HandleReject(notes, id), serverOk) == notes
  {
  }

  /** The in-flight mark while a handler runs: a refused rejection returns before
      marking anything; a sent request marks its own card. */
  function InFlightDuring(inFlight: InFlight, id: string, out: HandlerOutcome): (r: InFlight)
    ensures out.Refused? ==> r == inFlight
    ensures out.Sent? ==> !CardEnabled(r, id) && forall other | other != id :: CardEnabled(r, other)
  {
    if out.Sent? then Some(id) else inFlight
  }

  /** The approve button reads "processing" while its request is in flight; the reject
      button keeps its label throughout. */
  function DecisionButtonLabel(processing: InFlight, id: string, d: Decision): (l: Label)
    ensures d == Reject ==> l == Key("funds.reject")
    ensures d == Approve ==>
              (l == Key("funds.processing") <==> !CardEnabled(processing, id))
    ensures d == Approve ==> (l == Key("funds.approve") <==> CardEnabled(processing, id))
  {
    match d
    case Reject => Key("funds.reject")
    case Approve => if processing == Some(id) then Key("funds.processing") else Key("funds.approve")
  }

  // ---------------------------------------------------------------------------
  // Tallies
  // ---------------------------------------------------------------------------

  function CountStatus(requests: seq<FundRequest>, s: FundStatus): nat {
    |Filter(requests, (r: FundRequest) => r.status == s)|
  }

  /** `pendingCount + approvedCount + rejectedCount` is the number of displayed requests. */
  lemma StatusCountsAddUp(requests: seq<FundRequest>)
    ensures CountStatus(requests, Pending) + CountStatus(requests, Approved) + CountStatus(requests, Rejected)
            == |requests|
  {
    FilterCount3(requests, (r: FundRequest) => r.status == Pending,
      (r: FundRequest) => r.status == Approved, (r: FundRequest) => r.status == Rejected);
  }
}
