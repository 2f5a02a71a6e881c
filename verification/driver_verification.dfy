/** The driver-verification screen (components/DriverVerification.tsx): the status badge
    and status text of each pending driver, the two status buttons and the request they
    send, and which card's buttons are disabled while a request is in flight. */
module DriverVerification {
  import opened Basics
  import opened LanguageContext

  // ---------------------------------------------------------------------------
  // Status badge and text
  // ---------------------------------------------------------------------------

  const ActiveBadge: string := "bg-success"
  const SuspendedBadge: string := "bg-danger"
  const PendingBadge: string := "bg-warning"
  const UnknownBadge: string := "bg-secondary"

  /** `getStatusBadgeClass`: three statuses as spelled, and a gray default. */
  function GetStatusBadgeClass(status: string): (r: string)
    ensures r == ActiveBadge <==> status == "ACTIVE"
    ensures r == SuspendedBadge <==> status == "SUSPENDED"
    ensures r == PendingBadge <==> status == "PENDING_VERIFICATION"
    ensures r == UnknownBadge <==> status !in {"ACTIVE", "SUSPENDED", "PENDING_VERIFICATION"}
  {
    match status
    case "ACTIVE" => ActiveBadge
    case "SUSPENDED" => SuspendedBadge
    case "PENDING_VERIFICATION" => PendingBadge
    case _ => UnknownBadge
  }

  /** `getStatusText`: the translated name of the three statuses; any other status is
      shown as it came. */
  function GetStatusText(status: string): (l: Label)
    ensures l == Key("verification.active") <==> status == "ACTIVE"
    ensures l == Key("verification.suspended") <==> status == "SUSPENDED"
    ensures l == Key("verification.pending") <==> status == "PENDING_VERIFICATION"
    ensures l.Raw? <==> status !in {"ACTIVE", "SUSPENDED", "PENDING_VERIFICATION"}
    ensures l.Raw? ==> l.text == status
  {
    match status
    case "ACTIVE" => Key("verification.active")
    case "SUSPENDED" => Key("verification.suspended")
    case "PENDING_VERIFICATION" => Key("verification.pending")
    case _ => Raw(status)
  }

  /** The badge is gray exactly when the text is the raw status: a known status is always
      both coloured and translated. */
  lemma UnknownStatusIsShownRaw(status: string)
    ensures GetStatusBadgeClass(status) == UnknownBadge <==> GetStatusText(status) == Raw(status)
  {
  }

  /** Distinct statuses never share a label: the raw label of an unknown status is the
      status itself, and the keys of the known ones are distinct. */
  lemma StatusLabelInjective(a: string, b: string)
    requires GetStatusText(a) == GetStatusText(b)
    ensures a == b
  {
  }

  /** The rendered texts can coincide, though: with "Active" as the English text of
      `verification.active`, an ACTIVE driver and one whose unknown status is spelled
      "Active" read the same. */
  lemma StatusTextsCanCoincide(tr: Translations)
    requires "verification.active" in tr.en && tr.en["verification.active"] == "Active"
    ensures GetStatusText("ACTIVE") != GetStatusText("Active")
    ensures Render(tr, En, GetStatusText("ACTIVE")) == Render(tr, En, GetStatusText("Active"))
  {
  }

  // ---------------------------------------------------------------------------
  // Status update
  // ---------------------------------------------------------------------------

  /** The two buttons on a card. */
  datatype Action = Approve | Suspend

  /** The status each button asks for. */
  function TargetStatus(a: Action): (status: string)
    ensures GetStatusBadgeClass(status) != UnknownBadge && GetStatusBadgeClass(status) != PendingBadge
  {
    match a
    case Approve => "ACTIVE"
    case Suspend => "SUSPENDED"
  }

  /** After a successful update the driver is shown green when approved and red when
      suspended. */
  lemma TargetStatusBadge(a: Action)
    ensures a == Approve <==> GetStatusBadgeClass(TargetStatus(a)) == ActiveBadge
    ensures a == Suspend <==> GetStatusBadgeClass(TargetStatus(a)) == SuspendedBadge
  {
  }

  /** `PATCH /admin/drivers/{id}/status` with the body `{ status }`. */
  datatype StatusUpdate = StatusUpdate(path: string, status: string)

  function UpdateRequest(driverId: string, a: Action): (req: StatusUpdate)
    ensures req.path == "/admin/drivers/" + driverId + "/status"
    ensures req.status == "ACTIVE" || req.status == "SUSPENDED"
    ensures req.status == "ACTIVE" <==> a == Approve
  {
    StatusUpdate("/admin/drivers/" + driverId + "/status", TargetStatus(a))
  }

  /** Requests for distinct drivers or distinct buttons are distinct requests. */
  lemma UpdateRequestInjective(id1: string, a1: Action, id2: string, a2: Action)
    requires UpdateRequest(id1, a1) == UpdateRequest(id2, a2)
    ensures id1 == id2 && a1 == a2
  {
    var prefix, suffix := "/admin/drivers/", "/status";
    var p := UpdateRequest(id1, a1).path;
    assert p == prefix + id1 + suffix && p == prefix + id2 + suffix;
    assert |id1| == |id2|;
    assert id1 == p[|prefix|..|prefix| + |id1|];
    assert id2 == p[|prefix|..|prefix| + |id2|];
  }

  // ---------------------------------------------------------------------------
  // The request in flight
  // ---------------------------------------------------------------------------

  /** Both buttons of a card read "processing" while disabled, and their own action
      otherwise. */
  function ButtonLabel(processing: InFlight, driverId: string, a: Action): (l: Label)
    ensures !CardEnabled(processing, driverId) ==> l == Key("verification.processing")
    ensures CardEnabled(processing, driverId) ==>
              l == (if a == Approve then Key("verification.approve") else Key("verification.suspend"))
  {
    if processing == Some(driverId) then Key("verification.processing")
    else if a == Approve then Key("verification.approve")
    else Key("verification.suspend")
  }

  /** Starting an update marks its driver; the request ending, whether it succeeded or
      failed, clears the mark for everyone. */
  function StartUpdate(processing: InFlight, driverId: string): (r: InFlight)
    ensures !CardEnabled(r, driverId)
    ensures forall other | other != driverId :: CardEnabled(r, other)
  {
    Some(driverId)
  }

  function FinishUpdate(processing: InFlight): (r: InFlight)
    ensures forall id :: CardEnabled(r, id)
  {
    None
  }

  /** Only the card being processed is disabled: every other card stays usable. */
  lemma OtherCardsStayEnabled(processing: InFlight, driverId: string, other: string)
    requires other != driverId
    ensures CardEnabled(StartUpdate(processing, driverId), other)
    ensures CardEnabled(FinishUpdate(StartUpdate(processing, driverId)), driverId)
  {
  }
}
