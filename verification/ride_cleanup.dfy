/** The stuck-ride screen (components/RideCleanup.tsx): the status badge colours, the
    age text and its severity colour, and when the "Cleanup Now" button is enabled.
    Which rides count as stuck, and what cleaning does to them, is decided by the server
    and is not part of this model. */
module RideCleanup {
  import opened Basics
  import opened Text

  /** A row of the stuck-ride table as the API returns it. Timestamps are milliseconds
      since the epoch; `ageMinutes` is computed by the server. */
  datatype StuckRide = StuckRide(
    id: string,
    status: string,
    userId: string,
    userEmail: string,
    driverId: Option<string>,
    driverName: Option<string>,
    requestedAt: int,
    matchedAt: Option<int>,
    startedAt: Option<int>,
    ageMinutes: int,
    pickupAddress: Option<string>,
    dropoffAddress: Option<string>)

  // ---------------------------------------------------------------------------
  // Status badge
  // ---------------------------------------------------------------------------

  const RequestedClass: string := "bg-yellow-100 text-yellow-800 dark:bg-yellow-900 dark:text-yellow-200"
  const MatchedClass: string := "bg-blue-100 text-blue-800 dark:bg-blue-900 dark:text-blue-200"
  const PickupClass: string := "bg-purple-100 text-purple-800 dark:bg-purple-900 dark:text-purple-200"
  const InProgressClass: string := "bg-green-100 text-green-800 dark:bg-green-900 dark:text-green-200"
  const DefaultClass: string := "bg-gray-100 text-gray-800 dark:bg-gray-700 dark:text-gray-200"

  /** `getStatusColor`: switches on the upper-cased status; four statuses get their own
      colour and every other status the gray default. */
  function GetStatusColor(status: string): (r: string)
    ensures r == RequestedClass <==> Upper(status) == "REQUESTED"
    ensures r == MatchedClass <==> Upper(status) == "MATCHED"
    ensures r == PickupClass <==> Upper(status) == "PICKUP"
    ensures r == InProgressClass <==> Upper(status) == "IN_PROGRESS"
    ensures r == DefaultClass <==> Upper(status) !in {"REQUESTED", "MATCHED", "PICKUP", "IN_PROGRESS"}
  {
    match Upper(status)
    case "REQUESTED" => RequestedClass
    case "MATCHED" => MatchedClass
    case "PICKUP" => PickupClass
    case "IN_PROGRESS" => InProgressClass
    case _ => DefaultClass
  }

  /** Any casing of a status gets the colour of its lower-case spelling, and so of every
      other spelling with the same letters. */
  lemma StatusColorIgnoresCase(status: string)
    ensures GetStatusColor(Lower(status)) == GetStatusColor(status)
  {
    UpperOfLower(status);
  }

  // ---------------------------------------------------------------------------
  // Age text
  // ---------------------------------------------------------------------------

  /** `formatAge`: under an hour, the minutes followed by "m"; otherwise whole hours,
      "h ", the remaining minutes and "m". */
  function FormatAge(minutes: int): (r: string)
    ensures |r| >= 2 && r[|r| - 1] == 'm'
    ensures 'h' in r <==> minutes >= 60
    ensures minutes < 60 ==> r == IntToString(minutes) + "m"
  {
    if minutes < 60 then
      NumeralHasNoH(minutes);
      IntToString(minutes) + "m"
    else
      var hours := NatToString(minutes / 60);
      var text := hours + "h " + NatToString(minutes % 60) + "m";
      assert text[|hours|] == 'h';
      text
  }

  /** The first position of `c` in `s`. */
  function IndexOf(s: string, c: char): (r: Option<nat>)
    ensures r.None? <==> c !in s
    ensures r.Some? ==> r.value < |s| && s[r.value] == c && c !in s[..r.value]
  {
    if |s| == 0 then None
    else if s[0] == c then Some(0)
    else
      match IndexOf(s[1..], c)
      case None => None
      case Some(k) =>
        assert s[..k + 1] == [s[0]] + s[1..][..k];
        Some(k + 1)
  }

  /** Reads an age text back: "{n}m", or "{h}h {r}m" standing for 60 * h + r. */
  function ParseAge(s: string): Option<int> {
    if |s| == 0 || s[|s| - 1] != 'm' then None
    else
      var body := s[..|s| - 1];
      match IndexOf(body, 'h')
      case None => ParseInt(body)
      case Some(k) =>
        if k + 1 < |body| && body[k + 1] == ' ' then
          match (ParseNat(body[..k]), ParseNat(body[k + 2..]))
          case (Some(h), Some(rest)) => Some(60 * h + rest)
          case _ => None
        else None
  }

  /** A numeral contains no letter `h`. */
  lemma NumeralHasNoH(n: int)
    ensures 'h' !in IntToString(n)
  {
    if n < 0 {
      assert IntToString(n)[1..] == NatToString(-n);
    }
  }

  /** Reading back an age text gives the age: the text loses nothing. */
  lemma FormatAgeRoundTrip(minutes: int)
    ensures ParseAge(FormatAge(minutes)) == Some(minutes)
  {
    var s := FormatAge(minutes);
    var body := s[..|s| - 1];
    if minutes < 60 {
      assert body == IntToString(minutes);
      NumeralHasNoH(minutes);
      ParseIntRoundTrip(minutes);
    } else {
      var h, r := NatToString(minutes / 60), NatToString(minutes % 60);
      assert body == h + "h " + r;
      var k := |h|;
      assert body[k] == 'h';
      assert 'h' !in h by {
        NumeralHasNoH(minutes / 60);
      }
      var found := IndexOf(body, 'h');
      assert found.Some?;
      assert found.value == k;
      assert body[..k] == h && body[k + 2..] == r;
      ParseNatRoundTrip(minutes / 60);
      ParseNatRoundTrip(minutes % 60);
    }
  }

  /** Distinct ages never share a text. */
  lemma FormatAgeInjective(a: int, b: int)
    requires FormatAge(a) == FormatAge(b)
    ensures a == b
  {
    FormatAgeRoundTrip(a);
    FormatAgeRoundTrip(b);
  }

  /** From an hour on, the text is "{h}h {r}m" with `60 * h + r` the age and `r` under 60. */
  lemma FormatAgeHoursAndMinutes(minutes: int)
    requires minutes >= 60
    ensures exists h: nat, r: nat ::
              && h >= 1 && r < 60 && 60 * h + r == minutes
              && FormatAge(minutes) == NatToString(h) + "h " + NatToString(r) + "m"
  {
    var h, r := minutes / 60, minutes % 60;
    assert 60 * h + r == minutes;
    assert FormatAge(minutes) == NatToString(h) + "h " + NatToString(r) + "m";
  }

  // ---------------------------------------------------------------------------
  // Age severity
  // ---------------------------------------------------------------------------

  /** The colour of the age cell: yellow, orange or red. */
  datatype Severity = Mild | Elevated | Severe

  const MildClass: string := "bg-yellow-100 text-yellow-800 dark:bg-yellow-900/30 dark:text-yellow-300"
  const ElevatedClass: string := "bg-orange-100 text-orange-800 dark:bg-orange-900/30 dark:text-orange-300"
  const SevereClass: string := "bg-red-100 text-red-800 dark:bg-red-900/30 dark:text-red-300"

  /** Over two hours is red, over half an hour orange, anything else yellow. */
  function AgeSeverity(ageMinutes: int): (s: Severity)
    ensures s == Severe <==> ageMinutes > 120
    ensures s == Elevated <==> 30 < ageMinutes <= 120
    ensures s == Mild <==> ageMinutes <= 30
  {
    if ageMinutes > 120 then Severe else if ageMinutes > 30 then Elevated else Mild
  }

  function SeverityClass(s: Severity): string {
    match s
    case Mild => MildClass
    case Elevated => ElevatedClass
    case Severe => SevereClass
  }

  function SeverityRank(s: Severity): nat {
    match s
    case Mild => 0
    case Elevated => 1
    case Severe => 2
  }

  /** An older ride is never shown in a milder colour. */
  lemma SeverityMonotone(a: int, b: int)
    requires a <= b
    ensures SeverityRank(AgeSeverity(a)) <= SeverityRank(AgeSeverity(b))
  {
  }

  // ---------------------------------------------------------------------------
  // The cleanup button
  // ---------------------------------------------------------------------------

  /** "Cleanup Now" is clickable only when no cleanup or load is running and there is
      at least one stuck ride. */
  function CleanupEnabled(cleaning: bool, loading: bool, stuckRides: seq<StuckRide>): (enabled: bool)
    ensures enabled ==> |stuckRides| > 0
    ensures enabled <==> !cleaning && !loading && stuckRides != []
  {
    !(cleaning || loading || |stuckRides| == 0)
  }

  /** What the page shows below the buttons: the spinner while loading, the "No stuck
      rides found" panel for an empty list, and the table of stuck rides otherwise. */
  datatype Panel = LoadingPanel | EmptyPanel | RideTable

  function ShownPanel(loading: bool, stuckRides: seq<StuckRide>): (p: Panel)
    ensures p == LoadingPanel <==> loading
    ensures p == EmptyPanel <==> !loading && stuckRides == []
    ensures p == RideTable <==> !loading && stuckRides != []
  {
    if loading then LoadingPanel else if |stuckRides| == 0 then EmptyPanel else RideTable
  }

  /** "Cleanup Now" is clickable exactly when the table of stuck rides is on screen and no
      cleanup is running; next to the empty panel it is always disabled. */
  lemma CleanupOnlyWithTable(cleaning: bool, loading: bool, stuckRides: seq<StuckRide>)
    ensures CleanupEnabled(cleaning, loading, stuckRides) <==>
              ShownPanel(loading, stuckRides) == RideTable && !cleaning
    ensures ShownPanel(loading, stuckRides) == EmptyPanel ==> !CleanupEnabled(cleaning, loading, stuckRides)
  {
  }
}
