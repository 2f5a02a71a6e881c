/** The active-rides table (components/ActiveRides.tsx): the status badge colour, the
    status text shown in it, and the three tallies above the table. */
module ActiveRides {
  import opened Text
  import opened Seqs

  /** A ride as the admin API lists it (amounts and distances as reals). */
  datatype Ride = Ride(
    id: string,
    userId: string,
    driverId: string,
    status: string,
    estimatedFare: real,
    distance: real,
    duration: real)

  // ---------------------------------------------------------------------------
  // Status badge colour
  // ---------------------------------------------------------------------------

  const RequestedClass: string := "bg-yellow-100 text-yellow-800"
  const AcceptedClass: string := "bg-blue-100 text-blue-800"
  const PickupClass: string := "bg-purple-100 text-purple-800"
  const InProgressClass: string := "bg-green-100 text-green-800"
  const CancelledClass: string := "bg-red-100 text-red-800"
  /** Shared by COMPLETED and every unrecognised status. */
  const GrayClass: string := "bg-gray-100 text-gray-800"

  /** `getStatusColor`: switches on the upper-cased status. */
  function GetStatusColor(status: string): (r: string)
    ensures r == RequestedClass <==> Upper(status) == "REQUESTED"
    ensures r == AcceptedClass <==> Upper(status) == "ACCEPTED"
    ensures r == PickupClass <==> Upper(status) == "PICKUP"
    ensures r == InProgressClass <==> Upper(status) == "IN_PROGRESS"
    ensures r == CancelledClass <==> Upper(status) == "CANCELLED"
    ensures r == GrayClass <==>
              Upper(status) !in {"REQUESTED", "ACCEPTED", "PICKUP", "IN_PROGRESS", "CANCELLED"}
  {
    match Upper(status)
    case "REQUESTED" => RequestedClass
    case "ACCEPTED" => AcceptedClass
    case "PICKUP" => PickupClass
    case "IN_PROGRESS" => InProgressClass
    case "COMPLETED" => GrayClass
    case "CANCELLED" => CancelledClass
    case _ => GrayClass
  }

  /** Any casing of a status gets the colour of its lower-case spelling. */
  lemma StatusColorIgnoresCase(status: string)
    ensures GetStatusColor(Lower(status)) == GetStatusColor(status)
  {
    UpperOfLower(status);
  }

  // ---------------------------------------------------------------------------
  // Status text
  // ---------------------------------------------------------------------------

  /** The regular-expression class `\w`: ASCII letters, digits and `_`. */
  predicate IsWordChar(c: char) {
    ('a' <= c <= 'z') || ('A' <= c <= 'Z') || ('0' <= c <= '9') || c == '_'
  }

  /** `replace(/_/g, ' ')`. */
  function ReplaceUnderscores(s: string): string {
    seq(|s|, i requires 0 <= i < |s| => if s[i] == '_' then ' ' else s[i])
  }

  /** `replace(/\b\w/g, l => l.toUpperCase())` as the left-to-right scan a regular
      expression engine performs: a word character right after a non-word character
      (or at the start, when `afterWord` is false) is a match and is upper-cased. */
  function UpperWordStarts(s: string, afterWord: bool): string
    decreases |s|
  {
    if |s| == 0 then ""
    else
      var c := if IsWordChar(s[0]) && !afterWord then UpperChar(s[0]) else s[0];
      [c] + UpperWordStarts(s[1..], IsWordChar(s[0]))
  }

  /** `formatStatus`. */
  function FormatStatus(status: string): string {
    UpperWordStarts(ReplaceUnderscores(status), false)
  }

  /** Whether position `i` of `t` starts a regular-expression word. */
  predicate StartsWord(t: string, i: int)
    requires 0 <= i < |t|
  {
    IsWordChar(t[i]) && (i == 0 || !IsWordChar(t[i - 1]))
  }

  /** What `formatStatus` puts at position `i`: the status with underscores turned into
      spaces, upper-cased where a word starts. */
  function StatusChar(status: string, i: int): char
    requires 0 <= i < |status|
  {
    var t := ReplaceUnderscores(status);
    if StartsWord(t, i) then UpperChar(t[i]) else t[i]
  }

  /** What the scan puts at position `i` of `s`, when the text before `s` ended (or not)
      in a word character. */
  function ScanChar(s: string, afterWord: bool, i: int): char
    requires 0 <= i < |s|
  {
    var before := if i == 0 then afterWord else IsWordChar(s[i - 1]);
    if IsWordChar(s[i]) && !before then UpperChar(s[i]) else s[i]
  }

  lemma {:induction false} UpperWordStartsPointwise(s: string, afterWord: bool)
    ensures |UpperWordStarts(s, afterWord)| == |s|
    ensures forall i | 0 <= i < |s| :: UpperWordStarts(s, afterWord)[i] == ScanChar(s, afterWord, i)
    decreases |s|
  {
    if |s| > 0 {
      var tail := s[1..];
      UpperWordStartsPointwise(tail, IsWordChar(s[0]));
      var r := UpperWordStarts(s, afterWord);
      assert r == [ScanChar(s, afterWord, 0)] + UpperWordStarts(tail, IsWordChar(s[0]));
      forall i | 0 < i < |s|
        ensures r[i] == ScanChar(s, afterWord, i)
      {
        assert r[i] == ScanChar(tail, IsWordChar(s[0]), i - 1);
        assert tail[i - 1] == s[i];
        if i > 1 {
          assert tail[i - 2] == s[i - 1];
        }
      }
    }
  }

  /** `formatStatus` keeps the length and rewrites the status character by character as
      `StatusChar` says. */
  lemma FormatStatusPointwise(status: string)
    ensures |FormatStatus(status)| == |status|
    ensures forall i | 0 <= i < |status| :: FormatStatus(status)[i] == StatusChar(status, i)
  {
    var t := ReplaceUnderscores(status);
    UpperWordStartsPointwise(t, false);
    forall i | 0 <= i < |status|
      ensures FormatStatus(status)[i] == StatusChar(status, i)
    {
      assert FormatStatus(status)[i] == ScanChar(t, false, i);
    }
  }

  /** The status text never contains an underscore. */
  lemma FormatStatusHasNoUnderscore(status: string)
    ensures '_' !in FormatStatus(status)
  {
    FormatStatusPointwise(status);
    var r := FormatStatus(status);
    forall i | 0 <= i < |r|
      ensures r[i] != '_'
    {
      assert r[i] == StatusChar(status, i);
    }
  }

  /** Formatting an already formatted status changes nothing. */
  lemma FormatStatusIdempotent(status: string)
    ensures FormatStatus(FormatStatus(status)) == FormatStatus(status)
  {
    var u := FormatStatus(status);
    var t := ReplaceUnderscores(status);
    FormatStatusPointwise(status);
    FormatStatusPointwise(u);
    assert ReplaceUnderscores(u) == u by {
      forall i | 0 <= i < |u|
        ensures u[i] != '_'
      {
        assert u[i] == StatusChar(status, i);
      }
    }
    assert forall i | 0 <= i < |u| :: IsWordChar(u[i]) == IsWordChar(t[i]) by {
      forall i | 0 <= i < |u|
        ensures IsWordChar(u[i]) == IsWordChar(t[i])
      {
        assert u[i] == StatusChar(status, i);
      }
    }
    forall i | 0 <= i < |u|
      ensures FormatStatus(u)[i] == u[i]
    {
      assert FormatStatus(u)[i] == StatusChar(u, i);
      assert u[i] == StatusChar(status, i);
      if i > 0 {
        assert IsWordChar(u[i - 1]) == IsWordChar(t[i - 1]);
      }
    }
  }

  /** Word starts are upper-cased but nothing is lower-cased: a lower-case status comes
      out in title case, an upper-case one stays upper-case. */
  lemma FormatStatusExamples()
    ensures FormatStatus("in_progress") == "In Progress"
    ensures FormatStatus("IN_PROGRESS") == "IN PROGRESS"
  {
    FormatStatusExample("in_progress", "In Progress");
    FormatStatusExample("IN_PROGRESS", "IN PROGRESS");
  }

  /** Checks a formatted text against `StatusChar` position by position. */
  lemma FormatStatusExample(status: string, expected: string)
    requires |expected| == |status|
    requires forall i | 0 <= i < |status| :: expected[i] == StatusChar(status, i)
    ensures FormatStatus(status) == expected
  {
    FormatStatusPointwise(status);
  }

  // ---------------------------------------------------------------------------
  // Tallies
  // ---------------------------------------------------------------------------

  function RequestedCount(rides: seq<Ride>): nat {
    |Filter(rides, (r: Ride) => r.status == "REQUESTED")|
  }

  /** The "accepted" card counts ACCEPTED and PICKUP rides together. */
  function AcceptedCount(rides: seq<Ride>): nat {
    |Filter(rides, (r: Ride) => r.status == "ACCEPTED" || r.status == "PICKUP")|
  }

  function InProgressCount(rides: seq<Ride>): nat {
    |Filter(rides, (r: Ride) => r.status == "IN_PROGRESS")|
  }

  /** No ride is counted on two cards, so the three cards add up to at most the number of
      rides, and to exactly that number when every ride is in one of the four statuses. */
  lemma TalliesAreDisjoint(rides: seq<Ride>)
    ensures RequestedCount(rides) + AcceptedCount(rides) + InProgressCount(rides) <= |rides|
    ensures (forall r | r in rides :: r.status in {"REQUESTED", "ACCEPTED", "PICKUP", "IN_PROGRESS"}) ==>
              RequestedCount(rides) + AcceptedCount(rides) + InProgressCount(rides) == |rides|
  {
    FilterCount3(rides, (r: Ride) => r.status == "REQUESTED",
      (r: Ride) => r.status == "ACCEPTED" || r.status == "PICKUP", (r: Ride) => r.status == "IN_PROGRESS");
  }
}
