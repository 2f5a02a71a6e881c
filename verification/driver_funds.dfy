/** The driver-funds table (components/DriverFundManagement.tsx): the colour and badge of
    a driver's available fund, the "Depleted" marker, the three summary cards and the
    per-row cells. Amounts are reals; the currency formatting is not modelled. */
module DriverFunds {
  import opened Seqs
  import opened LanguageContext
  import DriversMap
  import DriverVerification

  datatype Driver = Driver(
    id: string,
    email: string,
    firstName: string,
    lastName: string,
    phone: string,
    fund: real,
    earnings: real,
    totalRides: int,
    status: string,
    isOnline: bool)

  // ---------------------------------------------------------------------------
  // Fund level
  // ---------------------------------------------------------------------------

  /** The three levels a fund is shown at: nothing left, under 50, and 50 or more. */
  datatype FundLevel = Danger | Warning | Healthy

  const LowFundThreshold: real := 50.0

  function FundLevelOf(fund: real): (level: FundLevel)
    ensures level == Danger <==> fund <= 0.0
    ensures level == Warning <==> 0.0 < fund < LowFundThreshold
    ensures level == Healthy <==> fund >= LowFundThreshold
  {
    if fund <= 0.0 then Danger else if fund < LowFundThreshold then Warning else Healthy
  }

  function LevelRank(level: FundLevel): nat {
    match level
    case Danger => 0
    case Warning => 1
    case Healthy => 2
  }

  /** More money never shows a worse level. */
  lemma FundLevelMonotone(a: real, b: real)
    requires a <= b
    ensures LevelRank(FundLevelOf(a)) <= LevelRank(FundLevelOf(b))
  {
  }

  /** `getFundStatusColor`: the text colour of the fund cell. */
  function GetFundStatusColor(fund: real): (r: string)
    ensures r == "text-danger" <==> fund <= 0.0
    ensures r == "text-warning" <==> 0.0 < fund < 50.0
    ensures r == "text-success" <==> fund >= 50.0
  {
    if fund <= 0.0 then "text-danger"
    else if fund < 50.0 then "text-warning"
    else "text-success"
  }

  /** `getFundStatusBadge`: the badge class for the same three ranges. */
  function GetFundStatusBadge(fund: real): (r: string)
    ensures r == "badge bg-danger" <==> FundLevelOf(fund) == Danger
    ensures r == "badge bg-warning" <==> FundLevelOf(fund) == Warning
    ensures r == "badge bg-success" <==> FundLevelOf(fund) == Healthy
  {
    if fund <= 0.0 then "badge bg-danger"
    else if fund < 50.0 then "badge bg-warning"
    else "badge bg-success"
  }

  /** The Bootstrap tone of a level. */
  function Tone(level: FundLevel): string {
    match level
    case Danger => "danger"
    case Warning => "warning"
    case Healthy => "success"
  }

  /** The text colour and the badge always carry the tone of the fund's level, so the two
      never disagree. */
  lemma ColorAndBadgeAgree(fund: real)
    ensures GetFundStatusColor(fund) == "text-" + Tone(FundLevelOf(fund))
    ensures GetFundStatusBadge(fund) == "badge bg-" + Tone(FundLevelOf(fund))
  {
  }

  /** The "Depleted" badge next to the amount. */
  predicate ShowsDepleted(d: Driver) {
    d.fund <= 0.0
  }

  /** A driver is marked depleted exactly when the amount is coloured as danger. */
  lemma DepletedIffDanger(d: Driver)
    ensures ShowsDepleted(d) <==> GetFundStatusColor(d.fund) == "text-danger"
  {
  }

  // ---------------------------------------------------------------------------
  // Summary cards
  // ---------------------------------------------------------------------------

  /** The low-funds card: the number of drivers with no fund left. */
  function LowFundsCount(drivers: seq<Driver>): nat {
    |Filter(drivers, ShowsDepleted)|
  }

  function LevelCount(drivers: seq<Driver>, level: FundLevel): nat {
    |Filter(drivers, (d: Driver) => FundLevelOf(d.fund) == level)|
  }

  /** The low-funds card counts exactly the rows whose amount is coloured as danger. */
  lemma LowFundsAreDangerRows(drivers: seq<Driver>)
    ensures LowFundsCount(drivers) == LevelCount(drivers, Danger)
  {
    FilterSameTest(drivers, ShowsDepleted, (d: Driver) => FundLevelOf(d.fund) == Danger);
  }

  /** Every driver is at exactly one level. */
  lemma LevelCountsAddUp(drivers: seq<Driver>)
    ensures LevelCount(drivers, Danger) + LevelCount(drivers, Warning) + LevelCount(drivers, Healthy)
            == |drivers|
  {
    FilterCount3(drivers, (d: Driver) => FundLevelOf(d.fund) == Danger,
      (d: Driver) => FundLevelOf(d.fund) == Warning, (d: Driver) => FundLevelOf(d.fund) == Healthy);
  }

  function Fund(d: Driver): real { d.fund }

  function Earnings(d: Driver): real { d.earnings }

  /** `drivers.reduce((sum, d) => sum + f(d), 0)`, the total-funds and total-earnings
      cards: the sum of `f` over every driver. */
  method TotalOf(drivers: seq<Driver>, f: Driver -> real) returns (total: real)
    ensures total == Sum(drivers, f)
    ensures total == FoldSum(0.0, drivers, f)
  {
    total := 0.0;
    var k := 0;
    while k < |drivers|
      invariant 0 <= k <= |drivers|
      invariant total == Sum(drivers[..k], f)
    {
      SumAppend(drivers[..k], [drivers[k]], f);
      assert drivers[..k + 1] == drivers[..k] + [drivers[k]];
      total := total + f(drivers[k]);
      k := k + 1;
    }
    assert drivers[..k] == drivers;
    FoldSumIsSum(0.0, drivers, f);
  }

  /** When the low-funds card shows 0 and there is a driver, the total-funds card is
      positive. */
  lemma NoDepletedMeansPositiveTotal(drivers: seq<Driver>)
    requires |drivers| > 0 && LowFundsCount(drivers) == 0
    ensures Sum(drivers, Fund) > 0.0
  {
    assert forall d | d in drivers :: Fund(d) > 0.0;
    SumSign(drivers, Fund);
  }

  // ---------------------------------------------------------------------------
  // Row cells
  // ---------------------------------------------------------------------------

  /** The account-status badge: green for `ACTIVE` as spelled, amber for anything else. */
  function AccountStatusBadge(status: string): (r: string)
    ensures r == "badge bg-success" <==> status == "ACTIVE"
    ensures r == "badge bg-warning" <==> status != "ACTIVE"
  {
    if status == "ACTIVE" then "badge bg-success" else "badge bg-warning"
  }

  /** The account badge is green exactly for the drivers the verification screen shows
      green, both switches comparing the status as spelled. */
  lemma AccountBadgeAgreesWithVerification(status: string)
    ensures AccountStatusBadge(status) == "badge bg-success" <==>
              DriverVerification.GetStatusBadgeClass(status) == DriverVerification.ActiveBadge
  {
  }

  /** The presence dot before the name. */
  function OnlineDot(isOnline: bool): (r: string)
    ensures r == "bg-success" <==> isOnline
    ensures r == "bg-secondary" <==> !isOnline
  {
    if isOnline then "bg-success" else "bg-secondary"
  }

  /** The dot is green exactly for the drivers the live map shows as online, available
      or busy. */
  lemma OnlineDotAgreesWithMap(isOnline: bool, isAvailable: bool)
    ensures OnlineDot(isOnline) == "bg-success" <==>
              DriversMap.PresenceOf(isOnline, isAvailable) != DriversMap.Offline
  {
  }

  /** The id under the name: its first eight characters (fewer if it is shorter) and an
      ellipsis. */
  function ShortId(id: string): (r: string)
    ensures |r| == (if |id| < 8 then |id| else 8) + 3
    ensures r[..|r| - 3] <= id && r[|r| - 3..] == "..."
  {
    (if |id| < 8 then id else id[..8]) + "..."
  }

  /** Two ids that agree on their first eight characters look the same in the table. */
  lemma ShortIdSharedPrefix(a: string, b: string)
    requires |a| >= 8 && |b| >= 8 && a[..8] == b[..8]
    ensures ShortId(a) == ShortId(b)
  {
  }

  /** The phone cell: the phone number, or the "not available" text when it is empty. */
  function PhoneCell(phone: string): (l: Label)
    ensures l == Raw(phone) <==> phone != ""
    ensures l == Key("common.na") <==> phone == ""
  {
    if phone != "" then Raw(phone) else Key("common.na")
  }

  /** The phone cell is never blank: an empty phone shows the "not available" text, which
      falls back to its non-empty key when no translation is given. */
  lemma PhoneCellNeverBlank(tr: Translations, lang: Language, phone: string)
    ensures Render(tr, lang, PhoneCell(phone)) != ""
  {
    if phone == "" {
      TranslateNonEmpty(tr, lang, "common.na");
    }
  }
}
