/** The travel plan generator: a day-by-day table between a start date and
    either a number of days or an end date, and the settings form's
    comma-separated option lists. Dates are day numbers. */
module TravelPlanner {

  import opened Wrappers
  import opened Text

  /** One row of the plan; every column but "Day" and "Date" starts empty. */
  datatype PlanRow = PlanRow(
    day: int,
    date: int,
    location: string,
    accommodation: string,
    transport: string,
    activity: string,
    links: string)

  /** The number of days the plan covers: an end date overrides a day
      count, and the end date itself is included. */
  function DayCount(start: int, numDays: Option<int>, endDate: Option<int>): (r: Option<int>)
    ensures r.None? <==> numDays.None? && endDate.None?
    ensures endDate.Some? ==> r == Some(endDate.value - start + 1)
    ensures endDate.None? ==> r == numDays
  {
    if numDays.None? && endDate.None? then None
    else if endDate.Some? then Some(endDate.value - start + 1)
    else numDays
  }

  /** `generate_travel_plan(start_date, num_days, end_date)`. */
  function GenerateTravelPlan(start: int, numDays: Option<int>, endDate: Option<int>): (plan: seq<PlanRow>)
    ensures numDays.None? && endDate.None? ==> plan == []
    ensures endDate.Some? ==> |plan| == if endDate.value >= start then endDate.value - start + 1 else 0
    ensures endDate.None? && numDays.Some? ==> |plan| == if numDays.value > 0 then numDays.value else 0
    ensures forall i :: 0 <= i < |plan| ==> plan[i].day == i + 1 && plan[i].date == start + i
    ensures forall i :: 0 <= i < |plan| ==>
              plan[i].location == plan[i].accommodation == plan[i].transport
              == plan[i].activity == plan[i].links == ""
    ensures |plan| > 0 ==> plan[0].date == start
    ensures endDate.Some? && endDate.value >= start ==> plan[|plan| - 1].date == endDate.value
  {
    match DayCount(start, numDays, endDate)
    case None => []
    case Some(n) =>
      seq(if n > 0 then n else 0, i => PlanRow(i + 1, start + i, "", "", "", "", ""))
  }

  /** A day count and the end date it implies give the same plan. */
  lemma DayCountMatchesEndDate(start: int, n: int)
    ensures GenerateTravelPlan(start, Some(n), None) == GenerateTravelPlan(start, None, Some(start + n - 1))
  {
  }

  /** How the settings describe the trip's length. */
  datatype Duration = NumberOfDays | EndDate

  datatype Config = Config(
    start: int,
    duration: Duration,
    numDays: int,
    endDate: int,
    locations: seq<string>,
    accommodations: seq<string>,
    transports: seq<string>,
    activities: seq<string>)

  /** `DEFAULT_CONFIG` on day `today`. */
  function DefaultConfig(today: int): (c: Config)
    ensures c.start == today && c.duration == NumberOfDays && c.numDays == 10
    ensures DayCount(c.start, None, Some(c.endDate)) == Some(c.numDays)
    ensures |c.locations| > 0 && |c.accommodations| > 0 && |c.transports| > 0 && |c.activities| > 0
  {
    Config(today, NumberOfDays, 10, today + 9,
           ["Phuket", "Krabi (Ao Nang)", "Phi Phi", "Koh Lanta", "Koh Mook", "Koh Lipe", "Kuala Lumpur", "Budapest"],
           ["Hotel", "Bungalow", "Apartment"],
           ["Flight", "Train", "Bus", "Ferry", "Taxi", "Car"],
           ["Sightseeing", "Relaxing", "Hiking", "Swimming", "Shopping"])
  }

  /** "Generate Plan": only the field the duration option selects is passed,
      so the plan's length follows the day count or the end date. */
  function PlanFor(c: Config): (plan: seq<PlanRow>)
    ensures c.duration == NumberOfDays ==> |plan| == if c.numDays > 0 then c.numDays else 0
    ensures c.duration == EndDate ==> |plan| == if c.endDate >= c.start then c.endDate - c.start + 1 else 0
    ensures forall i :: 0 <= i < |plan| ==> plan[i].day == i + 1 && plan[i].date == c.start + i
  {
    match c.duration
    case NumberOfDays => GenerateTravelPlan(c.start, Some(c.numDays), None)
    case EndDate => GenerateTravelPlan(c.start, None, Some(c.endDate))
  }

  /** The field the duration option does not select has no effect. */
  lemma PlanIgnoresOtherField(c: Config, n: int, e: int)
    ensures c.duration == NumberOfDays ==> PlanFor(c.(endDate := e)) == PlanFor(c)
    ensures c.duration == EndDate ==> PlanFor(c.(numDays := n)) == PlanFor(c)
  {
  }

  /** The default day count and the default end date describe the same
      ten-day plan, from today to nine days later. */
  lemma DefaultConfigConsistent(today: int)
    ensures var c := DefaultConfig(today);
            && PlanFor(c) == PlanFor(c.(duration := EndDate))
            && |PlanFor(c)| == 10
            && PlanFor(c)[9].date == c.endDate
  {
    DayCountMatchesEndDate(today, 10);
  }

  /** A text area showing `", ".join(items)`, read back with `.split(", ")`. */
  function EditList(items: seq<string>): (r: seq<string>)
    ensures |r| >= 1
    ensures forall k :: 0 <= k < |r| ==> !Contains(r[k], ", ")
  {
    SplitPartsFree(Join(items, ", "), ", ");
    Split(Join(items, ", "), ", ")
  }

  lemma CommaSpaceUnbordered()
    ensures Unbordered(", ")
  {
    assert ", "[..1][0] != ", "[1..][0];
  }

  /** Items without ", " inside come back unchanged from a non-empty list. */
  lemma EditListRoundTrip(items: seq<string>)
    requires |items| > 0
    requires forall i :: 0 <= i < |items| ==> !Contains(items[i], ", ")
    ensures EditList(items) == items
  {
    CommaSpaceUnbordered();
    SplitJoin(items, ", ");
  }

  /** An empty list comes back as one empty item. */
  lemma EditListEmpty()
    ensures EditList([]) == [""]
  {
    SplitJoinEmpty(", ");
  }

  /** An item holding ", " comes back as two items. */
  lemma EditListSplitsItem()
    ensures EditList(["Krabi, Ao Nang"]) == ["Krabi", "Ao Nang"]
  {
    assert Join(["Krabi, Ao Nang"], ", ") == Join(["Krabi", "Ao Nang"], ", ");
    NoFirstCharNoContains("Krabi", ", ");
    NoFirstCharNoContains("Ao Nang", ", ");
    EditListRoundTrip(["Krabi", "Ao Nang"]);
  }

  /** Whatever the list, a second pass through the text area changes nothing. */
  lemma EditListIdempotent(items: seq<string>)
    ensures EditList(EditList(items)) == EditList(items)
  {
    var s := Join(items, ", ");
    JoinSplit(s, ", ");
  }

  /** A non-empty list whose items hold no comma survives the text area. */
  lemma CommaFreeSurvives(xs: seq<string>)
    requires |xs| > 0
    requires forall i :: 0 <= i < |xs| ==> ',' !in xs[i]
    ensures EditList(xs) == xs
  {
    forall i | 0 <= i < |xs|
      ensures !Contains(xs[i], ", ")
    {
      NoFirstCharNoContains(xs[i], ", ");
    }
    EditListRoundTrip(xs);
  }

  lemma LocationsSurvive(today: int)
    ensures var c := DefaultConfig(today); EditList(c.locations) == c.locations
  {
    CommaFreeSurvives(DefaultConfig(today).locations);
  }

  lemma AccommodationsSurvive(today: int)
    ensures var c := DefaultConfig(today); EditList(c.accommodations) == c.accommodations
  {
    CommaFreeSurvives(DefaultConfig(today).accommodations);
  }

  lemma TransportsSurvive(today: int)
    ensures var c := DefaultConfig(today); EditList(c.transports) == c.transports
  {
    CommaFreeSurvives(DefaultConfig(today).transports);
  }

  lemma ActivitiesSurvive(today: int)
    ensures var c := DefaultConfig(today); EditList(c.activities) == c.activities
  {
    CommaFreeSurvives(DefaultConfig(today).activities);
  }

  /** The default option lists survive the text areas unchanged. */
  lemma DefaultListsSurvive(today: int)
    ensures var c := DefaultConfig(today);
            && EditList(c.locations) == c.locations
            && EditList(c.accommodations) == c.accommodations
            && EditList(c.transports) == c.transports
            && EditList(c.activities) == c.activities
  {
    LocationsSurvive(today);
    AccommodationsSurvive(today);
    TransportsSurvive(today);
    ActivitiesSurvive(today);
  }
}
