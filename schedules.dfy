/**
 The data the scheduler works on: genes (one scheduled activity each),
 schedules (one gene per activity, in catalog order), the read-only catalog
 tables, and the random draws that the search consumes, made explicit.
 */
module Schedules {

  datatype Option<+T> = None | Some(value: T)

  /** One scheduled activity: the room, timeslot and facilitator assigned to it. */
  datatype Gene = Gene(activity: string, room: string, timeSlot: string, facilitator: string)

  /** A candidate timetable: an ordered list of genes. */
  type Schedule = seq<Gene>

  /**
   The catalog tables: the activity order, room capacities, timeslots,
   facilitators, each activity's preferred facilitators and expected enrollment.
   */
  datatype Catalog = Catalog(
    activities: seq<string>,
    rooms: map<string, int>,
    timeslots: seq<string>,
    facilitators: seq<string>,
    preferred: map<string, seq<string>>,
    enrollment: map<string, int>)

  /**
   The random choices behind one freshly drawn gene: the room key picked from
   the room table, and the indices drawn for the timeslot and the facilitator.
   */
  datatype Draw = Draw(room: string, slot: nat, facilitator: nat)

  const INT32_MIN: int := -0x8000_0000
  const INT32_MAX: int := 0x7fff_ffff

  predicate IsInt32(x: int) {
    INT32_MIN <= x <= INT32_MAX
  }

  /** How many times a loop `for (i = 0; i < n; i++)` runs. */
  function Iterations(n: int): (k: nat) {
    if n < 0 then 0 else n
  }

  /**
   A catalog whose tables can be consulted for every activity: each activity
   has an enrollment and a preferred list, and every number is a Java `int`.
   */
  predicate ValidCatalog(cat: Catalog) {
    && (forall a :: a in cat.activities ==> a in cat.enrollment && a in cat.preferred)
    && (forall r :: r in cat.rooms ==> IsInt32(cat.rooms[r]))
    && (forall a :: a in cat.enrollment ==> IsInt32(cat.enrollment[a]))
  }

  /** A draw that picks a real room and in-range timeslot and facilitator indices. */
  predicate ValidDraw(cat: Catalog, d: Draw) {
    d.room in cat.rooms && d.slot < |cat.timeslots| && d.facilitator < |cat.facilitators|
  }

  /** The gene built for `activity` from the draw `d`. */
  function Assign(cat: Catalog, activity: string, d: Draw): (g: Gene)
    requires ValidDraw(cat, d)
    ensures g.activity == activity && g.room == d.room
    ensures g.timeSlot in cat.timeslots && g.facilitator in cat.facilitators
  {
    Gene(activity, d.room, cat.timeslots[d.slot], cat.facilitators[d.facilitator])
  }

  /** The lookups the fitness function makes for `g` all find a key. */
  predicate Scoreable(cat: Catalog, g: Gene) {
    g.room in cat.rooms && g.activity in cat.enrollment && g.activity in cat.preferred
  }

  predicate AllScoreable(cat: Catalog, s: Schedule) {
    forall i :: 0 <= i < |s| ==> Scoreable(cat, s[i])
  }

  /** Room, timeslot and facilitator of `g` all come from the catalog. */
  predicate InCatalog(cat: Catalog, g: Gene) {
    g.room in cat.rooms && g.timeSlot in cat.timeslots && g.facilitator in cat.facilitators
  }

  /** `s` has exactly one gene per activity, in catalog order. */
  predicate Conforms(cat: Catalog, s: Schedule) {
    |s| == |cat.activities| && forall i :: 0 <= i < |s| ==> s[i].activity == cat.activities[i]
  }

  /** A schedule the search can produce: conforming, with every gene from the catalog. */
  predicate WellFormed(cat: Catalog, s: Schedule) {
    Conforms(cat, s) && forall i :: 0 <= i < |s| ==> InCatalog(cat, s[i])
  }

  /** Every schedule the search can produce can be scored without a failed lookup. */
  lemma WellFormedIsScoreable(cat: Catalog, s: Schedule)
    requires ValidCatalog(cat) && WellFormed(cat, s)
    ensures AllScoreable(cat, s)
  {
    forall i | 0 <= i < |s|
      ensures Scoreable(cat, s[i])
    {
      assert cat.activities[i] in cat.activities;
    }
  }

  /** The catalog the program is configured with. */
  function SourceCatalog(): Catalog {
    var lsOne := ["Glen", "Lock", "Banks", "Zeldin"];
    var tss := ["Tyler", "Singer", "Shaw"];
    Catalog(
      ["SLA100A", "SLA100B", "SLA191A", "SLA191B", "SLA201",
       "SLA291", "SLA303", "SLA304", "SLA394", "SLA449", "SLA451"],
      map["Slater 003" := 45, "Roman 216" := 30, "Loft 206" := 75,
          "Roman 201" := 50, "Loft 310" := 108, "Beach 201" := 60,
          "Beach 301" := 75, "Logos 325" := 450, "Frank 119" := 60],
      ["10 AM", "11 AM", "12 PM", "1 PM", "2 PM", "3 PM"],
      ["Lock", "Glen", "Banks", "Richards", "Shaw", "Singer", "Uther", "Tyler", "Numen", "Zeldin"],
      map["SLA100A" := lsOne, "SLA100B" := lsOne, "SLA191A" := lsOne, "SLA191B" := lsOne,
          "SLA201" := ["Glen", "Banks", "Zeldin", "Shaw"],
          "SLA291" := ["Lock", "Banks", "Zeldin", "Singer"],
          "SLA303" := ["Glen", "Zeldin", "Banks"],
          "SLA304" := ["Glen", "Banks", "Tyler"],
          "SLA394" := ["Tyler", "Singer"],
          "SLA449" := tss, "SLA451" := tss],
      map["SLA100A" := 50, "SLA100B" := 50, "SLA191A" := 50, "SLA191B" := 50,
          "SLA201" := 50, "SLA291" := 50, "SLA303" := 60, "SLA304" := 25,
          "SLA394" := 20, "SLA449" := 60, "SLA451" := 100])
  }

  /** Every configured activity has an enrollment and a preferred list. */
  lemma SourceCatalogCoversActivities()
    ensures |SourceCatalog().activities| == 11
    ensures forall a :: a in SourceCatalog().activities ==>
      a in SourceCatalog().enrollment && a in SourceCatalog().preferred
  {
  }

  /**
   Every configured enrollment lies in [0, 100], so six times it is still a
   Java `int`, and every configured capacity lies in [0, 450].
   */
  lemma SourceCatalogBounds()
    ensures forall a :: a in SourceCatalog().enrollment ==>
      0 <= SourceCatalog().enrollment[a] <= 100 && IsInt32(6 * SourceCatalog().enrollment[a])
    ensures forall r :: r in SourceCatalog().rooms ==> 0 <= SourceCatalog().rooms[r] <= 450
  {
  }

  /** The configured catalog is valid. */
  lemma SourceCatalogValid()
    ensures ValidCatalog(SourceCatalog())
  {
    SourceCatalogCoversActivities();
    SourceCatalogBounds();
  }
}
