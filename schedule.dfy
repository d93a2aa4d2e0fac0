/** The schedule page: the selected day's matches split into the three
    category sections, each with its match count. */
module Schedule {
  import opened Common
  import opened SportsData

  /** The date selected when the page opens: the first festival date. */
  function InitialDate(): (d: string)
    ensures d == FestDates[0] && d == "22"
  {
    FestDates[0]
  }

  predicate InCategory(c: SportCategory, m: Match) {
    m.sportCategory == c
  }

  /** One of the three `matches.filter(m => m.sportCategory === ...)` lists. */
  function OfCategory(ms: seq<Match>, c: SportCategory): (r: seq<Match>)
    ensures forall i :: 0 <= i < |r| ==> r[i].sportCategory == c && r[i] in ms
    ensures forall i :: 0 <= i < |ms| && ms[i].sportCategory == c ==> ms[i] in r
    ensures Subsequence(r, ms)
  {
    Filter(ms, m => InCategory(c, m))
  }

  /** A category's list holds each of the category's matches as often as the
      day does, and nothing else. */
  lemma OfCategoryCounts(ms: seq<Match>, c: SportCategory)
    ensures forall m :: multiset(OfCategory(ms, c))[m] == if m.sportCategory == c then multiset(ms)[m] else 0
  {
    FilterCounts(ms, m => InCategory(c, m));
  }

  /** The three lists split the day: their sizes add up to the day's total. */
  lemma {:induction false} CategoriesPartition(ms: seq<Match>)
    ensures |OfCategory(ms, TeamCategory)| + |OfCategory(ms, IndividualCategory)| + |OfCategory(ms, MinorCategory)| == |ms|
  {
    if ms != [] {
      CategoriesPartition(ms[1..]);
    }
  }

  /** `(n match)`, with the plural only above one. */
  function CountLabel(n: nat): (r: string)
    ensures n == 1 ==> r == "(1 match)"
    ensures n == 0 ==> r == "(0 match)"
    ensures n >= 2 ==> r == "(" + NatToString(n) + " matches)"
  {
    "(" + NatToString(n) + " match" + (if n > 1 then "es" else "") + ")"
  }

  datatype Section = Section(title: string, count: string, matches: seq<Match>)

  datatype DayView = NoMatches | Sections(sections: seq<Section>)

  /** The heading of a category's section. */
  function Title(c: SportCategory): string {
    match c
    case TeamCategory => "Team Sports"
    case IndividualCategory => "Individual Sports"
    case MinorCategory => "Minor Sports"
  }

  /** The section of a category: its heading, its count label and its matches. */
  function SectionFor(ms: seq<Match>, c: SportCategory): Section {
    var cs := OfCategory(ms, c);
    Section(Title(c), CountLabel(|cs|), cs)
  }

  /** The section of a category when it has matches. */
  function SectionIf(ms: seq<Match>, c: SportCategory): seq<Section> {
    if OfCategory(ms, c) != [] then [SectionFor(ms, c)] else []
  }

  function SectionsOf(ms: seq<Match>): seq<Section> {
    SectionIf(ms, TeamCategory) + SectionIf(ms, IndividualCategory) + SectionIf(ms, MinorCategory)
  }

  /** One count per category that has matches. */
  function Present(ms: seq<Match>, c: SportCategory): nat {
    if OfCategory(ms, c) != [] then 1 else 0
  }

  function Total(sections: seq<Section>): nat {
    if sections == [] then 0 else |sections[0].matches| + Total(sections[1..])
  }

  lemma {:induction false} TotalConcat(a: seq<Section>, b: seq<Section>)
    ensures Total(a + b) == Total(a) + Total(b)
  {
    if a == [] {
      assert a + b == b;
    } else {
      assert (a + b)[1..] == a[1..] + b;
      TotalConcat(a[1..], b);
    }
  }

  /** What the page shows for a day's matches: the placeholder when there are
      none, otherwise one section per category that has matches, in the order
      team, individual, minor, each holding that category's matches in day
      order under its heading and count label. Every section is non-empty and
      together they hold every match. */
  function DayViewOf(ms: seq<Match>): (v: DayView)
    ensures ms == [] <==> v == NoMatches
    ensures v.Sections? ==> 1 <= |v.sections| <= 3 && Total(v.sections) == |ms|
    ensures v.Sections? ==> forall i :: 0 <= i < |v.sections| ==> v.sections[i].matches != []
    ensures v.Sections? ==>
              |v.sections| == Present(ms, TeamCategory) + Present(ms, IndividualCategory) + Present(ms, MinorCategory)
    ensures v.Sections? && OfCategory(ms, TeamCategory) != [] ==>
              v.sections[0] == Section("Team Sports", CountLabel(|OfCategory(ms, TeamCategory)|), OfCategory(ms, TeamCategory))
    ensures v.Sections? && OfCategory(ms, IndividualCategory) != [] ==>
              v.sections[Present(ms, TeamCategory)]
                == Section("Individual Sports", CountLabel(|OfCategory(ms, IndividualCategory)|), OfCategory(ms, IndividualCategory))
    ensures v.Sections? && OfCategory(ms, MinorCategory) != [] ==>
              v.sections[Present(ms, TeamCategory) + Present(ms, IndividualCategory)]
                == Section("Minor Sports", CountLabel(|OfCategory(ms, MinorCategory)|), OfCategory(ms, MinorCategory))
  {
    if ms == [] then NoMatches
    else
      SectionsCoverDay(ms);
      SectionsLayout(ms);
      Sections(SectionsOf(ms))
  }

  /** The sections of a day are non-empty and hold all its matches. */
  lemma SectionsCoverDay(ms: seq<Match>)
    ensures Total(SectionsOf(ms)) == |ms|
    ensures forall i :: 0 <= i < |SectionsOf(ms)| ==> SectionsOf(ms)[i].matches != []
  {
    var t, d, n := SectionIf(ms, TeamCategory), SectionIf(ms, IndividualCategory), SectionIf(ms, MinorCategory);
    CategoriesPartition(ms);
    TotalConcat(t, d);
    TotalConcat(t + d, n);
    assert SectionsOf(ms) == t + d + n;
  }

  /** Where each category's section sits among the sections of a day. */
  lemma SectionsLayout(ms: seq<Match>)
    ensures |SectionsOf(ms)| == Present(ms, TeamCategory) + Present(ms, IndividualCategory) + Present(ms, MinorCategory)
    ensures OfCategory(ms, TeamCategory) != [] ==> SectionsOf(ms)[0] == SectionFor(ms, TeamCategory)
    ensures OfCategory(ms, IndividualCategory) != [] ==>
              SectionsOf(ms)[Present(ms, TeamCategory)] == SectionFor(ms, IndividualCategory)
    ensures OfCategory(ms, MinorCategory) != [] ==>
              SectionsOf(ms)[Present(ms, TeamCategory) + Present(ms, IndividualCategory)] == SectionFor(ms, MinorCategory)
  {
    var t, d, n := SectionIf(ms, TeamCategory), SectionIf(ms, IndividualCategory), SectionIf(ms, MinorCategory);
    assert SectionsOf(ms) == t + d + n;
    assert |t| == Present(ms, TeamCategory) && |d| == Present(ms, IndividualCategory);
    if d != [] {
      assert (t + d + n)[|t|] == d[0];
    }
    if n != [] {
      assert (t + d + n)[|t| + |d|] == n[0];
    }
  }

  /** The page for a selected date: a festival day always has sections, and
      together they hold every match of that day; another date shows the
      placeholder. */
  function SchedulePage(date: string): (v: DayView)
    ensures v == NoMatches <==> date !in FestDates
    ensures v.Sections? ==> Total(v.sections) == |GetMatchesByDate(date)|
  {
    DayViewOf(GetMatchesByDate(date))
  }
}
