/** The built-in festival data: the sports of each category, the match
    schedule, the festival dates and the three lookups over them. */
module SportsData {
  import opened Common

  datatype SportCategory = TeamCategory | IndividualCategory | MinorCategory

  datatype Team = Team(name: string, matchesPlayed: nat, wins: nat, losses: nat, points: nat)

  datatype Group = Group(name: string, teams: seq<Team>)

  datatype Match = Match(id: string, sport: string, sportCategory: SportCategory, matchName: string,
                         date: string, time: string, venue: Option<string>)

  datatype Sport = Sport(id: string, name: string, category: SportCategory,
                         liveStreamUrl: Option<string>, groups: Option<seq<Group>>)

  const DemoStream := Some("https://www.youtube.com/embed/dQw4w9WgXcQ")

  const TeamSports: seq<Sport> := [
    Sport("cricket", "Cricket", TeamCategory, DemoStream, Some([
      Group("Group A", [Team("Computer Science", 2, 2, 0, 4), Team("Electronics", 2, 1, 1, 2), Team("Mechanical", 2, 0, 2, 0)]),
      Group("Group B", [Team("Civil", 2, 2, 0, 4), Team("Chemical", 2, 1, 1, 2), Team("Electrical", 2, 0, 2, 0)])])),
    Sport("volleyball", "Volleyball", TeamCategory, DemoStream, Some([
      Group("Group A", [Team("IT Department", 1, 1, 0, 2), Team("Physics", 1, 0, 1, 0)])])),
    Sport("football", "Football", TeamCategory, DemoStream, Some([
      Group("Group A", [Team("MBA", 2, 1, 1, 2), Team("BBA", 2, 1, 1, 2), Team("Commerce", 2, 1, 1, 2)])])),
    Sport("throwball", "Throwball", TeamCategory, DemoStream, Some([
      Group("Group A", [Team("Arts", 1, 1, 0, 2), Team("Science", 1, 0, 1, 0)])])),
    Sport("basketball", "Basketball", TeamCategory, DemoStream, Some([
      Group("Group A", [Team("Engineering", 2, 2, 0, 4), Team("Management", 2, 1, 1, 2), Team("Law", 2, 0, 2, 0)])]))
  ]

  const IndividualSports: seq<Sport> := [
    Sport("badminton", "Badminton", IndividualCategory, DemoStream, None),
    Sport("chess", "Chess", IndividualCategory, DemoStream, None),
    Sport("table-tennis", "Table Tennis", IndividualCategory, DemoStream, None)
  ]

  const MinorSports: seq<Sport> := [
    Sport("gully-cricket", "Gully Cricket", MinorCategory, None, None),
    Sport("pentathlon", "Pentathlon", MinorCategory, None, None),
    Sport("tug-of-war", "Tug of War", MinorCategory, None, None),
    Sport("carrom", "Carrom", MinorCategory, None, None)
  ]

  /** Team sports, then individual sports, then minor sports. */
  function AllSports(): (r: seq<Sport>)
    ensures |r| == |TeamSports| + |IndividualSports| + |MinorSports|
    ensures r[..|TeamSports|] == TeamSports
    ensures r[|TeamSports|..|TeamSports| + |IndividualSports|] == IndividualSports
    ensures r[|TeamSports| + |IndividualSports|..] == MinorSports
  {
    var r := TeamSports + IndividualSports + MinorSports;
    assert r[|TeamSports|..|TeamSports| + |IndividualSports|] == IndividualSports;
    r
  }

  const MatchSchedule: seq<Match> := [
    Match("1", "Cricket", TeamCategory, "CS vs Electronics", "22", "9:00 AM", Some("Main Ground")),
    Match("2", "Football", TeamCategory, "MBA vs BBA", "22", "10:30 AM", Some("Football Field")),
    Match("3", "Badminton", IndividualCategory, "Quarter Finals", "22", "2:00 PM", Some("Indoor Stadium")),
    Match("4", "Chess", IndividualCategory, "Round 1", "22", "3:00 PM", Some("Library Hall")),
    Match("5", "Gully Cricket", MinorCategory, "Prelims", "22", "4:00 PM", Some("Back Ground")),
    Match("6", "Volleyball", TeamCategory, "IT vs Physics", "23", "9:00 AM", Some("Volleyball Court")),
    Match("7", "Cricket", TeamCategory, "Mechanical vs Electronics", "23", "10:00 AM", Some("Main Ground")),
    Match("8", "Table Tennis", IndividualCategory, "Semi Finals", "23", "2:00 PM", Some("TT Room")),
    Match("9", "Throwball", TeamCategory, "Arts vs Science", "23", "3:30 PM", Some("Court 2")),
    Match("10", "Tug of War", MinorCategory, "Preliminary Round", "23", "5:00 PM", Some("Open Ground")),
    Match("11", "Basketball", TeamCategory, "Engineering vs Management", "24", "9:00 AM", Some("Basketball Court")),
    Match("12", "Football", TeamCategory, "Semi Final 1", "24", "10:30 AM", Some("Football Field")),
    Match("13", "Badminton", IndividualCategory, "Semi Finals", "24", "2:00 PM", Some("Indoor Stadium")),
    Match("14", "Chess", IndividualCategory, "Semi Finals", "24", "3:00 PM", Some("Library Hall")),
    Match("15", "Pentathlon", MinorCategory, "All Events", "24", "4:00 PM", Some("Athletic Track")),
    Match("16", "Carrom", MinorCategory, "Finals", "24", "5:00 PM", Some("Common Room")),
    Match("17", "Cricket", TeamCategory, "GRAND FINAL", "25", "9:00 AM", Some("Main Ground")),
    Match("18", "Football", TeamCategory, "GRAND FINAL", "25", "11:00 AM", Some("Football Field")),
    Match("19", "Basketball", TeamCategory, "GRAND FINAL", "25", "2:00 PM", Some("Basketball Court")),
    Match("20", "Badminton", IndividualCategory, "GRAND FINAL", "25", "3:30 PM", Some("Indoor Stadium")),
    Match("21", "Table Tennis", IndividualCategory, "GRAND FINAL", "25", "4:30 PM", Some("TT Room")),
    Match("22", "Tug of War", MinorCategory, "GRAND FINAL", "25", "5:30 PM", Some("Open Ground"))
  ]

  const FestDates: seq<string> := ["22", "23", "24", "25"]

  /** Every scheduled match falls on a festival date. */
  lemma ScheduleWithinFestDates()
    ensures forall i :: 0 <= i < |MatchSchedule| ==> MatchSchedule[i].date in FestDates
  {
    forall i | 0 <= i < |MatchSchedule| ensures MatchSchedule[i].date in FestDates {
      var d := MatchSchedule[i].date;
      assert d == "22" || d == "23" || d == "24" || d == "25";
    }
  }

  /** Each festival day has at least one scheduled match. */
  lemma FestDatesHaveMatches(date: string)
    ensures date in FestDates ==> exists i :: 0 <= i < |MatchSchedule| && MatchSchedule[i].date == date
  {
    if date == "22" {
      assert MatchSchedule[0].date == date;
    } else if date == "23" {
      assert MatchSchedule[5].date == date;
    } else if date == "24" {
      assert MatchSchedule[10].date == date;
    } else if date == "25" {
      assert MatchSchedule[16].date == date;
    }
  }

  predicate OnDate(date: string, m: Match) {
    m.date == date
  }

  /** The entries of a schedule on a date, in schedule order. */
  function MatchesOnDate(schedule: seq<Match>, date: string): (r: seq<Match>)
    ensures forall i :: 0 <= i < |r| ==> r[i].date == date && r[i] in schedule
    ensures forall i :: 0 <= i < |schedule| && schedule[i].date == date ==> schedule[i] in r
    ensures Subsequence(r, schedule)
    ensures forall m :: multiset(r)[m] == if m.date == date then multiset(schedule)[m] else 0
  {
    FilterCounts(schedule, m => OnDate(date, m));
    Filter(schedule, m => OnDate(date, m))
  }

  /** `getMatchesByDate`. */
  function GetMatchesByDate(date: string): (r: seq<Match>)
    ensures forall i :: 0 <= i < |r| ==> r[i].date == date && r[i] in MatchSchedule
    ensures Subsequence(r, MatchSchedule)
    ensures date !in FestDates ==> r == []
    ensures date in FestDates ==> r != []
  {
    ScheduleWithinFestDates();
    FestDatesHaveMatches(date);
    MatchesOnDate(MatchSchedule, date)
  }

  /** `Array.prototype.findIndex` on the sport id: the first sport with that id. */
  function FindSportIndex(sports: seq<Sport>, id: string): (r: Option<nat>)
    ensures r.Some? ==> r.value < |sports| && sports[r.value].id == id
    ensures r.Some? ==> forall j :: 0 <= j < r.value ==> sports[j].id != id
    ensures r.None? ==> forall j :: 0 <= j < |sports| ==> sports[j].id != id
  {
    if sports == [] then None
    else if sports[0].id == id then Some(0)
    else match FindSportIndex(sports[1..], id)
      case None => None
      case Some(k) => Some(k + 1)
  }

  /** `sports.find(s => s.id === id)`. */
  function FindSport(sports: seq<Sport>, id: string): (r: Option<Sport>)
    ensures r.Some? ==> r.value.id == id && r.value in sports
    ensures r.None? <==> forall j :: 0 <= j < |sports| ==> sports[j].id != id
  {
    match FindSportIndex(sports, id)
    case None => None
    case Some(k) => Some(sports[k])
  }

  /** `getSportById`: the first sport in `allSports` with that id, or nothing. */
  function GetSportById(id: string): (r: Option<Sport>)
    ensures r.Some? ==> r.value.id == id && r.value in AllSports()
    ensures r.None? <==> forall j :: 0 <= j < |AllSports()| ==> AllSports()[j].id != id
  {
    FindSport(AllSports(), id)
  }

  /** `s.replace(' ', '-')`: only the first space is replaced. */
  function ReplaceFirstSpace(s: string): (r: string)
    ensures |r| == |s|
    ensures IndexOf(s, " ").None? ==> r == s
    ensures IndexOf(s, " ").Some? ==>
              var k := IndexOf(s, " ").value;
              k < |s| && r == s[..k] + "-" + s[k + 1..]
  {
    if s == [] then []
    else if s[0] == ' ' then
      assert s[..1] == " ";
      assert s[..0] + "-" + s[1..] == "-" + s[1..];
      "-" + s[1..]
    else
      var t := ReplaceFirstSpace(s[1..]);
      SpaceIndexInTail(s);
      if IndexOf(s[1..], " ").Some? then
        var k := IndexOf(s[1..], " ").value;
        assert s == [s[0]] + s[1..];
        SpliceCons(s[0], s[1..], k);
        [s[0]] + t
      else [s[0]] + t
  }

  /** What the single replacement keeps: text without a space is unchanged,
      no character other than a space changes, and nothing after a space
      changes. */
  lemma ReplaceFirstSpaceKeeps(s: string)
    ensures (forall i :: 0 <= i < |s| ==> s[i] != ' ') ==> ReplaceFirstSpace(s) == s
    ensures forall i :: 0 <= i < |s| && s[i] != ' ' ==> ReplaceFirstSpace(s)[i] == s[i]
    ensures forall i, j :: 0 <= i < j < |s| && s[i] == ' ' ==> ReplaceFirstSpace(s)[j] == s[j]
  {
    if IndexOf(s, " ").Some? {
      var k := IndexOf(s, " ").value;
      SplicedAt(s, k);
      forall i, j | 0 <= i < j < |s| && s[i] == ' '
        ensures ReplaceFirstSpace(s)[j] == s[j]
      {
        FirstSpaceFirst(s, i);
      }
    }
  }

  /** No space comes before the one `indexOf` finds. */
  lemma FirstSpaceFirst(s: string, i: nat)
    requires i < |s| && s[i] == ' '
    ensures IndexOf(s, " ").Some? && IndexOf(s, " ").value <= i
  {
    assert s[i..i + 1] == " ";
    assert OccursAt(s, " ", i);
  }

  /** The first space found by `indexOf` is a space, and the splice keeps
      every other position. */
  lemma SplicedAt(s: string, k: nat)
    requires IndexOf(s, " ") == Some(k)
    ensures k < |s| && s[k] == ' '
    ensures forall i :: 0 <= i < |s| && i != k ==> ReplaceFirstSpace(s)[i] == s[i]
  {
    assert s[k..k + 1] == " ";
    SpliceKeeps(s, k);
  }

  /** Writing `-` at index `k` keeps every other position. */
  lemma SpliceKeeps(s: string, k: nat)
    requires k < |s|
    ensures var r := s[..k] + "-" + s[k + 1..];
            |r| == |s| && forall i :: 0 <= i < |s| && i != k ==> r[i] == s[i]
  {
    var r := s[..k] + "-" + s[k + 1..];
    forall i | 0 <= i < |s| && i != k
      ensures r[i] == s[i]
    {
      if i < k {
        assert r[i] == s[..k][i];
      } else {
        assert r[i] == s[k + 1..][i - k - 1];
      }
    }
  }

  /** Replacing a character of a tail, seen from the whole text. */
  lemma SpliceCons(c: char, u: string, k: nat)
    requires k < |u|
    ensures k + 1 < |[c] + u|
    ensures [c] + (u[..k] + "-" + u[k + 1..]) == ([c] + u)[..k + 1] + "-" + ([c] + u)[k + 2..]
  {
    assert ([c] + u)[..k + 1] == [c] + u[..k];
    assert ([c] + u)[k + 2..] == u[k + 1..];
  }

  /** Past a first character that is not a space, the first space is the tail's. */
  lemma SpaceIndexInTail(s: string)
    requires s != [] && s[0] != ' '
    ensures IndexOf(s, " ").None? <==> IndexOf(s[1..], " ").None?
    ensures IndexOf(s, " ").Some? ==> IndexOf(s, " ").value == IndexOf(s[1..], " ").value + 1
  {
    assert s[..1] != " ";
  }

  /** The slug `getMatchesBySport` compares with the id. */
  function FirstSpaceSlug(name: string): string {
    ReplaceFirstSpace(ToLower(name))
  }

  predicate ListedForSport(sportId: string, sport: Sport, m: Match) {
    FirstSpaceSlug(m.sport) == sportId || m.sport == sport.name
  }

  /** The lookup of `getMatchesBySport` over given data: nothing for an
      unknown id; otherwise the schedule entries whose first-space slug is the
      id or whose sport name is exactly the sport's name. */
  function MatchesForSport(sports: seq<Sport>, schedule: seq<Match>, sportId: string): (r: seq<Match>)
    ensures FindSport(sports, sportId).None? ==> r == []
    ensures FindSport(sports, sportId).Some? ==>
              var sp := FindSport(sports, sportId).value;
              (forall i :: 0 <= i < |r| ==> ListedForSport(sportId, sp, r[i]) && r[i] in schedule)
              && (forall i :: 0 <= i < |schedule| && ListedForSport(sportId, sp, schedule[i]) ==> schedule[i] in r)
              && Subsequence(r, schedule)
              && (forall m :: multiset(r)[m] == if ListedForSport(sportId, sp, m) then multiset(schedule)[m] else 0)
  {
    match FindSport(sports, sportId)
    case None => []
    case Some(sp) =>
      FilterCounts(schedule, m => ListedForSport(sportId, sp, m));
      Filter(schedule, m => ListedForSport(sportId, sp, m))
  }

  /** `getMatchesBySport`. */
  function GetMatchesBySport(sportId: string): (r: seq<Match>)
    ensures GetSportById(sportId).None? ==> r == []
    ensures GetSportById(sportId).Some? ==>
              (forall i :: 0 <= i < |r| ==> ListedForSport(sportId, GetSportById(sportId).value, r[i]) && r[i] in MatchSchedule)
              && Subsequence(r, MatchSchedule)
  {
    MatchesForSport(AllSports(), MatchSchedule, sportId)
  }

  /** The first-space slug keeps every space after the first one. */
  lemma FirstSpaceSlugKeepsLaterSpaces(name: string, i: nat, j: nat)
    requires i < j < |name| && name[i] == ' ' && name[j] == ' '
    ensures FirstSpaceSlug(name)[j] == ' '
  {
    assert ToLower(name)[i] == ' ' && ToLower(name)[j] == ' ';
    ReplaceFirstSpaceKeeps(ToLower(name));
  }

  /** `tug-of-war` is the id of the eleventh sport and of no earlier one. */
  lemma TugOfWarSport()
    ensures GetSportById("tug-of-war") == Some(MinorSports[2])
  {
    var all := AllSports();
    assert all[10] == MinorSports[2];
    forall j | 0 <= j < 10 ensures all[j].id != "tug-of-war" {
      if j < 5 {
        assert all[j] == TeamSports[j];
      } else if j < 8 {
        assert all[j] == IndividualSports[j - 5];
      } else {
        assert all[j] == MinorSports[j - 8];
      }
    }
    assert FindSportIndex(all, "tug-of-war") == Some(10);
  }

  /** A match whose sport name has two spaces is still listed for its sport,
      through the exact-name rule, although its slug is not the id. */
  lemma TugOfWarListedByName(m: Match)
    requires m.sport == "Tug of War"
    ensures FirstSpaceSlug(m.sport) != "tug-of-war"
    ensures GetSportById("tug-of-war") == Some(MinorSports[2])
    ensures ListedForSport("tug-of-war", MinorSports[2], m)
  {
    FirstSpaceSlugKeepsLaterSpaces(m.sport, 3, 6);
    assert "tug-of-war"[6] == '-';
    TugOfWarSport();
  }
}
