/** The admin forms: validation and payloads of "add match", "add team" and
    "add group", the form reset after a successful write, and the grouping
    of the team list by group. */
module Admin {
  import opened Common
  import opened Standings

  /** The "add match" form; every text field starts empty. */
  datatype MatchForm = MatchForm(
    sportId: string, matchName: string, matchDate: string, matchTime: string,
    venue: string, teamA: string, teamB: string, matchType: MatchType,
    groupName: string, status: MatchStatus, liveStreamUrl: string)

  /** The form as the page opens it and as a successful add leaves it. */
  const DefaultMatchForm := MatchForm("", "", "22", "", "", "", "", GroupStage, "", Upcoming, "")

  /** The row sent to the store for a new match. */
  datatype MatchInsert = MatchInsert(
    sportId: string, matchName: string, matchDate: string, matchTime: string,
    venue: Option<string>, teamA: Option<string>, teamB: Option<string>,
    matchType: MatchType, groupName: Option<string>, status: MatchStatus,
    liveStreamUrl: Option<string>)

  /** `value || null`. */
  function OrNull(s: string): (r: Option<string>)
    ensures r.None? <==> s == ""
    ensures r.Some? ==> r.value == s
  {
    if s == "" then None else Some(s)
  }

  /** The match name: "A vs B" when both teams are given, else the typed name. */
  function MatchNameOf(f: MatchForm): (r: string)
    ensures f.teamA != "" && f.teamB != "" ==> r == f.teamA + " vs " + f.teamB && r != ""
    ensures !(f.teamA != "" && f.teamB != "") ==> r == f.matchName
  {
    if f.teamA != "" && f.teamB != "" then f.teamA + " vs " + f.teamB else f.matchName
  }

  const SportAndTimeMissing := "Please fill sport and time"
  const NameMissing := "Please enter match name or both teams"

  /** `handleAddMatch` up to the write: the row to insert, or the error shown. */
  function BuildMatch(f: MatchForm): (r: Result<MatchInsert, string>)
    ensures (f.sportId == "" || f.matchTime == "") ==> r == Err(SportAndTimeMissing)
    ensures f.sportId != "" && f.matchTime != "" && MatchNameOf(f) == "" ==> r == Err(NameMissing)
    ensures r.Ok? <==> f.sportId != "" && f.matchTime != "" && MatchNameOf(f) != ""
    ensures r.Ok? ==> var m := r.value;
              && m.sportId == f.sportId && m.matchName == MatchNameOf(f) && m.matchDate == f.matchDate
              && m.matchTime == f.matchTime && m.matchType == f.matchType && m.status == f.status
              && m.teamA == OrNull(f.teamA) && m.teamB == OrNull(f.teamB) && m.groupName == OrNull(f.groupName)
              && m.venue == OrNull(f.venue) && m.liveStreamUrl == OrNull(f.liveStreamUrl)
  {
    if f.sportId == "" || f.matchTime == "" then Err(SportAndTimeMissing)
    else
      var name := MatchNameOf(f);
      if name == "" then Err(NameMissing)
      else Ok(MatchInsert(f.sportId, name, f.matchDate, f.matchTime, OrNull(f.venue),
                          OrNull(f.teamA), OrNull(f.teamB), f.matchType, OrNull(f.groupName),
                          f.status, OrNull(f.liveStreamUrl)))
  }

  /** The form after "add match": reset only when a row was built and the
      write succeeded; the write's outcome is a parameter. */
  function FormAfterAddMatch(f: MatchForm, writeSucceeded: bool): (r: MatchForm)
    ensures r == DefaultMatchForm <==> (BuildMatch(f).Ok? && writeSucceeded) || f == DefaultMatchForm
    ensures r != DefaultMatchForm ==> r == f
  {
    if BuildMatch(f).Ok? && writeSucceeded then DefaultMatchForm else f
  }

  /** The toast after "add match": the validation error, or the outcome of
      the write, which is a parameter. */
  function AddMatchToast(f: MatchForm, writeSucceeded: bool): (r: Toast)
    ensures BuildMatch(f).Err? ==> r == ErrorToast(BuildMatch(f).error)
    ensures BuildMatch(f).Ok? && writeSucceeded ==> r == SuccessToast("Match added!")
    ensures BuildMatch(f).Ok? && !writeSucceeded ==> r == ErrorToast("Failed to add match")
    ensures r.SuccessToast? <==> BuildMatch(f).Ok? && FormAfterAddMatch(f, writeSucceeded) == DefaultMatchForm
  {
    match BuildMatch(f)
    case Err(e) => ErrorToast(e)
    case Ok(_) => if writeSucceeded then SuccessToast("Match added!") else ErrorToast("Failed to add match")
  }

  /** The default form is not itself addable: it has no sport and no time. */
  lemma DefaultFormIsRejected()
    ensures BuildMatch(DefaultMatchForm) == Err(SportAndTimeMissing)
  {
  }

  /** The "add team" form and the row it sends. */
  datatype TeamForm = TeamForm(groupId: string, name: string)

  datatype TeamInsert = TeamInsert(
    groupId: string, name: string, matchesPlayed: int, wins: int, losses: int, draws: int,
    points: int, netRunRate: int, goalDifference: int, pointDifference: int)

  const EmptyTeamForm := TeamForm("", "")

  /** `handleAddTeam` up to the write: a new team starts with every statistic at zero. */
  function BuildTeam(f: TeamForm): (r: Result<TeamInsert, string>)
    ensures r.Ok? <==> f.groupId != "" && f.name != ""
    ensures r.Err? ==> r.error == "Select a group and enter team name"
    ensures r.Ok? ==> var t := r.value;
              && t.groupId == f.groupId && t.name == f.name
              && t.matchesPlayed == 0 && t.wins == 0 && t.losses == 0 && t.draws == 0
              && t.points == 0 && t.netRunRate == 0 && t.goalDifference == 0 && t.pointDifference == 0
  {
    if f.groupId == "" || f.name == "" then Err("Select a group and enter team name")
    else Ok(TeamInsert(f.groupId, f.name, 0, 0, 0, 0, 0, 0, 0, 0))
  }

  function TeamFormAfterAdd(f: TeamForm, writeSucceeded: bool): (r: TeamForm)
    ensures r == EmptyTeamForm <==> (BuildTeam(f).Ok? && writeSucceeded) || f == EmptyTeamForm
    ensures r != EmptyTeamForm ==> r == f
  {
    if BuildTeam(f).Ok? && writeSucceeded then EmptyTeamForm else f
  }

  /** The toast after "add team". */
  function AddTeamToast(f: TeamForm, writeSucceeded: bool): (r: Toast)
    ensures BuildTeam(f).Err? ==> r == ErrorToast(BuildTeam(f).error)
    ensures BuildTeam(f).Ok? && writeSucceeded ==> r == SuccessToast("Team added!")
    ensures BuildTeam(f).Ok? && !writeSucceeded ==> r == ErrorToast("Failed to add team")
    ensures r.SuccessToast? <==> BuildTeam(f).Ok? && TeamFormAfterAdd(f, writeSucceeded) == EmptyTeamForm
  {
    match BuildTeam(f)
    case Err(e) => ErrorToast(e)
    case Ok(_) => if writeSucceeded then SuccessToast("Team added!") else ErrorToast("Failed to add team")
  }

  /** A freshly added team sits level with every other new team: the
      standings comparator puts no order between two of them. */
  lemma NewTeamsAreLevel(f: TeamForm, g: TeamForm, idA: string, idB: string)
    requires BuildTeam(f).Ok? && BuildTeam(g).Ok?
    ensures var a := BuildTeam(f).value;
            var b := BuildTeam(g).value;
            Compare(Team(idA, a.groupId, a.name, a.matchesPlayed, a.wins, a.losses, a.draws, a.points,
                         a.netRunRate, a.goalDifference, a.pointDifference),
                    Team(idB, b.groupId, b.name, b.matchesPlayed, b.wins, b.losses, b.draws, b.points,
                         b.netRunRate, b.goalDifference, b.pointDifference)) == 0
  {
  }

  /** The "add group" form, which is also the row it sends. */
  datatype GroupForm = GroupForm(sportId: string, name: string)

  const EmptyGroupForm := GroupForm("", "")

  function BuildGroup(f: GroupForm): (r: Result<GroupForm, string>)
    ensures r.Ok? <==> f.sportId != "" && f.name != ""
    ensures r.Ok? ==> r.value == f
    ensures r.Err? ==> r.error == "Select a sport and enter group name"
  {
    if f.sportId == "" || f.name == "" then Err("Select a sport and enter group name") else Ok(f)
  }

  function GroupFormAfterAdd(f: GroupForm, writeSucceeded: bool): (r: GroupForm)
    ensures r == EmptyGroupForm <==> (BuildGroup(f).Ok? && writeSucceeded) || f == EmptyGroupForm
    ensures r != EmptyGroupForm ==> r == f
  {
    if BuildGroup(f).Ok? && writeSucceeded then EmptyGroupForm else f
  }

  /** The toast after "create group". */
  function AddGroupToast(f: GroupForm, writeSucceeded: bool): (r: Toast)
    ensures BuildGroup(f).Err? ==> r == ErrorToast(BuildGroup(f).error)
    ensures BuildGroup(f).Ok? && writeSucceeded ==> r == SuccessToast("Group created!")
    ensures BuildGroup(f).Ok? && !writeSucceeded ==> r == ErrorToast("Failed to create group")
    ensures r.SuccessToast? <==> BuildGroup(f).Ok? && GroupFormAfterAdd(f, writeSucceeded) == EmptyGroupForm
  {
    match BuildGroup(f)
    case Err(e) => ErrorToast(e)
    case Ok(_) => if writeSucceeded then SuccessToast("Group created!") else ErrorToast("Failed to create group")
  }

  // ---------------------------------------------------------------------------
  // Grouping teams

  predicate InGroup(g: string, t: Team) {
    t.groupId == g
  }

  /** The teams of one group, in list order. */
  function Bucket(teams: seq<Team>, g: string): seq<Team> {
    Filter(teams, t => InGroup(g, t))
  }

  lemma BucketStep(teams: seq<Team>, t: Team, g: string)
    ensures Bucket(teams + [t], g) == Bucket(teams, g) + (if t.groupId == g then [t] else [])
  {
    FilterConcat(teams, [t], u => InGroup(g, u));
    assert [t][1..] == [];
  }

  lemma {:induction false} EmptyBucket(teams: seq<Team>, g: string)
    requires forall i :: 0 <= i < |teams| ==> teams[i].groupId != g
    ensures Bucket(teams, g) == []
  {
    if teams != [] {
      assert teams[0].groupId != g;
      EmptyBucket(teams[1..], g);
    }
  }

  function GroupIds(teams: seq<Team>): set<string> {
    set i | 0 <= i < |teams| :: teams[i].groupId
  }

  /** The `teamsByGroup` reduce: one bucket per group id that occurs, holding
      that group's teams in list order. */
  method TeamsByGroup(teams: seq<Team>) returns (acc: map<string, seq<Team>>)
    ensures acc.Keys == GroupIds(teams)
    ensures forall g :: g in acc ==> acc[g] == Bucket(teams, g)
  {
    acc := map[];
    for k := 0 to |teams|
      invariant acc.Keys == GroupIds(teams[..k])
      invariant forall g :: g in acc ==> acc[g] == Bucket(teams[..k], g)
    {
      var t := teams[k];
      assert teams[..k + 1] == teams[..k] + [t];
      if t.groupId !in acc {
        assert forall i :: 0 <= i < k ==> teams[..k][i].groupId != t.groupId;
        EmptyBucket(teams[..k], t.groupId);
        acc := acc[t.groupId := []];
      }
      acc := acc[t.groupId := acc[t.groupId] + [t]];
      forall g | g in acc ensures acc[g] == Bucket(teams[..k + 1], g) {
        BucketStep(teams[..k], t, g);
      }
      assert acc.Keys == GroupIds(teams[..k + 1]) by {
        forall g ensures g in GroupIds(teams[..k + 1]) <==> g in GroupIds(teams[..k]) || g == t.groupId {
          if g in GroupIds(teams[..k + 1]) {
            var i :| 0 <= i < k + 1 && teams[..k + 1][i].groupId == g;
            if i < k {
              assert teams[..k][i].groupId == g;
            }
          }
          if g in GroupIds(teams[..k]) {
            var i :| 0 <= i < k && teams[..k][i].groupId == g;
            assert teams[..k + 1][i].groupId == g;
          }
          if g == t.groupId {
            assert teams[..k + 1][k].groupId == g;
          }
        }
      }
    }
    assert teams[..|teams|] == teams;
  }
}
