/** The group standings table of the built-in data: each group's teams are
    sorted in place by points, highest first, and the leader is highlighted. */
module PointsTable {
  import opened SportsData
  import opened Sorting

  /** `(a, b) => b.points - a.points`. */
  function ByPointsDesc(a: Team, b: Team): int {
    b.points - a.points
  }

  /** `group.teams.sort(...)`: a permutation of the teams with points never increasing. */
  method SortByPoints(teams: array<Team>)
    modifies teams
    ensures multiset(teams[..]) == multiset(old(teams[..]))
    ensures forall i, j :: 0 <= i < j < teams.Length ==> teams[i].points >= teams[j].points
  {
    SortInPlace(teams, ByPointsDesc);
    AdjacentSortedIsSorted(teams[..], ByPointsDesc);
    assert Sorted(teams[..], ByPointsDesc);
  }

  /** A table row: the team and whether it carries the leader's highlight and badge. */
  datatype Row = Row(team: Team, leader: bool)

  function Rows(teams: seq<Team>): (r: seq<Row>)
    ensures |r| == |teams|
    ensures forall i :: 0 <= i < |r| ==> r[i].team == teams[i] && (r[i].leader <==> i == 0)
  {
    seq(|teams|, i requires 0 <= i < |teams| => Row(teams[i], i == 0))
  }

  datatype Table = Table(name: string, rows: seq<Row>)

  /** The teams listed in a table's rows, in row order. */
  function RowTeams(rows: seq<Row>): (r: seq<Team>)
    ensures |r| == |rows| && forall i :: 0 <= i < |rows| ==> r[i] == rows[i].team
  {
    seq(|rows|, i requires 0 <= i < |rows| => rows[i].team)
  }

  /** A table shows its group's name and teams, sorted by points, leader first. */
  predicate TableOf(t: Table, grp: Group) {
    && t.name == grp.name
    && multiset(RowTeams(t.rows)) == multiset(grp.teams)
    && (forall i, j :: 0 <= i < j < |t.rows| ==> t.rows[i].team.points >= t.rows[j].team.points)
    && (forall i :: 0 <= i < |t.rows| ==> (t.rows[i].leader <==> i == 0))
  }

  /** Renders the groups in their given order; each table lists its group's
      teams sorted by points, and only its first row is the leader's. */
  method RenderGroups(groups: seq<Group>) returns (tables: seq<Table>)
    ensures |tables| == |groups|
    ensures forall g :: 0 <= g < |groups| ==> TableOf(tables[g], groups[g])
  {
    tables := [];
    for g := 0 to |groups|
      invariant |tables| == g
      invariant forall h :: 0 <= h < g ==> TableOf(tables[h], groups[h])
    {
      var teams := groups[g].teams;
      var a := new Team[|teams|](i requires 0 <= i < |teams| => teams[i]);
      assert a[..] == teams;
      SortByPoints(a);
      var rows := Rows(a[..]);
      assert RowTeams(rows) == a[..];
      assert TableOf(Table(groups[g].name, rows), groups[g]);
      tables := tables + [Table(groups[g].name, rows)];
    }
  }
}
