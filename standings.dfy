/** The data layer of the festival site: the entity records, the standings
    comparator that `useTeams` sorts a group's rows with, the query keys of
    every read, and the query cache that each mutation invalidates after a
    successful write. */
module Standings {
  import opened Common
  import Sorting

  datatype Category = TeamSport | Individual | Minor

  /** The string the backend stores for a category. */
  function CategoryName(c: Category): string {
    match c
    case TeamSport => "team"
    case Individual => "individual"
    case Minor => "minor"
  }

  /** A sport row with its scoring policy. The three `uses*` flags are part of
      the row, but nothing in the ranking reads them. */
  datatype Sport = Sport(
    id: string, name: string, category: Category, icon: string,
    description: Option<string>, liveStreamUrl: Option<string>,
    winPoints: int, drawPoints: int, lossPoints: int,
    usesNrr: bool, usesGd: bool, usesPd: bool)

  datatype Group = Group(id: string, sportId: string, name: string)

  /** A team row. The net run rate is a decimal in the store; it is kept here
      in thousandths, since the comparator only uses its sign and equality. */
  datatype Team = Team(
    id: string, groupId: string, name: string,
    matchesPlayed: int, wins: int, losses: int, draws: int, points: int,
    netRunRate: int, goalDifference: int, pointDifference: int)

  datatype MatchType = GroupStage | Eliminator | Semifinal | Final

  datatype MatchStatus = Upcoming | Running | Completed

  datatype Match = Match(
    id: string, sportId: string, matchName: string, matchDate: string, matchTime: string,
    venue: Option<string>, teamA: Option<string>, teamB: Option<string>,
    matchType: MatchType, groupName: Option<string>, status: MatchStatus,
    liveStreamUrl: Option<string>)

  // ---------------------------------------------------------------------------
  // Ranking

  /** The comparator of `useTeams`: negative when `a` ranks above `b`. On equal
      points a tie-break metric is compared as soon as either team has a
      non-zero value for it, whatever the sport's flags say. */
  function Compare(a: Team, b: Team): (r: int)
    ensures r < 0 <==> Outranks(EffectiveKey(a), EffectiveKey(b))
    ensures r > 0 <==> Outranks(EffectiveKey(b), EffectiveKey(a))
    ensures r == 0 <==> EffectiveKey(a) == EffectiveKey(b)
  {
    if b.points != a.points then b.points - a.points
    else if a.netRunRate != 0 || b.netRunRate != 0 then b.netRunRate - a.netRunRate
    else if a.goalDifference != 0 || b.goalDifference != 0 then b.goalDifference - a.goalDifference
    else if a.pointDifference != 0 || b.pointDifference != 0 then b.pointDifference - a.pointDifference
    else 0
  }

  /** The key the comparator effectively orders by: a metric only counts while
      every metric before it is zero. `EffectiveKey` is the reference
      definition the comparator is proved against in `CompareIsLexicographic`,
      so its contract spells the key out field by field. */
  datatype RankKey = RankKey(points: int, nrr: int, gd: int, pd: int)

  function EffectiveKey(t: Team): (k: RankKey)
    ensures k.points == t.points && k.nrr == t.netRunRate
    ensures k.gd == (if t.netRunRate == 0 then t.goalDifference else 0)
    ensures k.pd == (if t.netRunRate == 0 && t.goalDifference == 0 then t.pointDifference else 0)
  {
    RankKey(t.points, t.netRunRate,
            if t.netRunRate == 0 then t.goalDifference else 0,
            if t.netRunRate == 0 && t.goalDifference == 0 then t.pointDifference else 0)
  }

  /** Strict lexicographic "ranks higher" on keys, each component descending. */
  predicate Outranks(x: RankKey, y: RankKey) {
    || x.points > y.points
    || (x.points == y.points && x.nrr > y.nrr)
    || (x.points == y.points && x.nrr == y.nrr && x.gd > y.gd)
    || (x.points == y.points && x.nrr == y.nrr && x.gd == y.gd && x.pd > y.pd)
  }

  /** The comparator is exactly the lexicographic order on effective keys. */
  lemma CompareIsLexicographic(a: Team, b: Team)
    ensures Compare(a, b) < 0 <==> Outranks(EffectiveKey(a), EffectiveKey(b))
    ensures Compare(a, b) > 0 <==> Outranks(EffectiveKey(b), EffectiveKey(a))
    ensures Compare(a, b) == 0 <==> EffectiveKey(a) == EffectiveKey(b)
  {
  }

  /** Different points decide the order, whatever the other fields hold. */
  lemma PointsDecide(a: Team, b: Team)
    requires a.points != b.points
    ensures Compare(a, b) < 0 <==> a.points > b.points
    ensures Compare(a, b) != 0
  {
  }

  /** On equal points a non-zero net run rate on either side makes the net run
      rate alone decide; equal non-zero rates tie without looking further. */
  lemma NetRunRateDecides(a: Team, b: Team)
    requires a.points == b.points && (a.netRunRate != 0 || b.netRunRate != 0)
    ensures Compare(a, b) < 0 <==> a.netRunRate > b.netRunRate
    ensures Compare(a, b) == 0 <==> a.netRunRate == b.netRunRate
  {
  }

  /** Goal difference is consulted only when both net run rates are zero, and
      point difference only when both goal differences are zero as well. */
  lemma LaterTieBreaks(a: Team, b: Team)
    requires a.points == b.points && a.netRunRate == 0 && b.netRunRate == 0
    ensures (a.goalDifference != 0 || b.goalDifference != 0) ==>
              (Compare(a, b) < 0 <==> a.goalDifference > b.goalDifference)
    ensures a.goalDifference == 0 && b.goalDifference == 0 ==>
              (Compare(a, b) < 0 <==> a.pointDifference > b.pointDifference)
    ensures (a.goalDifference == 0 && b.goalDifference == 0
             && a.pointDifference == 0 && b.pointDifference == 0) ==> Compare(a, b) == 0
  {
  }

  /** Swapping the arguments negates the result, and a team ties with itself. */
  lemma CompareAntisymmetric(a: Team, b: Team)
    ensures Compare(a, b) == -Compare(b, a)
    ensures Compare(a, a) == 0
  {
  }

  /** "May stay before" is transitive, so the comparator is a total preorder. */
  lemma {:induction false} CompareTransitive(a: Team, b: Team, c: Team)
    requires Compare(a, b) <= 0 && Compare(b, c) <= 0
    ensures Compare(a, c) <= 0
  {
    CompareIsLexicographic(a, b);
    CompareIsLexicographic(b, c);
    CompareIsLexicographic(a, c);
  }

  /** `data.sort(compare)` in the query function of `useTeams`: reorders the
      fetched rows in place into a permutation that never ranks a team above
      one it loses to. */
  method RankTeams(rows: array<Team>)
    modifies rows
    ensures multiset(rows[..]) == multiset(old(rows[..]))
    ensures forall i, j :: 0 <= i < j < rows.Length ==> Compare(rows[i], rows[j]) <= 0
  {
    forall x, y | Compare(x, y) > 0 ensures Compare(y, x) <= 0 {
      CompareAntisymmetric(x, y);
    }
    Sorting.SortInPlace(rows, Compare);
    forall x, y, z | Compare(x, y) <= 0 && Compare(y, z) <= 0 ensures Compare(x, z) <= 0 {
      CompareTransitive(x, y, z);
    }
    Sorting.AdjacentSortedIsSorted(rows[..], Compare);
  }

  // ---------------------------------------------------------------------------
  // Query keys

  /** Every read hook, with the parameters its key carries. */
  datatype Query =
    | SettingsQuery
    | AllSports
    | SportsByCategory(category: Category)
    | SportById(sportId: string)
    | GroupsOfSport(sportId: string)
    | AllGroups
    | TeamsOfGroup(groupId: string)
    | AllTeams
    | MatchesByDate(date: string)
    | MatchesBySport(sportId: string)
    | AllMatches
    | RunningMatches

  function Key(q: Query): (k: seq<string>)
    ensures 1 <= |k| <= 3
    ensures q.SportById? ==> k[|k| - 1] == q.sportId
    ensures q.GroupsOfSport? ==> k[|k| - 1] == q.sportId
    ensures q.TeamsOfGroup? ==> k[|k| - 1] == q.groupId
    ensures q.MatchesByDate? ==> k[|k| - 1] == q.date
    ensures q.MatchesBySport? ==> k[|k| - 1] == q.sportId
  {
    match q
    case SettingsQuery => ["settings"]
    case AllSports => ["sports"]
    case SportsByCategory(c) => ["sports", CategoryName(c)]
    case SportById(id) => ["sport", id]
    case GroupsOfSport(id) => ["groups", id]
    case AllGroups => ["groups"]
    case TeamsOfGroup(id) => ["teams", id]
    case AllTeams => ["teams"]
    case MatchesByDate(d) => ["matches", "date", d]
    case MatchesBySport(id) => ["matches", "sport", id]
    case AllMatches => ["matches"]
    case RunningMatches => ["matches", "running"]
  }

  /** The `enabled` guards: a read keyed by an id runs only when the id is
      non-empty; every other read always runs. */
  function Enabled(q: Query): (r: bool)
    ensures !r <==> (q.SportById? || q.GroupsOfSport? || q.TeamsOfGroup? || q.MatchesBySport?)
                    && Key(q)[|Key(q)| - 1] == ""
  {
    match q
    case SportById(id) => id != ""
    case GroupsOfSport(id) => id != ""
    case TeamsOfGroup(id) => id != ""
    case MatchesBySport(id) => id != ""
    case _ => true
  }

  /** Distinct reads never share a cache entry. */
  lemma KeyInjective(q: Query, r: Query)
    requires Key(q) == Key(r)
    ensures q == r
  {
    if q.SportsByCategory? && r.SportsByCategory? {
      assert CategoryName(q.category) == Key(q)[1] == Key(r)[1] == CategoryName(r.category);
    } else if q.MatchesByDate? || q.MatchesBySport? || q.RunningMatches? {
      assert Key(q)[1] == Key(r)[1];
    }
  }

  /** The running-matches read: only rows whose status is running, in input order. */
  function RunningRows(rows: seq<Match>): (r: seq<Match>)
    ensures forall i :: 0 <= i < |r| ==> r[i].status == Running && r[i] in rows
    ensures forall i :: 0 <= i < |rows| && rows[i].status == Running ==> rows[i] in r
    ensures Subsequence(r, rows)
  {
    Filter(rows, (m: Match) => m.status == Running)
  }

  /** An admin status change applied to the stored rows. This is a reference
      definition of the update; what it means for the running-matches read is
      proved in `StartedMatchIsListed`. */
  function SetStatus(rows: seq<Match>, id: string, s: MatchStatus): (r: seq<Match>)
    ensures |r| == |rows|
    ensures forall i :: 0 <= i < |rows| ==>
              r[i] == if rows[i].id == id then rows[i].(status := s) else rows[i]
  {
    seq(|rows|, i requires 0 <= i < |rows| => if rows[i].id == id then rows[i].(status := s) else rows[i])
  }

  /** A match switched to running shows up in the next running-matches read. */
  lemma StartedMatchIsListed(rows: seq<Match>, k: nat)
    requires k < |rows|
    ensures SetStatus(rows, rows[k].id, Running)[k] in RunningRows(SetStatus(rows, rows[k].id, Running))
    ensures SetStatus(rows, rows[k].id, Running)[k].status == Running
  {
  }

  // ---------------------------------------------------------------------------
  // Mutations and invalidation

  datatype Mutation =
    | UpdateSettings
    | UpdateSport
    | UpdateTeam | CreateTeam | DeleteTeam
    | CreateGroup | DeleteGroup
    | CreateMatch | UpdateMatch | DeleteMatch

  /** The prefixes each mutation's `onSuccess` passes to `invalidateQueries`. */
  function InvalidatedPrefixes(m: Mutation): (ps: seq<seq<string>>)
    ensures 1 <= |ps| <= 2
    ensures forall i :: 0 <= i < |ps| ==> |ps[i]| == 1
  {
    match m
    case UpdateSettings => [["settings"]]
    case UpdateSport => [["sports"], ["sport"]]
    case UpdateTeam => [["teams"]]
    case CreateTeam => [["teams"]]
    case DeleteTeam => [["teams"]]
    case CreateGroup => [["groups"]]
    case DeleteGroup => [["groups"]]
    case CreateMatch => [["matches"]]
    case UpdateMatch => [["matches"]]
    case DeleteMatch => [["matches"]]
  }

  predicate IsPrefix(p: seq<string>, k: seq<string>) {
    |p| <= |k| && k[..|p|] == p
  }

  /** Some prefix in `ps` matches `k`, as partial key matching does. */
  predicate MatchesAny(ps: seq<seq<string>>, k: seq<string>) {
    exists i :: 0 <= i < |ps| && IsPrefix(ps[i], k)
  }

  predicate Invalidates(m: Mutation, k: seq<string>) {
    MatchesAny(InvalidatedPrefixes(m), k)
  }

  /** Which reads each mutation can make stale, stated per entity. */
  predicate Touches(m: Mutation, q: Query) {
    match m
    case UpdateSettings => q.SettingsQuery?
    case UpdateSport => q.AllSports? || q.SportsByCategory? || q.SportById?
    case UpdateTeam | CreateTeam | DeleteTeam => q.TeamsOfGroup? || q.AllTeams?
    case CreateGroup | DeleteGroup => q.GroupsOfSport? || q.AllGroups?
    case CreateMatch | UpdateMatch | DeleteMatch =>
      q.MatchesByDate? || q.MatchesBySport? || q.AllMatches? || q.RunningMatches?
  }

  /** The prefix table invalidates exactly the reads of the mutated entity. */
  lemma InvalidationTable(m: Mutation, q: Query)
    ensures Invalidates(m, Key(q)) <==> Touches(m, q)
  {
    var ps := InvalidatedPrefixes(m);
    var k := Key(q);
    if Touches(m, q) {
      var i := if m.UpdateSport? && q.SportById? then 1 else 0;
      assert IsPrefix(ps[i], k);
    } else {
      forall i | 0 <= i < |ps| ensures !IsPrefix(ps[i], k) {
        assert |ps[i]| == 1 && |k| >= 1;
        assert k[..1] == [k[0]];
      }
    }
  }

  /** Creating or deleting a group leaves every cached team list as it was;
      the teams a cascading delete removes are not refetched. */
  lemma GroupChangesKeepTeamLists(m: Mutation, groupId: string)
    requires m == CreateGroup || m == DeleteGroup
    ensures !Invalidates(m, Key(TeamsOfGroup(groupId)))
    ensures !Invalidates(m, Key(AllTeams))
  {
    InvalidationTable(m, TeamsOfGroup(groupId));
    InvalidationTable(m, AllTeams);
  }

  /** Every match mutation makes the running-matches read stale. */
  lemma MatchChangesRefreshRunning(m: Mutation)
    requires m == CreateMatch || m == UpdateMatch || m == DeleteMatch
    ensures Invalidates(m, Key(RunningMatches))
  {
    InvalidationTable(m, RunningMatches);
  }

  /** The client-side query cache: one freshness flag per cached key
      (`true` means stale, so the next read refetches). */
  class QueryCache {
    var stale: map<seq<string>, bool>

    constructor ()
      ensures stale == map[]
    {
      stale := map[];
    }

    /** A read that completed stores a fresh entry; a disabled read does nothing. */
    method Fetch(q: Query)
      modifies this
      ensures stale == if Enabled(q) then old(stale)[Key(q) := false] else old(stale)
      ensures Enabled(q) ==> !NeedsFetch(q)
    {
      if Enabled(q) {
        stale := stale[Key(q) := false];
      }
    }

    /** Whether a read must go to the store instead of the cache. */
    function NeedsFetch(q: Query): bool
      reads this
    {
      Key(q) !in stale || stale[Key(q)]
    }

    /** `invalidateQueries({ queryKey: prefix })`: marks every cached key that
        starts with `prefix` stale and leaves the others as they were. */
    method Invalidate(prefix: seq<string>)
      modifies this
      ensures stale.Keys == old(stale).Keys
      ensures forall k :: k in stale ==> stale[k] == (old(stale)[k] || IsPrefix(prefix, k))
      ensures forall q :: IsPrefix(prefix, Key(q)) ==> NeedsFetch(q)
    {
      stale := map k | k in stale :: stale[k] || IsPrefix(prefix, k);
    }

    /** A mutation: the write's outcome comes from the store; only a write that
        succeeded runs `onSuccess`, which invalidates the mutation's prefixes. */
    method RunMutation(m: Mutation, writeSucceeded: bool)
      modifies this
      ensures stale.Keys == old(stale).Keys
      ensures forall k :: k in stale ==>
                stale[k] == (old(stale)[k] || (writeSucceeded && Invalidates(m, k)))
      ensures writeSucceeded ==> forall q :: Touches(m, q) ==> NeedsFetch(q)
      ensures !writeSucceeded ==> stale == old(stale)
    {
      if !writeSucceeded {
        return;
      }
      var ps := InvalidatedPrefixes(m);
      var i := 0;
      while i < |ps|
        invariant 0 <= i <= |ps|
        invariant stale.Keys == old(stale).Keys
        invariant forall k :: k in stale ==> stale[k] == (old(stale)[k] || MatchesAny(ps[..i], k))
      {
        Invalidate(ps[i]);
        assert forall k :: MatchesAny(ps[..i + 1], k) <==> MatchesAny(ps[..i], k) || IsPrefix(ps[i], k) by {
          forall k ensures MatchesAny(ps[..i + 1], k) <==> MatchesAny(ps[..i], k) || IsPrefix(ps[i], k) {
            if IsPrefix(ps[i], k) {
              assert ps[..i + 1][i] == ps[i];
            }
            if MatchesAny(ps[..i], k) {
              var j :| 0 <= j < i && IsPrefix(ps[..i][j], k);
              assert ps[..i + 1][j] == ps[..i][j];
            }
            if MatchesAny(ps[..i + 1], k) {
              var j :| 0 <= j < i + 1 && IsPrefix(ps[..i + 1][j], k);
              if j < i {
                assert ps[..i][j] == ps[..i + 1][j];
              }
            }
          }
        }
        i := i + 1;
      }
      assert ps[..i] == ps;
      forall q | Touches(m, q) ensures NeedsFetch(q) {
        InvalidationTable(m, q);
      }
    }
  }
}
