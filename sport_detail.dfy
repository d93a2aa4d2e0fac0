/** The sport page: the not-found check, the list of the sport's matches,
    and the back link and label of its category. */
module SportDetail {
  import opened Common
  import opened SportsData

  /** `s.replace(/\s+/g, '-')`: every run of white space becomes one hyphen. */
  function ReplaceSpaceRuns(s: string): (r: string)
    ensures |r| <= |s|
    ensures forall i :: 0 <= i < |r| ==> !IsSpace(r[i])
    decreases |s|
  {
    if s == [] then []
    else if IsSpace(s[0]) then "-" + ReplaceSpaceRuns(s[LeadingSpace(s)..])
    else [s[0]] + ReplaceSpaceRuns(s[1..])
  }

  /** Text without white space is left as it is. */
  lemma {:induction false} NoSpaceUnchanged(s: string)
    requires forall i :: 0 <= i < |s| ==> !IsSpace(s[i])
    ensures ReplaceSpaceRuns(s) == s
  {
    if s != [] {
      NoSpaceUnchanged(s[1..]);
    }
  }

  /** The leading white space of `w + t` is all of `w` when `t` does not
      start with white space. */
  lemma {:induction false} LeadingRun(w: string, t: string)
    requires forall i :: 0 <= i < |w| ==> IsSpace(w[i])
    requires t == [] || !IsSpace(t[0])
    ensures LeadingSpace(w + t) == |w|
  {
    if w == [] {
      assert w + t == t;
    } else {
      assert (w + t)[1..] == w[1..] + t;
      LeadingRun(w[1..], t);
    }
  }

  /** A run of white space between a space-free prefix and a text that does
      not start with white space becomes exactly one hyphen. */
  lemma {:induction false} SpaceRunBecomesHyphen(a: string, w: string, t: string)
    requires forall i :: 0 <= i < |a| ==> !IsSpace(a[i])
    requires w != [] && forall i :: 0 <= i < |w| ==> IsSpace(w[i])
    requires t == [] || !IsSpace(t[0])
    ensures ReplaceSpaceRuns(a + w + t) == a + "-" + ReplaceSpaceRuns(t)
    decreases |a|
  {
    var s := a + w + t;
    if a == [] {
      assert s == w + t;
      LeadingRun(w, t);
      assert s[|w|..] == t;
    } else {
      assert s[0] == a[0];
      assert s[1..] == a[1..] + w + t;
      SpaceRunBecomesHyphen(a[1..], w, t);
    }
  }

  /** The slug the page compares with the id. */
  function RunSlug(name: string): string {
    ReplaceSpaceRuns(ToLower(name))
  }

  predicate ListedOnPage(sportId: string, sport: Sport, m: Match) {
    RunSlug(m.sport) == sportId || ToLower(m.sport) == ToLower(sport.name)
  }

  /** The `sportMatches` filter over a schedule. */
  function SportMatches(schedule: seq<Match>, sportId: string, sport: Sport): (r: seq<Match>)
    ensures forall i :: 0 <= i < |r| ==> ListedOnPage(sportId, sport, r[i]) && r[i] in schedule
    ensures forall i :: 0 <= i < |schedule| && ListedOnPage(sportId, sport, schedule[i]) ==> schedule[i] in r
    ensures Subsequence(r, schedule)
    ensures forall m :: multiset(r)[m] == if ListedOnPage(sportId, sport, m) then multiset(schedule)[m] else 0
  {
    FilterCounts(schedule, m => ListedOnPage(sportId, sport, m));
    Filter(schedule, m => ListedOnPage(sportId, sport, m))
  }

  /** The `backPath` map: the listing page of the sport's category. */
  function BackPath(c: SportCategory): (r: string)
    ensures |r| > 8 && r[0] == '/' && r[|r| - 7..] == "-sports"
  {
    match c
    case TeamCategory => "/team-sports"
    case IndividualCategory => "/individual-sports"
    case MinorCategory => "/minor-sports"
  }

  /** The `categoryLabel` map: the heading of the sport's category. */
  function CategoryLabel(c: SportCategory): (r: string)
    ensures |r| > 7 && r[|r| - 7..] == " Sports"
  {
    match c
    case TeamCategory => "Team Sports"
    case IndividualCategory => "Individual Sports"
    case MinorCategory => "Minor Sports"
  }

  /** Each category has its own back link and its own label. */
  lemma CategoryMapsInjective(c: SportCategory, d: SportCategory)
    ensures BackPath(c) == BackPath(d) <==> c == d
    ensures CategoryLabel(c) == CategoryLabel(d) <==> c == d
  {
    if c != d {
      assert BackPath(c)[1] != BackPath(d)[1];
      assert CategoryLabel(c)[0] != CategoryLabel(d)[0];
    }
  }

  datatype Page =
    | NotFound
    | Detail(sport: Sport, backPath: string, categoryLabel: string, stream: Option<string>,
             showPointsTable: bool, matches: seq<Match>, showNoMatches: bool)

  /** The page for a route parameter over the given sports and schedule. An
      absent or empty parameter, or an unknown id, gives the not-found page. */
  function PageFor(sports: seq<Sport>, schedule: seq<Match>, sportId: Option<string>): (p: Page)
    ensures (sportId.None? || sportId == Some("")) ==> p == NotFound
    ensures sportId.Some? && sportId.value != "" ==> (p == NotFound <==> FindSport(sports, sportId.value).None?)
    ensures p.Detail? ==> sportId.Some? && p.sport == FindSport(sports, sportId.value).value
    ensures p.Detail? ==> p.backPath == BackPath(p.sport.category) && p.categoryLabel == CategoryLabel(p.sport.category)
    ensures p.Detail? ==> (p.stream.Some? <==> p.sport.liveStreamUrl.Some? && p.sport.liveStreamUrl.value != "")
    ensures p.Detail? && p.stream.Some? ==> p.stream == p.sport.liveStreamUrl
    ensures p.Detail? ==> (p.showPointsTable <==> p.sport.groups.Some? && |p.sport.groups.value| > 0)
    ensures p.Detail? ==> p.matches == SportMatches(schedule, sportId.value, p.sport)
    ensures p.Detail? ==> (p.showNoMatches <==> p.matches == [])
  {
    if sportId.None? || sportId.value == "" then NotFound
    else match FindSport(sports, sportId.value)
      case None => NotFound
      case Some(sp) =>
        var ms := SportMatches(schedule, sportId.value, sp);
        Detail(sp, BackPath(sp.category), CategoryLabel(sp.category),
               if sp.liveStreamUrl.Some? && sp.liveStreamUrl.value != "" then sp.liveStreamUrl else None,
               sp.groups.Some? && |sp.groups.value| > 0, ms, ms == [])
  }

  /** The page of the running site, over the built-in data. */
  function SportPage(sportId: Option<string>): Page {
    PageFor(AllSports(), MatchSchedule, sportId)
  }

  /** A match the data lookup lists by exact sport name is listed on the page too. */
  lemma PageKeepsExactNameMatches(sportId: string, sport: Sport, m: Match)
    requires m.sport == sport.name
    ensures ListedOnPage(sportId, sport, m)
  {
  }

  lemma LowerKeepsNonSpace(s: string)
    requires forall i :: 0 <= i < |s| ==> !IsSpace(s[i])
    ensures forall i :: 0 <= i < |ToLower(s)| ==> !IsSpace(ToLower(s)[i]) && ToLower(s)[i] != ' '
  {
  }

  /** For a name without white space the two slug rules agree: both are
      the lower-cased name. */
  lemma SlugRulesAgreeWithoutSpaces(name: string)
    requires forall i :: 0 <= i < |name| ==> !IsSpace(name[i])
    ensures RunSlug(name) == FirstSpaceSlug(name) == ToLower(name)
  {
    LowerKeepsNonSpace(name);
    NoSpaceUnchanged(ToLower(name));
    ReplaceFirstSpaceKeeps(ToLower(name));
  }

  /** The two rules differ on a name with two spaces: the page's slug has no
      white space left, while the data lookup's slug keeps the second space,
      so it never equals a sport id such as `tug-of-war`. */
  lemma SlugRulesDifferOnTwoSpaces(name: string, i: nat, j: nat)
    requires i < j < |name| && name[i] == ' ' && name[j] == ' '
    ensures forall k :: 0 <= k < |RunSlug(name)| ==> !IsSpace(RunSlug(name)[k])
    ensures FirstSpaceSlug(name)[j] == ' '
    ensures forall id: string :: (forall k :: 0 <= k < |id| ==> !IsSpace(id[k])) ==> FirstSpaceSlug(name) != id
  {
    FirstSpaceSlugKeepsLaterSpaces(name, i, j);
  }
}
