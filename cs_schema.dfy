/** The tables of the variant schema, flux_orm/cs/models.py: one row type per
    mapped class, the store as a value, and its integrity invariant. It
    differs from the package schema in its columns: no name is unique, a
    match belongs to exactly one competition and exactly one status (and no
    two matches share a status), a member always has a nickname, and there
    are no news tables. */
module CsSchema {
  import opened Common

  datatype Sport = Sport(name: string, description: Option<string>, imageUrl: Option<string>)

  datatype Competition = Competition(name: string, sportId: Id, description: Option<string>, imageUrl: Option<string>)

  datatype CompetitionCategory = CompetitionCategory(name: string, description: Option<string>, imageUrl: Option<string>)

  datatype Team = Team(
    name: string,
    description: Option<string>,
    imageUrl: Option<string>,
    stats: Option<Json>,
    regalia: Option<Json>)

  datatype TeamMember = TeamMember(
    nickname: string,
    age: Option<int>,
    country: Option<string>,
    stats: Option<Json>,
    description: Option<string>,
    imageUrl: Option<string>)

  datatype MatchStatus = MatchStatus(name: string, status: Option<Json>, imageUrl: Option<string>)

  datatype Match = Match(
    matchName: string,
    competitionId: Id,
    statusId: Id,
    plannedStart: Option<DateTime>,
    endDatetime: Option<DateTime>)

  /** `match_ai_statement` has no column besides its key. */
  datatype MatchAIStatement = MatchAIStatement

  datatype Coach = Coach(
    name: string,
    description: Option<string>,
    imageUrl: Option<string>,
    stats: Option<Json>,
    regalia: Option<Json>)

  datatype Substitution = Substitution(time: Option<int>, teamId: Id)

  datatype Db = Db(
    sports: map<Id, Sport>,
    competitions: map<Id, Competition>,
    categories: map<Id, CompetitionCategory>,
    teams: map<Id, Team>,
    members: map<Id, TeamMember>,
    coaches: map<Id, Coach>,
    statuses: map<Id, MatchStatus>,
    matches: map<Id, Match>,
    statements: map<Id, MatchAIStatement>,
    substitutions: map<SubKey, Substitution>,
    competitionInCategory: set<Link>,  // (competition_id, category_id)
    teamInCompetition: set<Link>,      // (team_id, competition_id)
    playerInTeam: set<Link>,           // (player_id, team_id)
    teamInMatch: set<Link>,            // (team_id, match_id)
    coachInTeam: set<Link>,            // (coach_fk, team_fk)
    aiStatementInMatch: set<Link>)     // (statement_fk, match_fk)

  const Empty: Db := Db(map[], map[], map[], map[], map[], map[], map[], map[], map[], map[], {}, {}, {}, {}, {}, {})

  predicate LinksBetween(links: set<Link>, left: set<Id>, right: set<Id>)
  {
    forall l :: l in links ==> l.0 in left && l.1 in right
  }

  // ----- foreign keys; none of them can be null here -----

  predicate CompetitionRefs(competitions: map<Id, Competition>, sports: set<Id>)
  {
    forall c :: c in competitions ==> competitions[c].sportId in sports
  }

  predicate MatchRefs(matches: map<Id, Match>, competitions: set<Id>, statuses: set<Id>)
  {
    forall m :: m in matches ==> matches[m].competitionId in competitions && matches[m].statusId in statuses
  }

  predicate SubstitutionRefs(subs: map<SubKey, Substitution>, matches: set<Id>, members: set<Id>, teams: set<Id>)
  {
    forall k :: k in subs ==>
      k.matchId in matches && k.prevPlayerId in members && k.newPlayerId in members && subs[k].teamId in teams
  }

  predicate RefsOk(d: Db)
  {
    && CompetitionRefs(d.competitions, d.sports.Keys)
    && MatchRefs(d.matches, d.competitions.Keys, d.statuses.Keys)
    && SubstitutionRefs(d.substitutions, d.matches.Keys, d.members.Keys, d.teams.Keys)
  }

  predicate LinksOk(d: Db)
  {
    && LinksBetween(d.competitionInCategory, d.competitions.Keys, d.categories.Keys)
    && LinksBetween(d.teamInCompetition, d.teams.Keys, d.competitions.Keys)
    && LinksBetween(d.playerInTeam, d.members.Keys, d.teams.Keys)
    && LinksBetween(d.teamInMatch, d.teams.Keys, d.matches.Keys)
    && LinksBetween(d.coachInTeam, d.coaches.Keys, d.teams.Keys)
    && LinksBetween(d.aiStatementInMatch, d.statements.Keys, d.matches.Keys)
  }

  /** `Match.status_id` is unique: no two matches share a status. */
  predicate StatusesUnique(matches: map<Id, Match>)
  {
    forall a, b :: a in matches && b in matches && matches[a].statusId == matches[b].statusId ==> a == b
  }

  predicate Valid(d: Db)
  {
    RefsOk(d) && LinksOk(d) && StatusesUnique(d.matches)
  }

  /** The store's entity tables (everything but the join tables) are the same. */
  predicate SameRows(d: Db, e: Db)
  {
    && d.sports == e.sports && d.competitions == e.competitions && d.categories == e.categories
    && d.teams == e.teams && d.members == e.members && d.coaches == e.coaches
    && d.statuses == e.statuses && d.matches == e.matches && d.statements == e.statements
    && d.substitutions == e.substitutions
  }

  /** Validity depends on the join tables only through `LinksOk`. */
  lemma SameRowsValid(d: Db, e: Db)
    requires Valid(d) && SameRows(d, e) && LinksOk(e)
    ensures Valid(e)
  {
  }

  lemma EmptyValid()
    ensures Valid(Empty)
  {
  }

  /** The matches in status `st`. */
  function MatchesInStatus(d: Db, st: Id): set<Id>
  {
    set m | m in d.matches && d.matches[m].statusId == st
  }

  /** A status is the status of at most one match. */
  lemma OneMatchPerStatus(d: Db, st: Id)
    requires Valid(d)
    ensures |MatchesInStatus(d, st)| <= 1
  {
    var ms := MatchesInStatus(d, st);
    if ms != {} {
      var m :| m in ms;
      assert ms == {m};
    }
  }
}
