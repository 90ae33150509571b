/** The tables of the package schema, flux_orm/models/models.py: one row
    type per mapped class, the whole store as a value, and the integrity
    invariant the declarations promise. Columns that a mapped class types as
    `X | None` are `Option<X>`; the others cannot be null. Primary keys are the
    keys of the table maps; `created_at`/`updated_at` are not carried. */
module ModelsSchema {
  import opened Common
  import Enums

  datatype Sport = Sport(name: string, description: Option<string>, imageUrl: Option<string>)

  datatype Competition = Competition(
    sportId: Id,
    name: string,
    prizePool: Option<string>,
    location: Option<string>,
    startDate: Option<DateTime>,
    description: Option<string>,
    imageUrl: Option<string>)

  datatype CompetitionCategory = CompetitionCategory(name: string, description: Option<string>, imageUrl: Option<string>)

  datatype Team = Team(
    name: string,
    prettyName: Option<string>,
    teamUrl: Option<string>,
    description: Option<string>,
    imageUrl: Option<string>,
    stats: Option<Json>,
    regalia: Option<Json>)

  datatype TeamMember = TeamMember(
    teamMemberUrl: Option<string>,
    nickname: Option<string>,
    name: Option<string>,
    age: Option<int>,
    country: Option<string>,
    stats: Option<Json>,
    description: Option<string>,
    imageUrl: Option<string>)

  datatype MatchStatus = MatchStatus(name: string, status: Option<Json>, imageUrl: Option<string>)

  datatype Match = Match(
    sportId: Id,
    matchName: string,
    prettyMatchName: Option<string>,
    matchStreams: Option<Json>,
    matchUrl: Option<string>,
    tournamentUrl: Option<string>,
    pipelineStatus: Option<Enums.PipelineStatusMember>,
    pipelineUpdateTime: Option<DateTime>,
    externalId: string,
    competitionId: Option<Id>,
    statusId: Option<Id>,
    plannedStart: Option<DateTime>,
    endDatetime: Option<DateTime>)

  /** `match_ai_statement` has no column besides its key and timestamps. */
  datatype MatchAIStatement = MatchAIStatement

  datatype Coach = Coach(
    name: string,
    description: Option<string>,
    imageUrl: Option<string>,
    stats: Option<Json>,
    regalia: Option<Json>)

  datatype Substitution = Substitution(time: Option<int>, teamId: Id)

  datatype RawNews = RawNews(
    sportId: Id,
    header: Option<string>,
    text: seq<string>,
    url: string,
    newsCreationTime: Option<DateTime>,
    pipelineStatus: Option<Enums.PipelineStatusMember>,
    pipelineUpdateTime: Option<DateTime>)

  datatype FormattedNews = FormattedNews(
    sportId: Id,
    header: Option<string>,
    text: seq<string>,
    url: string,
    keywords: seq<string>,
    newsCreationTime: Option<DateTime>)

  /** Every table of the schema. A join table holds the pairs of its two
      key columns, in the order the source declares them. */
  datatype Db = Db(
    sports: map<Id, Sport>,
    competitions: map<Id, Competition>,
    categories: map<Id, CompetitionCategory>,
    teams: map<Id, Team>,
    members: map<Id, TeamMember>,
    coaches: map<Id, Coach>,
    statuses: map<Id, MatchStatus>,
    matches: map<Id, Match>,
    statements: map<Id, MatchAIStatement>,
    substitutions: map<SubKey, Substitution>,
    rawNews: map<Id, RawNews>,
    formattedNews: map<Id, FormattedNews>,
    competitionInCategory: set<Link>,  // (competition_id, category_id)
    teamInCompetition: set<Link>,      // (team_id, competition_id)
    playerInTeam: set<Link>,           // (player_id, team_id)
    teamInMatch: set<Link>,            // (team_id, match_id)
    coachInTeam: set<Link>,            // (coach_id, team_id)
    aiStatementInMatch: set<Link>,     // (statement_id, match_id)
    filteredMatchInNews: set<Link>)    // (match_id, news_id)

  const Empty: Db := Db(map[], map[], map[], map[], map[], map[], map[], map[], map[], map[], map[], map[],
                        {}, {}, {}, {}, {}, {}, {})

  /** The unique constraint on (match_name, planned_start_datetime); a row
      whose start is NULL takes part in no collision. */
  function MatchSlot(m: Match): Option<(string, DateTime)>
  {
    if m.plannedStart.Some? then Some((m.matchName, m.plannedStart.value)) else None
  }

  /** The unique constraint on (nickname, name, image_url); a NULL in any of
      them takes part in no collision. */
  function MemberIdentity(t: TeamMember): Option<(string, string, string)>
  {
    if t.nickname.Some? && t.name.Some? && t.imageUrl.Some?
    then Some((t.nickname.value, t.name.value, t.imageUrl.value))
    else None
  }

  predicate OptIn(x: Option<Id>, keys: set<Id>)
  {
    x.Some? ==> x.value in keys
  }

  predicate LinksBetween(links: set<Link>, left: set<Id>, right: set<Id>)
  {
    forall l :: l in links ==> l.0 in left && l.1 in right
  }

  // ----- foreign keys: every stored key names an existing row, or is null where the column allows it -----

  predicate CompetitionRefs(competitions: map<Id, Competition>, sports: set<Id>)
  {
    forall c :: c in competitions ==> competitions[c].sportId in sports
  }

  predicate MatchRefs(matches: map<Id, Match>, sports: set<Id>, competitions: set<Id>, statuses: set<Id>)
  {
    forall m :: m in matches ==>
      matches[m].sportId in sports && OptIn(matches[m].competitionId, competitions) && OptIn(matches[m].statusId, statuses)
  }

  predicate SubstitutionRefs(subs: map<SubKey, Substitution>, matches: set<Id>, members: set<Id>, teams: set<Id>)
  {
    forall k :: k in subs ==>
      k.matchId in matches && k.prevPlayerId in members && k.newPlayerId in members && subs[k].teamId in teams
  }

  predicate RawNewsRefs(news: map<Id, RawNews>, sports: set<Id>)
  {
    forall n :: n in news ==> news[n].sportId in sports
  }

  predicate FormattedNewsRefs(news: map<Id, FormattedNews>, sports: set<Id>)
  {
    forall n :: n in news ==> news[n].sportId in sports
  }

  predicate RefsOk(d: Db)
  {
    && CompetitionRefs(d.competitions, d.sports.Keys)
    && MatchRefs(d.matches, d.sports.Keys, d.competitions.Keys, d.statuses.Keys)
    && SubstitutionRefs(d.substitutions, d.matches.Keys, d.members.Keys, d.teams.Keys)
    && RawNewsRefs(d.rawNews, d.sports.Keys)
    && FormattedNewsRefs(d.formattedNews, d.sports.Keys)
  }

  /** Both key columns of every join row name existing rows. */
  predicate LinksOk(d: Db)
  {
    && LinksBetween(d.competitionInCategory, d.competitions.Keys, d.categories.Keys)
    && LinksBetween(d.teamInCompetition, d.teams.Keys, d.competitions.Keys)
    && LinksBetween(d.playerInTeam, d.members.Keys, d.teams.Keys)
    && LinksBetween(d.teamInMatch, d.teams.Keys, d.matches.Keys)
    && LinksBetween(d.coachInTeam, d.coaches.Keys, d.teams.Keys)
    && LinksBetween(d.aiStatementInMatch, d.statements.Keys, d.matches.Keys)
    && LinksBetween(d.filteredMatchInNews, d.matches.Keys, d.formattedNews.Keys)
  }

  // ----- unique columns and unique constraints -----

  predicate SportNamesUnique(sports: map<Id, Sport>)
  {
    forall a, b :: a in sports && b in sports && sports[a].name == sports[b].name ==> a == b
  }

  predicate CompetitionNamesUnique(competitions: map<Id, Competition>)
  {
    forall a, b :: a in competitions && b in competitions && competitions[a].name == competitions[b].name ==> a == b
  }

  predicate TeamNamesUnique(teams: map<Id, Team>)
  {
    forall a, b :: a in teams && b in teams && teams[a].name == teams[b].name ==> a == b
  }

  predicate MatchKeysUnique(matches: map<Id, Match>)
  {
    && (forall a, b :: a in matches && b in matches && matches[a].externalId == matches[b].externalId ==> a == b)
    && (forall a, b :: a in matches && b in matches && SameSlot(matches[a], matches[b]) ==> a == b)
  }

  predicate MemberIdentitiesUnique(members: map<Id, TeamMember>)
  {
    forall a, b :: a in members && b in members && SameIdentity(members[a], members[b]) ==> a == b
  }

  predicate UniqueOk(d: Db)
  {
    && SportNamesUnique(d.sports)
    && CompetitionNamesUnique(d.competitions)
    && TeamNamesUnique(d.teams)
    && MatchKeysUnique(d.matches)
    && MemberIdentitiesUnique(d.members)
  }

  /** Two matches collide on (match_name, planned_start_datetime). */
  predicate SameSlot(m: Match, n: Match)
  {
    MatchSlot(m).Some? && MatchSlot(m) == MatchSlot(n)
  }

  /** Two members collide on (nickname, name, image_url). */
  predicate SameIdentity(t: TeamMember, u: TeamMember)
  {
    MemberIdentity(t).Some? && MemberIdentity(t) == MemberIdentity(u)
  }

  /** The integrity invariant of the store. Join rows are unique per pair
      because a join table is a set of pairs. */
  predicate Valid(d: Db)
  {
    RefsOk(d) && LinksOk(d) && UniqueOk(d)
  }

  /** The store's entity tables (everything but the join tables) are the same. */
  predicate SameRows(d: Db, e: Db)
  {
    && d.sports == e.sports && d.competitions == e.competitions && d.categories == e.categories
    && d.teams == e.teams && d.members == e.members && d.coaches == e.coaches
    && d.statuses == e.statuses && d.matches == e.matches && d.statements == e.statements
    && d.substitutions == e.substitutions && d.rawNews == e.rawNews && d.formattedNews == e.formattedNews
  }

  /** Validity depends on the join tables only through `LinksOk`. */
  lemma SameRowsValid(d: Db, e: Db)
    requires Valid(d) && SameRows(d, e) && LinksOk(e)
    ensures Valid(e)
  {
  }

  lemma EmptyValid()
    ensures Valid(Empty)
  {
  }
}
