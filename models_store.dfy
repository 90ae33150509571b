/** The package schema as a mutable store: one field per table, changed in
    place by the session operations. Every operation either does what the
    matching function of ModelsOps or ModelsCascade computes, or is refused
    and changes nothing, and every operation keeps the integrity invariant. */
module ModelsStore {
  import opened Common
  import opened ModelsSchema
  import opened ModelsOps
  import opened ModelsCascade

  class Store {
    var sports: map<Id, Sport>
    var competitions: map<Id, Competition>
    var categories: map<Id, CompetitionCategory>
    var teams: map<Id, Team>
    var members: map<Id, TeamMember>
    var coaches: map<Id, Coach>
    var statuses: map<Id, MatchStatus>
    var matches: map<Id, Match>
    var statements: map<Id, MatchAIStatement>
    var substitutions: map<SubKey, Substitution>
    var rawNews: map<Id, RawNews>
    var formattedNews: map<Id, FormattedNews>
    var competitionInCategory: set<Link>
    var teamInCompetition: set<Link>
    var playerInTeam: set<Link>
    var teamInMatch: set<Link>
    var coachInTeam: set<Link>
    var aiStatementInMatch: set<Link>
    var filteredMatchInNews: set<Link>

    /** The tables as one value. */
    function State(): Db
      reads this
    {
      Db(sports, competitions, categories, teams, members, coaches, statuses, matches, statements, substitutions, rawNews, formattedNews, competitionInCategory, teamInCompetition, playerInTeam, teamInMatch, coachInTeam, aiStatementInMatch, filteredMatchInNews)
    }

    ghost predicate Valid()
      reads this
    {
      ModelsSchema.Valid(State())
    }

    /** A freshly migrated, empty database. */
    constructor()
      ensures State() == Empty && Valid()
    {
      sports := map[];
      competitions := map[];
      categories := map[];
      teams := map[];
      members := map[];
      coaches := map[];
      statuses := map[];
      matches := map[];
      statements := map[];
      substitutions := map[];
      rawNews := map[];
      formattedNews := map[];
      competitionInCategory := {};
      teamInCompetition := {};
      playerInTeam := {};
      teamInMatch := {};
      coachInTeam := {};
      aiStatementInMatch := {};
      filteredMatchInNews := {};
      EmptyValid();
    }

    // ----- session.add(row) and flush -----

    method AddSport(id: Id, row: Sport) returns (r: Outcome)
      requires Valid()
      modifies this
      ensures Valid()
      ensures Reflects(old(State()), InsertSport(old(State()), id, row), State(), r)
    {
      InsertSportSpec(State(), id, row);
      InsertSportKeepsValid(State(), id, row);
      if id in sports || SportNameTaken(State(), row.name) {
        return Fail(UniqueViolation);
      }
      sports := sports[id := row];
      r := Pass;
    }

    method AddCompetition(id: Id, row: Competition) returns (r: Outcome)
      requires Valid()
      modifies this
      ensures Valid()
      ensures Reflects(old(State()), InsertCompetition(old(State()), id, row), State(), r)
    {
      InsertCompetitionSpec(State(), id, row);
      InsertCompetitionKeepsValid(State(), id, row);
      if id in competitions || CompetitionNameTaken(State(), row.name) {
        return Fail(UniqueViolation);
      }
      if row.sportId !in sports {
        return Fail(ForeignKeyViolation);
      }
      competitions := competitions[id := row];
      r := Pass;
    }

    method AddCategory(id: Id, row: CompetitionCategory) returns (r: Outcome)
      requires Valid()
      modifies this
      ensures Valid()
      ensures Reflects(old(State()), InsertCategory(old(State()), id, row), State(), r)
    {
      InsertCategorySpec(State(), id, row);
      InsertCategoryKeepsValid(State(), id, row);
      if id in categories {
        return Fail(UniqueViolation);
      }
      categories := categories[id := row];
      r := Pass;
    }

    method AddTeam(id: Id, row: Team) returns (r: Outcome)
      requires Valid()
      modifies this
      ensures Valid()
      ensures Reflects(old(State()), InsertTeam(old(State()), id, row), State(), r)
    {
      InsertTeamSpec(State(), id, row);
      InsertTeamKeepsValid(State(), id, row);
      if id in teams || TeamNameTaken(State(), row.name) {
        return Fail(UniqueViolation);
      }
      teams := teams[id := row];
      r := Pass;
    }

    method AddMember(id: Id, row: TeamMember) returns (r: Outcome)
      requires Valid()
      modifies this
      ensures Valid()
      ensures Reflects(old(State()), InsertMember(old(State()), id, row), State(), r)
    {
      InsertMemberSpec(State(), id, row);
      InsertMemberKeepsValid(State(), id, row);
      if id in members || MemberIdentityTaken(State(), row) {
        return Fail(UniqueViolation);
      }
      members := members[id := row];
      r := Pass;
    }

    method AddCoach(id: Id, row: Coach) returns (r: Outcome)
      requires Valid()
      modifies this
      ensures Valid()
      ensures Reflects(old(State()), InsertCoach(old(State()), id, row), State(), r)
    {
      InsertCoachSpec(State(), id, row);
      InsertCoachKeepsValid(State(), id, row);
      if id in coaches {
        return Fail(UniqueViolation);
      }
      coaches := coaches[id := row];
      r := Pass;
    }

    method AddStatus(id: Id, row: MatchStatus) returns (r: Outcome)
      requires Valid()
      modifies this
      ensures Valid()
      ensures Reflects(old(State()), InsertStatus(old(State()), id, row), State(), r)
    {
      InsertStatusSpec(State(), id, row);
      InsertStatusKeepsValid(State(), id, row);
      if id in statuses {
        return Fail(UniqueViolation);
      }
      statuses := statuses[id := row];
      r := Pass;
    }

    method AddMatch(id: Id, row: Match) returns (r: Outcome)
      requires Valid()
      modifies this
      ensures Valid()
      ensures Reflects(old(State()), InsertMatch(old(State()), id, row), State(), r)
    {
      InsertMatchSpec(State(), id, row);
      InsertMatchKeepsValid(State(), id, row);
      if id in matches || ExternalIdTaken(State(), row.externalId) || SlotTaken(State(), row) {
        return Fail(UniqueViolation);
      }
      if !MatchParentsExist(State(), row) {
        return Fail(ForeignKeyViolation);
      }
      matches := matches[id := row];
      r := Pass;
    }

    method AddRawNews(id: Id, row: RawNews) returns (r: Outcome)
      requires Valid()
      modifies this
      ensures Valid()
      ensures Reflects(old(State()), InsertRawNews(old(State()), id, row), State(), r)
    {
      InsertRawNewsSpec(State(), id, row);
      InsertRawNewsKeepsValid(State(), id, row);
      if id in rawNews {
        return Fail(UniqueViolation);
      }
      if row.sportId !in sports {
        return Fail(ForeignKeyViolation);
      }
      rawNews := rawNews[id := row];
      r := Pass;
    }

    method AddFormattedNews(id: Id, row: FormattedNews) returns (r: Outcome)
      requires Valid()
      modifies this
      ensures Valid()
      ensures Reflects(old(State()), InsertFormattedNews(old(State()), id, row), State(), r)
    {
      InsertFormattedNewsSpec(State(), id, row);
      InsertFormattedNewsKeepsValid(State(), id, row);
      if id in formattedNews {
        return Fail(UniqueViolation);
      }
      if row.sportId !in sports {
        return Fail(ForeignKeyViolation);
      }
      formattedNews := formattedNews[id := row];
      r := Pass;
    }

    method AddStatement(id: Id) returns (r: Outcome)
      requires Valid()
      modifies this
      ensures Valid()
      ensures Reflects(old(State()), InsertStatement(old(State()), id), State(), r)
    {
      InsertStatementSpec(State(), id);
      InsertStatementKeepsValid(State(), id);
      if id in statements {
        return Fail(UniqueViolation);
      }
      statements := statements[id := MatchAIStatement];
      r := Pass;
    }

    method AddSubstitution(key: SubKey, row: Substitution) returns (r: Outcome)
      requires Valid()
      modifies this
      ensures Valid()
      ensures Reflects(old(State()), InsertSubstitution(old(State()), key, row), State(), r)
    {
      InsertSubstitutionSpec(State(), key, row);
      InsertSubstitutionKeepsValid(State(), key, row);
      if key in substitutions {
        return Fail(UniqueViolation);
      }
      if !SubstitutionParentsExist(State(), key, row) {
        return Fail(ForeignKeyViolation);
      }
      substitutions := substitutions[key := row];
      r := Pass;
    }

    // ----- append to and remove from a many-to-many collection, and flush -----

    /** Replaces the rows of one join table. */
    method SetLinks(rel: Relation, links: set<Link>)
      modifies this`competitionInCategory, this`teamInCompetition, this`playerInTeam, this`teamInMatch,
               this`coachInTeam, this`aiStatementInMatch, this`filteredMatchInNews
      ensures State() == WithLinks(old(State()), rel, links)
    {
      if rel.CompetitionInCategory? || rel.TeamInCompetition? || rel.PlayerInTeam? {
        SetTeamLinks(rel, links);
      } else {
        SetMatchLinks(rel, links);
      }
    }

    /** Replaces a join table of competitions, categories or players. */
    method SetTeamLinks(rel: Relation, links: set<Link>)
      requires rel.CompetitionInCategory? || rel.TeamInCompetition? || rel.PlayerInTeam?
      modifies this`competitionInCategory, this`teamInCompetition, this`playerInTeam
      ensures State() == WithLinks(old(State()), rel, links)
    {
      match rel {
        case CompetitionInCategory => competitionInCategory := links;
        case TeamInCompetition => teamInCompetition := links;
        case PlayerInTeam => playerInTeam := links;
      }
    }

    /** Replaces a join table of matches, coaches or news. */
    method SetMatchLinks(rel: Relation, links: set<Link>)
      requires !(rel.CompetitionInCategory? || rel.TeamInCompetition? || rel.PlayerInTeam?)
      modifies this`teamInMatch, this`coachInTeam, this`aiStatementInMatch, this`filteredMatchInNews
      ensures State() == WithLinks(old(State()), rel, links)
    {
      match rel {
        case TeamInMatch => teamInMatch := links;
        case CoachInTeam => coachInTeam := links;
        case AiStatementInMatch => aiStatementInMatch := links;
        case FilteredMatchInNews => filteredMatchInNews := links;
      }
    }

    method Link(rel: Relation, a: Id, b: Id) returns (r: Outcome)
      requires Valid()
      modifies this
      ensures Valid()
      ensures Reflects(old(State()), Attach(old(State()), rel, a, b), State(), r)
    {
      AttachSpec(State(), rel, a, b);
      AttachKeepsValid(State(), rel, a, b);
      if a !in LeftKeys(State(), rel) || b !in RightKeys(State(), rel) {
        return Fail(ForeignKeyViolation);
      }
      SetLinks(rel, Links(State(), rel) + {(a, b)});
      r := Pass;
    }

    method Unlink(rel: Relation, a: Id, b: Id) returns (r: Outcome)
      requires Valid()
      modifies this
      ensures Valid()
      ensures Reflects(old(State()), Detach(old(State()), rel, a, b), State(), r)
    {
      DetachSpec(State(), rel, a, b);
      DetachKeepsValid(State(), rel, a, b);
      if (a, b) !in Links(State(), rel) {
        return Fail(NotFound);
      }
      SetLinks(rel, Links(State(), rel) - {(a, b)});
      r := Pass;
    }

    // ----- session.delete(row) and flush -----

    /** Removes the deleted sports, competitions, categories and teams. */
    method RemoveUpper(p: Plan)
      modifies this`sports, this`competitions, this`categories, this`teams
      ensures sports == old(sports) - p.sports && competitions == old(competitions) - p.competitions
      ensures categories == old(categories) - p.categories && teams == old(teams) - p.teams
    {
      sports := RemoveRows(sports, p.sports);
      competitions := RemoveRows(competitions, p.competitions);
      categories := RemoveRows(categories, p.categories);
      teams := RemoveRows(teams, p.teams);
    }

    /** Removes the deleted members, coaches, statuses and statements. */
    method RemoveLower(p: Plan)
      modifies this`members, this`coaches, this`statuses, this`statements
      ensures members == old(members) - p.members && coaches == old(coaches) - p.coaches
      ensures statuses == old(statuses) - p.statuses && statements == old(statements) - p.statements
    {
      members := RemoveRows(members, p.members);
      coaches := RemoveRows(coaches, p.coaches);
      statuses := RemoveRows(statuses, p.statuses);
      statements := RemoveRows(statements, p.statements);
    }

    /** Removes the deleted matches, substitutions and news items, and nulls
        the status of the surviving matches whose status is deleted. */
    method RemoveEvents(p: Plan)
      modifies this`matches, this`substitutions, this`rawNews, this`formattedNews
      ensures matches == StatusCleared(old(matches) - p.matches, p.statuses)
      ensures substitutions == old(substitutions) - p.substitutions
      ensures rawNews == old(rawNews) - p.rawNews && formattedNews == old(formattedNews) - p.formattedNews
    {
      var kept := RemoveRows(matches, p.matches);
      matches := ClearStatuses(kept, p.statuses);
      substitutions := RemoveRows(substitutions, p.substitutions);
      rawNews := RemoveRows(rawNews, p.rawNews);
      formattedNews := RemoveRows(formattedNews, p.formattedNews);
    }

    /** Drops the join rows that name a deleted row. */
    method RemoveLinks(p: Plan)
      modifies this`competitionInCategory, this`teamInCompetition, this`playerInTeam, this`teamInMatch,
               this`coachInTeam, this`aiStatementInMatch, this`filteredMatchInNews
      ensures competitionInCategory == Unlinked(old(competitionInCategory), p.competitions, p.categories)
      ensures teamInCompetition == Unlinked(old(teamInCompetition), p.teams, p.competitions)
      ensures playerInTeam == Unlinked(old(playerInTeam), p.members, p.teams)
      ensures teamInMatch == Unlinked(old(teamInMatch), p.teams, p.matches)
      ensures coachInTeam == Unlinked(old(coachInTeam), p.coaches, p.teams)
      ensures aiStatementInMatch == Unlinked(old(aiStatementInMatch), p.statements, p.matches)
      ensures filteredMatchInNews == Unlinked(old(filteredMatchInNews), p.matches, p.formattedNews)
    {
      competitionInCategory := DropLinks(competitionInCategory, p.competitions, p.categories);
      teamInCompetition := DropLinks(teamInCompetition, p.teams, p.competitions);
      playerInTeam := DropLinks(playerInTeam, p.members, p.teams);
      teamInMatch := DropLinks(teamInMatch, p.teams, p.matches);
      coachInTeam := DropLinks(coachInTeam, p.coaches, p.teams);
      aiStatementInMatch := DropLinks(aiStatementInMatch, p.statements, p.matches);
      filteredMatchInNews := DropLinks(filteredMatchInNews, p.matches, p.formattedNews);
    }

    /** Removes the rows of `p` from every table, drops the join rows that
        name them and nulls the status of the surviving matches. */
    method Rewrite(p: Plan)
      modifies this
      ensures State() == Apply(old(State()), p)
    {
      RemoveTableRows(p);
      RemoveLinks(p);
    }

    /** Removes the rows of `p` from every entity table. */
    method RemoveTableRows(p: Plan)
      modifies this`sports, this`competitions, this`categories, this`teams, this`members, this`coaches,
               this`statuses, this`statements, this`matches, this`substitutions, this`rawNews, this`formattedNews
      ensures sports == old(sports) - p.sports && competitions == old(competitions) - p.competitions
      ensures categories == old(categories) - p.categories && teams == old(teams) - p.teams
      ensures members == old(members) - p.members && coaches == old(coaches) - p.coaches
      ensures statuses == old(statuses) - p.statuses && statements == old(statements) - p.statements
      ensures matches == StatusCleared(old(matches) - p.matches, p.statuses)
      ensures substitutions == old(substitutions) - p.substitutions
      ensures rawNews == old(rawNews) - p.rawNews && formattedNews == old(formattedNews) - p.formattedNews
    {
      RemoveUpper(p);
      RemoveLower(p);
      RemoveEvents(p);
    }

    /** Flushes the deletion of the rows of `p`: refused as `Delete` says,
        otherwise every table is rewritten, row by row. */
    method Remove(p: Plan) returns (r: Outcome)
      requires Valid()
      modifies this
      ensures Valid()
      ensures Reflects(old(State()), Delete(old(State()), p), State(), r)
    {
      if NullsMatchSport(State(), p) {
        return Fail(NotNullViolation);
      }
      if Dangling(State(), p) {
        return Fail(ForeignKeyViolation);
      }
      DeletePreservesValid(State(), p);
      Rewrite(p);
      r := Pass;
    }

    method RemoveSport(x: Id) returns (r: Outcome)
      requires Valid()
      modifies this
      ensures Valid()
      ensures Reflects(old(State()), DeleteSport(old(State()), x), State(), r)
    {
      if x !in sports {
        return Fail(NotFound);
      }
      r := Remove(Closure(State(), Nothing.(sports := {x})));
    }

    method RemoveCompetition(x: Id) returns (r: Outcome)
      requires Valid()
      modifies this
      ensures Valid()
      ensures Reflects(old(State()), DeleteCompetition(old(State()), x), State(), r)
    {
      if x !in competitions {
        return Fail(NotFound);
      }
      r := Remove(Closure(State(), Nothing.(competitions := {x})));
    }

    method RemoveCategory(x: Id) returns (r: Outcome)
      requires Valid()
      modifies this
      ensures Valid()
      ensures Reflects(old(State()), DeleteCategory(old(State()), x), State(), r)
    {
      if x !in categories {
        return Fail(NotFound);
      }
      r := Remove(Closure(State(), Nothing.(categories := {x})));
    }

    method RemoveTeam(x: Id) returns (r: Outcome)
      requires Valid()
      modifies this
      ensures Valid()
      ensures Reflects(old(State()), DeleteTeam(old(State()), x), State(), r)
    {
      if x !in teams {
        return Fail(NotFound);
      }
      r := Remove(Closure(State(), Nothing.(teams := {x})));
    }

    method RemoveMember(x: Id) returns (r: Outcome)
      requires Valid()
      modifies this
      ensures Valid()
      ensures Reflects(old(State()), DeleteMember(old(State()), x), State(), r)
    {
      if x !in members {
        return Fail(NotFound);
      }
      r := Remove(Closure(State(), Nothing.(members := {x})));
    }

    method RemoveCoach(x: Id) returns (r: Outcome)
      requires Valid()
      modifies this
      ensures Valid()
      ensures Reflects(old(State()), DeleteCoach(old(State()), x), State(), r)
    {
      if x !in coaches {
        return Fail(NotFound);
      }
      r := Remove(Closure(State(), Nothing.(coaches := {x})));
    }

    method RemoveStatus(x: Id) returns (r: Outcome)
      requires Valid()
      modifies this
      ensures Valid()
      ensures Reflects(old(State()), DeleteStatus(old(State()), x), State(), r)
    {
      if x !in statuses {
        return Fail(NotFound);
      }
      r := Remove(Closure(State(), Nothing.(statuses := {x})));
    }

    method RemoveMatch(x: Id) returns (r: Outcome)
      requires Valid()
      modifies this
      ensures Valid()
      ensures Reflects(old(State()), DeleteMatch(old(State()), x), State(), r)
    {
      if x !in matches {
        return Fail(NotFound);
      }
      r := Remove(Closure(State(), Nothing.(matches := {x})));
    }

    method RemoveStatement(x: Id) returns (r: Outcome)
      requires Valid()
      modifies this
      ensures Valid()
      ensures Reflects(old(State()), DeleteStatement(old(State()), x), State(), r)
    {
      if x !in statements {
        return Fail(NotFound);
      }
      r := Remove(Closure(State(), Nothing.(statements := {x})));
    }

    method RemoveSubstitution(k: SubKey) returns (r: Outcome)
      requires Valid()
      modifies this
      ensures Valid()
      ensures Reflects(old(State()), DeleteSubstitution(old(State()), k), State(), r)
    {
      if k !in substitutions {
        return Fail(NotFound);
      }
      r := Remove(Closure(State(), Nothing.(substitutions := {k})));
    }

    method RemoveRawNews(x: Id) returns (r: Outcome)
      requires Valid()
      modifies this
      ensures Valid()
      ensures Reflects(old(State()), DeleteRawNews(old(State()), x), State(), r)
    {
      if x !in rawNews {
        return Fail(NotFound);
      }
      r := Remove(Closure(State(), Nothing.(rawNews := {x})));
    }

    method RemoveFormattedNews(x: Id) returns (r: Outcome)
      requires Valid()
      modifies this
      ensures Valid()
      ensures Reflects(old(State()), DeleteFormattedNews(old(State()), x), State(), r)
    {
      if x !in formattedNews {
        return Fail(NotFound);
      }
      r := Remove(Closure(State(), Nothing.(formattedNews := {x})));
    }
  }
}
