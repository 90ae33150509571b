/** Inserting rows into the variant schema, flux_orm/cs/models.py, and
    attaching/detaching the rows of its many-to-many relations. Only primary
    keys and `Match.status_id` are unique here; an insert is refused with
    `UniqueViolation` on a collision (checked first) and with
    `ForeignKeyViolation` when a referenced parent is missing. */
module CsOps {
  import opened Common
  import opened CsSchema

  // ----- inserts -----

  function InsertSport(d: Db, id: Id, row: Sport): Result<Db>
  {
    if id in d.sports then Err(UniqueViolation)
    else Ok(d.(sports := d.sports[id := row]))
  }

  /** Sport names are not unique in this schema: only the key can collide. */
  lemma InsertSportSpec(d: Db, id: Id, row: Sport)
    ensures var r := InsertSport(d, id, row);
      && (r.Ok? <==> id !in d.sports)
      && (r.Err? ==> r.error == UniqueViolation)
      && (r.Ok? ==> Added(d.sports, r.value.sports, id, row) && r.value.(sports := d.sports) == d)
  {
  }
  /** A successful insert keeps the integrity invariant. */
  lemma InsertSportKeepsValid(d: Db, id: Id, row: Sport)
    requires Valid(d)
    ensures InsertSport(d, id, row).Ok? ==> Valid(InsertSport(d, id, row).value)
  {
    if InsertSport(d, id, row).Ok? {
      var e := InsertSport(d, id, row).value;
      assert d.sports.Keys <= e.sports.Keys;
    }
  }


  function InsertCompetition(d: Db, id: Id, row: Competition): Result<Db>
  {
    if id in d.competitions then Err(UniqueViolation)
    else if row.sportId !in d.sports then Err(ForeignKeyViolation)
    else Ok(d.(competitions := d.competitions[id := row]))
  }

  lemma InsertCompetitionSpec(d: Db, id: Id, row: Competition)
    ensures var r := InsertCompetition(d, id, row);
      && (r.Ok? <==> id !in d.competitions && row.sportId in d.sports)
      && (r.Err? && r.error == UniqueViolation <==> id in d.competitions)
      && (r.Err? && r.error == ForeignKeyViolation <==> id !in d.competitions && row.sportId !in d.sports)
      && (r.Ok? ==> Added(d.competitions, r.value.competitions, id, row)
                    && r.value.(competitions := d.competitions) == d)
  {
  }
  /** A successful insert keeps the integrity invariant. */
  lemma InsertCompetitionKeepsValid(d: Db, id: Id, row: Competition)
    requires Valid(d)
    ensures InsertCompetition(d, id, row).Ok? ==> Valid(InsertCompetition(d, id, row).value)
  {
    if InsertCompetition(d, id, row).Ok? {
      var e := InsertCompetition(d, id, row).value;
      assert d.competitions.Keys <= e.competitions.Keys;
      assert CompetitionRefs(e.competitions, e.sports.Keys);
    }
  }


  function InsertCategory(d: Db, id: Id, row: CompetitionCategory): Result<Db>
  {
    if id in d.categories then Err(UniqueViolation)
    else Ok(d.(categories := d.categories[id := row]))
  }

  lemma InsertCategorySpec(d: Db, id: Id, row: CompetitionCategory)
    ensures var r := InsertCategory(d, id, row);
      && (r.Ok? <==> id !in d.categories)
      && (r.Err? ==> r.error == UniqueViolation)
      && (r.Ok? ==> Added(d.categories, r.value.categories, id, row)
                    && r.value.(categories := d.categories) == d)
  {
  }
  /** A successful insert keeps the integrity invariant. */
  lemma InsertCategoryKeepsValid(d: Db, id: Id, row: CompetitionCategory)
    requires Valid(d)
    ensures InsertCategory(d, id, row).Ok? ==> Valid(InsertCategory(d, id, row).value)
  {
    if InsertCategory(d, id, row).Ok? {
      var e := InsertCategory(d, id, row).value;
      assert d.categories.Keys <= e.categories.Keys;
    }
  }


  function InsertTeam(d: Db, id: Id, row: Team): Result<Db>
  {
    if id in d.teams then Err(UniqueViolation)
    else Ok(d.(teams := d.teams[id := row]))
  }

  /** Team names are not unique in this schema: only the key can collide. */
  lemma InsertTeamSpec(d: Db, id: Id, row: Team)
    ensures var r := InsertTeam(d, id, row);
      && (r.Ok? <==> id !in d.teams)
      && (r.Err? ==> r.error == UniqueViolation)
      && (r.Ok? ==> Added(d.teams, r.value.teams, id, row) && r.value.(teams := d.teams) == d)
  {
  }
  /** A successful insert keeps the integrity invariant. */
  lemma InsertTeamKeepsValid(d: Db, id: Id, row: Team)
    requires Valid(d)
    ensures InsertTeam(d, id, row).Ok? ==> Valid(InsertTeam(d, id, row).value)
  {
    if InsertTeam(d, id, row).Ok? {
      var e := InsertTeam(d, id, row).value;
      assert d.teams.Keys <= e.teams.Keys;
    }
  }


  function InsertMember(d: Db, id: Id, row: TeamMember): Result<Db>
  {
    if id in d.members then Err(UniqueViolation)
    else Ok(d.(members := d.members[id := row]))
  }

  /** Members carry no unique constraint in this schema: only the key can collide. */
  lemma InsertMemberSpec(d: Db, id: Id, row: TeamMember)
    ensures var r := InsertMember(d, id, row);
      && (r.Ok? <==> id !in d.members)
      && (r.Err? ==> r.error == UniqueViolation)
      && (r.Ok? ==> Added(d.members, r.value.members, id, row) && r.value.(members := d.members) == d)
  {
  }
  /** A successful insert keeps the integrity invariant. */
  lemma InsertMemberKeepsValid(d: Db, id: Id, row: TeamMember)
    requires Valid(d)
    ensures InsertMember(d, id, row).Ok? ==> Valid(InsertMember(d, id, row).value)
  {
    if InsertMember(d, id, row).Ok? {
      var e := InsertMember(d, id, row).value;
      assert d.members.Keys <= e.members.Keys;
    }
  }


  function InsertCoach(d: Db, id: Id, row: Coach): Result<Db>
  {
    if id in d.coaches then Err(UniqueViolation)
    else Ok(d.(coaches := d.coaches[id := row]))
  }

  lemma InsertCoachSpec(d: Db, id: Id, row: Coach)
    ensures var r := InsertCoach(d, id, row);
      && (r.Ok? <==> id !in d.coaches)
      && (r.Err? ==> r.error == UniqueViolation)
      && (r.Ok? ==> Added(d.coaches, r.value.coaches, id, row) && r.value.(coaches := d.coaches) == d)
  {
  }
  /** A successful insert keeps the integrity invariant. */
  lemma InsertCoachKeepsValid(d: Db, id: Id, row: Coach)
    requires Valid(d)
    ensures InsertCoach(d, id, row).Ok? ==> Valid(InsertCoach(d, id, row).value)
  {
    if InsertCoach(d, id, row).Ok? {
      var e := InsertCoach(d, id, row).value;
      assert d.coaches.Keys <= e.coaches.Keys;
    }
  }


  function InsertStatus(d: Db, id: Id, row: MatchStatus): Result<Db>
  {
    if id in d.statuses then Err(UniqueViolation)
    else Ok(d.(statuses := d.statuses[id := row]))
  }

  lemma InsertStatusSpec(d: Db, id: Id, row: MatchStatus)
    ensures var r := InsertStatus(d, id, row);
      && (r.Ok? <==> id !in d.statuses)
      && (r.Err? ==> r.error == UniqueViolation)
      && (r.Ok? ==> Added(d.statuses, r.value.statuses, id, row) && r.value.(statuses := d.statuses) == d)
  {
  }
  /** A successful insert keeps the integrity invariant. */
  lemma InsertStatusKeepsValid(d: Db, id: Id, row: MatchStatus)
    requires Valid(d)
    ensures InsertStatus(d, id, row).Ok? ==> Valid(InsertStatus(d, id, row).value)
  {
    if InsertStatus(d, id, row).Ok? {
      var e := InsertStatus(d, id, row).value;
      assert d.statuses.Keys <= e.statuses.Keys;
    }
  }


  /** Some match already holds status `st` (`Match.status_id` is unique). */
  predicate StatusInUse(d: Db, st: Id)
  {
    exists m :: m in d.matches && d.matches[m].statusId == st
  }

  predicate MatchParentsExist(d: Db, row: Match)
  {
    row.competitionId in d.competitions && row.statusId in d.statuses
  }

  function InsertMatch(d: Db, id: Id, row: Match): Result<Db>
  {
    if id in d.matches || StatusInUse(d, row.statusId) then Err(UniqueViolation)
    else if !MatchParentsExist(d, row) then Err(ForeignKeyViolation)
    else Ok(d.(matches := d.matches[id := row]))
  }

  lemma InsertMatchSpec(d: Db, id: Id, row: Match)
    ensures var r := InsertMatch(d, id, row);
      && (r.Ok? <==> id !in d.matches && !StatusInUse(d, row.statusId) && MatchParentsExist(d, row))
      && (r.Err? && r.error == UniqueViolation <==> id in d.matches || StatusInUse(d, row.statusId))
      && (r.Err? && r.error == ForeignKeyViolation <==> id !in d.matches && !StatusInUse(d, row.statusId)
                                                         && !MatchParentsExist(d, row))
      && (r.Ok? ==> Added(d.matches, r.value.matches, id, row) && r.value.(matches := d.matches) == d)
  {
  }
  /** A successful insert keeps the integrity invariant. */
  lemma InsertMatchKeepsValid(d: Db, id: Id, row: Match)
    requires Valid(d)
    ensures InsertMatch(d, id, row).Ok? ==> Valid(InsertMatch(d, id, row).value)
  {
    if InsertMatch(d, id, row).Ok? {
      var e := InsertMatch(d, id, row).value;
      assert d.matches.Keys <= e.matches.Keys;
      assert StatusesUnique(e.matches);
    }
  }

  /** After a match is inserted, its status is the status of that match alone. */
  lemma InsertMatchOwnsStatus(d: Db, id: Id, row: Match)
    requires Valid(d)
    requires InsertMatch(d, id, row).Ok?
    ensures MatchesInStatus(InsertMatch(d, id, row).value, row.statusId) == {id}
  {
    var e := InsertMatch(d, id, row).value;
    assert id in MatchesInStatus(e, row.statusId);
  }


  function InsertStatement(d: Db, id: Id): Result<Db>
  {
    if id in d.statements then Err(UniqueViolation)
    else Ok(d.(statements := d.statements[id := MatchAIStatement]))
  }

  lemma InsertStatementSpec(d: Db, id: Id)
    ensures var r := InsertStatement(d, id);
      && (r.Ok? <==> id !in d.statements)
      && (r.Err? ==> r.error == UniqueViolation)
      && (r.Ok? ==> Added(d.statements, r.value.statements, id, MatchAIStatement)
                    && r.value.(statements := d.statements) == d)
  {
  }
  /** A successful insert keeps the integrity invariant. */
  lemma InsertStatementKeepsValid(d: Db, id: Id)
    requires Valid(d)
    ensures InsertStatement(d, id).Ok? ==> Valid(InsertStatement(d, id).value)
  {
    if InsertStatement(d, id).Ok? {
      var e := InsertStatement(d, id).value;
      assert d.statements.Keys <= e.statements.Keys;
    }
  }


  predicate SubstitutionParentsExist(d: Db, key: SubKey, row: Substitution)
  {
    key.matchId in d.matches && key.prevPlayerId in d.members && key.newPlayerId in d.members && row.teamId in d.teams
  }

  function InsertSubstitution(d: Db, key: SubKey, row: Substitution): Result<Db>
  {
    if key in d.substitutions then Err(UniqueViolation)
    else if !SubstitutionParentsExist(d, key, row) then Err(ForeignKeyViolation)
    else Ok(d.(substitutions := d.substitutions[key := row]))
  }

  lemma InsertSubstitutionSpec(d: Db, key: SubKey, row: Substitution)
    ensures var r := InsertSubstitution(d, key, row);
      && (r.Ok? <==> key !in d.substitutions && SubstitutionParentsExist(d, key, row))
      && (r.Err? && r.error == UniqueViolation <==> key in d.substitutions)
      && (r.Err? && r.error == ForeignKeyViolation <==> key !in d.substitutions && !SubstitutionParentsExist(d, key, row))
      && (r.Ok? ==> Added(d.substitutions, r.value.substitutions, key, row)
                    && r.value.(substitutions := d.substitutions) == d)
  {
  }
  /** A successful insert keeps the integrity invariant. */
  lemma InsertSubstitutionKeepsValid(d: Db, key: SubKey, row: Substitution)
    requires Valid(d)
    ensures InsertSubstitution(d, key, row).Ok? ==> Valid(InsertSubstitution(d, key, row).value)
  {
    if InsertSubstitution(d, key, row).Ok? {
      var e := InsertSubstitution(d, key, row).value;
      assert d.substitutions.Keys <= e.substitutions.Keys;
      assert SubstitutionRefs(e.substitutions, e.matches.Keys, e.members.Keys, e.teams.Keys);
    }
  }


  // ----- many-to-many relations -----

  /** The join tables, each behind the `secondary=` relationships of its two sides. */
  datatype Relation =
    | CompetitionInCategory  // Competition.categories / CompetitionCategory.competitions
    | TeamInCompetition      // Competition.teams / Team.competitions
    | PlayerInTeam           // Team.members / TeamMember.team
    | TeamInMatch            // Team.matches / Match.match_teams
    | CoachInTeam            // Team.coaches / Coach.teams
    | AiStatementInMatch     // Match.ai_statements / MatchAIStatement.matches

  function Links(d: Db, rel: Relation): set<Link>
  {
    match rel
    case CompetitionInCategory => d.competitionInCategory
    case TeamInCompetition => d.teamInCompetition
    case PlayerInTeam => d.playerInTeam
    case TeamInMatch => d.teamInMatch
    case CoachInTeam => d.coachInTeam
    case AiStatementInMatch => d.aiStatementInMatch
  }

  /** The table the first key column of `rel` references. */
  function LeftKeys(d: Db, rel: Relation): set<Id>
  {
    match rel
    case CompetitionInCategory => d.competitions.Keys
    case TeamInCompetition => d.teams.Keys
    case PlayerInTeam => d.members.Keys
    case TeamInMatch => d.teams.Keys
    case CoachInTeam => d.coaches.Keys
    case AiStatementInMatch => d.statements.Keys
  }

  /** The table the second key column of `rel` references. */
  function RightKeys(d: Db, rel: Relation): set<Id>
  {
    match rel
    case CompetitionInCategory => d.categories.Keys
    case TeamInCompetition => d.competitions.Keys
    case PlayerInTeam => d.teams.Keys
    case TeamInMatch => d.matches.Keys
    case CoachInTeam => d.teams.Keys
    case AiStatementInMatch => d.matches.Keys
  }

  function WithLinks(d: Db, rel: Relation, links: set<Link>): (e: Db)
    ensures Links(e, rel) == links
    ensures forall other :: other != rel ==> Links(e, other) == Links(d, other)
    ensures SameRows(d, e)
  {
    match rel
    case CompetitionInCategory => d.(competitionInCategory := links)
    case TeamInCompetition => d.(teamInCompetition := links)
    case PlayerInTeam => d.(playerInTeam := links)
    case TeamInMatch => d.(teamInMatch := links)
    case CoachInTeam => d.(coachInTeam := links)
    case AiStatementInMatch => d.(aiStatementInMatch := links)
  }

  lemma LinksOkByRelation(d: Db)
    ensures LinksOk(d) <==> forall rel :: LinksBetween(Links(d, rel), LeftKeys(d, rel), RightKeys(d, rel))
  {
    if forall rel :: LinksBetween(Links(d, rel), LeftKeys(d, rel), RightKeys(d, rel)) {
      assert LinksBetween(Links(d, CompetitionInCategory), LeftKeys(d, CompetitionInCategory), RightKeys(d, CompetitionInCategory));
      assert LinksBetween(Links(d, TeamInCompetition), LeftKeys(d, TeamInCompetition), RightKeys(d, TeamInCompetition));
      assert LinksBetween(Links(d, PlayerInTeam), LeftKeys(d, PlayerInTeam), RightKeys(d, PlayerInTeam));
      assert LinksBetween(Links(d, TeamInMatch), LeftKeys(d, TeamInMatch), RightKeys(d, TeamInMatch));
      assert LinksBetween(Links(d, CoachInTeam), LeftKeys(d, CoachInTeam), RightKeys(d, CoachInTeam));
      assert LinksBetween(Links(d, AiStatementInMatch), LeftKeys(d, AiStatementInMatch), RightKeys(d, AiStatementInMatch));
    }
  }

  /** `side.append(other)` and flush: both rows must exist; a pair already
      present gives no second row. */
  function Attach(d: Db, rel: Relation, a: Id, b: Id): Result<Db>
  {
    if a !in LeftKeys(d, rel) || b !in RightKeys(d, rel) then Err(ForeignKeyViolation)
    else Ok(WithLinks(d, rel, Links(d, rel) + {(a, b)}))
  }

  /** `side.remove(other)` and flush: removes the one join row; removing a
      pair that is not linked raises (`list.remove`). */
  function Detach(d: Db, rel: Relation, a: Id, b: Id): Result<Db>
  {
    if (a, b) !in Links(d, rel) then Err(NotFound)
    else Ok(WithLinks(d, rel, Links(d, rel) - {(a, b)}))
  }

  lemma AttachSpec(d: Db, rel: Relation, a: Id, b: Id)
    ensures var r := Attach(d, rel, a, b);
      && (r.Ok? <==> a in LeftKeys(d, rel) && b in RightKeys(d, rel))
      && (r.Err? ==> r.error == ForeignKeyViolation)
      && (r.Ok? ==> && Links(r.value, rel) == Links(d, rel) + {(a, b)}
                    && (forall other :: other != rel ==> Links(r.value, other) == Links(d, other))
                    && SameRows(d, r.value))
  {
  }

  /** A successful attach keeps every join row naming existing rows. */
  lemma {:induction false} AttachKeepsLinks(d: Db, rel: Relation, a: Id, b: Id)
    requires LinksOk(d)
    ensures Attach(d, rel, a, b).Ok? ==> LinksOk(Attach(d, rel, a, b).value)
  {
    var r := Attach(d, rel, a, b);
    if r.Ok? {
      var e := r.value;
      LinksOkByRelation(d);
      forall other
        ensures LinksBetween(Links(e, other), LeftKeys(e, other), RightKeys(e, other))
      {
        assert LeftKeys(e, other) == LeftKeys(d, other) && RightKeys(e, other) == RightKeys(d, other);
      }
      LinksOkByRelation(e);
    }
  }

  /** A successful attach keeps the integrity invariant. */
  lemma {:induction false} AttachKeepsValid(d: Db, rel: Relation, a: Id, b: Id)
    requires Valid(d)
    ensures Attach(d, rel, a, b).Ok? ==> Valid(Attach(d, rel, a, b).value)
  {
    if Attach(d, rel, a, b).Ok? {
      AttachKeepsLinks(d, rel, a, b);
      SameRowsValid(d, Attach(d, rel, a, b).value);
    }
  }

  /** Attaching a pair that is already linked changes nothing. */
  lemma AttachPresentIsNoOp(d: Db, rel: Relation, a: Id, b: Id)
    requires Valid(d)
    requires (a, b) in Links(d, rel)
    ensures Attach(d, rel, a, b) == Ok(d)
  {
    LinksOkByRelation(d);
    assert Links(d, rel) + {(a, b)} == Links(d, rel);
    match rel
    case CompetitionInCategory =>
    case TeamInCompetition =>
    case PlayerInTeam =>
    case TeamInMatch =>
    case CoachInTeam =>
    case AiStatementInMatch =>
  }

  /** Attaching twice is attaching once. */
  lemma AttachIdempotent(d: Db, rel: Relation, a: Id, b: Id)
    requires Valid(d)
    requires Attach(d, rel, a, b).Ok?
    ensures Attach(Attach(d, rel, a, b).value, rel, a, b) == Attach(d, rel, a, b)
  {
    AttachSpec(d, rel, a, b);
    AttachKeepsValid(d, rel, a, b);
    AttachPresentIsNoOp(Attach(d, rel, a, b).value, rel, a, b);
  }

  lemma DetachSpec(d: Db, rel: Relation, a: Id, b: Id)
    ensures var r := Detach(d, rel, a, b);
      && (r.Ok? <==> (a, b) in Links(d, rel))
      && (r.Err? ==> r.error == NotFound)
      && (r.Ok? ==> && Links(r.value, rel) == Links(d, rel) - {(a, b)}
                    && (forall other :: other != rel ==> Links(r.value, other) == Links(d, other))
                    && SameRows(d, r.value))
  {
  }

  /** A successful detach keeps every join row naming existing rows, and
      both rows it untied are still there. */
  lemma {:induction false} DetachKeepsLinks(d: Db, rel: Relation, a: Id, b: Id)
    requires LinksOk(d)
    ensures Detach(d, rel, a, b).Ok? ==>
      && LinksOk(Detach(d, rel, a, b).value)
      && a in LeftKeys(Detach(d, rel, a, b).value, rel) && b in RightKeys(Detach(d, rel, a, b).value, rel)
  {
    var r := Detach(d, rel, a, b);
    LinksOkByRelation(d);
    if r.Ok? {
      var e := r.value;
      forall other
        ensures LinksBetween(Links(e, other), LeftKeys(e, other), RightKeys(e, other))
      {
        assert LeftKeys(e, other) == LeftKeys(d, other) && RightKeys(e, other) == RightKeys(d, other);
      }
      LinksOkByRelation(e);
      assert LeftKeys(e, rel) == LeftKeys(d, rel) && RightKeys(e, rel) == RightKeys(d, rel);
    }
  }

  /** A successful detach keeps the integrity invariant, and both rows it
      untied are still there. */
  lemma {:induction false} DetachKeepsValid(d: Db, rel: Relation, a: Id, b: Id)
    requires Valid(d)
    ensures Detach(d, rel, a, b).Ok? ==>
      && Valid(Detach(d, rel, a, b).value)
      && a in LeftKeys(Detach(d, rel, a, b).value, rel) && b in RightKeys(Detach(d, rel, a, b).value, rel)
  {
    if Detach(d, rel, a, b).Ok? {
      DetachKeepsLinks(d, rel, a, b);
      SameRowsValid(d, Detach(d, rel, a, b).value);
    }
  }

  /** Detaching a pair that attaching just added restores the store. */
  lemma DetachUndoesAttach(d: Db, rel: Relation, a: Id, b: Id)
    requires (a, b) !in Links(d, rel)
    requires Attach(d, rel, a, b).Ok?
    ensures Detach(Attach(d, rel, a, b).value, rel, a, b) == Ok(d)
  {
    var e := Attach(d, rel, a, b).value;
    assert Links(e, rel) - {(a, b)} == Links(d, rel);
    match rel
    case CompetitionInCategory =>
    case TeamInCompetition =>
    case PlayerInTeam =>
    case TeamInMatch =>
    case CoachInTeam =>
    case AiStatementInMatch =>
  }
}
