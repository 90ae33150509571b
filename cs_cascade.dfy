/** Deleting rows of the variant schema, flux_orm/cs/models.py, in the same
    three steps as the package schema: collect what the `delete` cascades
    reach, refuse the delete when the ORM would null a non-optional foreign
    key or the database would be left with a dangling one, and otherwise
    remove the rows and every join row naming them. Two cascades differ from
    the package schema: deleting an AI statement deletes the matches it is
    linked to (`MatchAIStatement.matches` cascades `delete`), and deleting a
    status that a match holds fails, because `Match.status_id` cannot be null. */
module CsCascade {
  import opened Common
  import opened CsSchema

  /** The rows one delete removes, table by table. */
  datatype Plan = Plan(
    sports: set<Id>,
    competitions: set<Id>,
    categories: set<Id>,
    teams: set<Id>,
    members: set<Id>,
    coaches: set<Id>,
    statuses: set<Id>,
    matches: set<Id>,
    statements: set<Id>,
    substitutions: set<SubKey>)

  const Nothing: Plan := Plan({}, {}, {}, {}, {}, {}, {}, {}, {}, {})

  // ----- step 1: the `delete` cascades -----

  /** `Sport.competitions`, cascade includes `delete`. */
  function CompetitionsOf(d: Db, sports: set<Id>): set<Id>
  {
    set c | c in d.competitions && d.competitions[c].sportId in sports
  }

  /** `Competition.categories` through `competition_in_category`, cascade includes `delete`. */
  function CategoriesOf(d: Db, competitions: set<Id>): set<Id>
  {
    set l | l in d.competitionInCategory && l.0 in competitions :: l.1
  }

  /** `Competition.matches`, cascade includes `delete`. */
  function MatchesOf(d: Db, competitions: set<Id>): set<Id>
  {
    set m | m in d.matches && d.matches[m].competitionId in competitions
  }

  /** `MatchAIStatement.matches` through `ai_statement_in_match`, cascade includes `delete`. */
  function StatementMatchesOf(d: Db, statements: set<Id>): set<Id>
  {
    set l | l in d.aiStatementInMatch && l.0 in statements :: l.1
  }

  /** `Team.members` through `player_in_team`, cascade includes `delete`. */
  function MembersOf(d: Db, teams: set<Id>): set<Id>
  {
    set l | l in d.playerInTeam && l.1 in teams :: l.0
  }

  /** `Match.substitutions` and `Team.substitutions`, both cascading `delete`. */
  function SubstitutionsOf(d: Db, matches: set<Id>, teams: set<Id>): set<SubKey>
  {
    set k | k in d.substitutions && (k.matchId in matches || d.substitutions[k].teamId in teams)
  }

  /** The rows the cascades reach from `seed`. The cascade graph is acyclic
      (sport, competition, {category, match}; statement, match; match,
      substitution; team, {member, substitution}), so one pass in that order
      reaches all of them. */
  function Closure(d: Db, seed: Plan): Plan
  {
    var competitions := seed.competitions + CompetitionsOf(d, seed.sports);
    var matches := seed.matches + MatchesOf(d, competitions) + StatementMatchesOf(d, seed.statements);
    seed.(competitions := competitions,
          categories := seed.categories + CategoriesOf(d, competitions),
          matches := matches,
          members := seed.members + MembersOf(d, seed.teams),
          substitutions := seed.substitutions + SubstitutionsOf(d, matches, seed.teams))
  }

  /** No `delete` cascade leads out of `p`. */
  predicate CascadeClosed(d: Db, p: Plan)
  {
    && CompetitionsOf(d, p.sports) <= p.competitions
    && CategoriesOf(d, p.competitions) <= p.categories
    && MatchesOf(d, p.competitions) <= p.matches
    && StatementMatchesOf(d, p.statements) <= p.matches
    && MembersOf(d, p.teams) <= p.members
    && SubstitutionsOf(d, p.matches, p.teams) <= p.substitutions
  }

  /** `p` deletes at least what `q` deletes. */
  predicate Covers(p: Plan, q: Plan)
  {
    && q.sports <= p.sports && q.competitions <= p.competitions && q.categories <= p.categories
    && q.teams <= p.teams && q.members <= p.members && q.coaches <= p.coaches
    && q.statuses <= p.statuses && q.matches <= p.matches && q.statements <= p.statements
    && q.substitutions <= p.substitutions
  }

  /** The closure contains the seed and no cascade leads out of it. */
  lemma ClosureIsClosed(d: Db, seed: Plan)
    ensures Covers(Closure(d, seed), seed)
    ensures CascadeClosed(d, Closure(d, seed))
  {
  }

  /** Every cascade-closed plan containing the seed contains the closure:
      the closure deletes nothing a cascade does not demand. */
  lemma ClosureIsLeast(d: Db, seed: Plan, p: Plan)
    requires Covers(p, seed)
    requires CascadeClosed(d, p)
    ensures Covers(p, Closure(d, seed))
  {
    var q := Closure(d, seed);
    assert CompetitionsOf(d, seed.sports) <= CompetitionsOf(d, p.sports);
    assert q.competitions <= p.competitions;
    assert MatchesOf(d, q.competitions) <= MatchesOf(d, p.competitions);
    assert StatementMatchesOf(d, seed.statements) <= StatementMatchesOf(d, p.statements);
    assert CategoriesOf(d, q.competitions) <= CategoriesOf(d, p.competitions);
    assert MembersOf(d, seed.teams) <= MembersOf(d, p.teams);
    assert SubstitutionsOf(d, q.matches, seed.teams) <= SubstitutionsOf(d, p.matches, p.teams);
  }

  // ----- step 2: what refuses a delete -----

  /** `MatchStatus.match` has no `delete` cascade: the ORM nulls
      `Match.status_id` of a surviving match of a deleted status, and that
      column cannot be null. */
  predicate NullsMatchStatus(d: Db, p: Plan)
  {
    exists m :: m in d.matches && m !in p.matches && d.matches[m].statusId in p.statuses
  }

  /** A surviving row whose foreign key names a deleted row. */
  predicate Dangling(d: Db, p: Plan)
  {
    || (exists c :: c in d.competitions && c !in p.competitions && d.competitions[c].sportId in p.sports)
    || (exists m :: m in d.matches && m !in p.matches && d.matches[m].competitionId in p.competitions)
    || (exists k :: k in d.substitutions && k !in p.substitutions && SubstitutionNames(k, d.substitutions[k], p))
  }

  /** A substitution names a deleted match, team or player. */
  predicate SubstitutionNames(k: SubKey, s: Substitution, p: Plan)
  {
    k.matchId in p.matches || k.prevPlayerId in p.members || k.newPlayerId in p.members || s.teamId in p.teams
  }

  // ----- step 3: the new tables -----

  function Apply(d: Db, p: Plan): Db
  {
    Db(d.sports - p.sports,
       d.competitions - p.competitions,
       d.categories - p.categories,
       d.teams - p.teams,
       d.members - p.members,
       d.coaches - p.coaches,
       d.statuses - p.statuses,
       d.matches - p.matches,
       d.statements - p.statements,
       d.substitutions - p.substitutions,
       Unlinked(d.competitionInCategory, p.competitions, p.categories),
       Unlinked(d.teamInCompetition, p.teams, p.competitions),
       Unlinked(d.playerInTeam, p.members, p.teams),
       Unlinked(d.teamInMatch, p.teams, p.matches),
       Unlinked(d.coachInTeam, p.coaches, p.teams),
       Unlinked(d.aiStatementInMatch, p.statements, p.matches))
  }

  /** Deleting the rows of `p` in one flush. */
  function Delete(d: Db, p: Plan): Result<Db>
  {
    if NullsMatchStatus(d, p) then Err(NotNullViolation)
    else if Dangling(d, p) then Err(ForeignKeyViolation)
    else Ok(Apply(d, p))
  }

  // ----- every successful delete keeps the invariant -----

  lemma DeleteKeepsRefs(d: Db, p: Plan)
    requires Valid(d)
    requires !NullsMatchStatus(d, p) && !Dangling(d, p)
    ensures RefsOk(Apply(d, p))
  {
    var e := Apply(d, p);
    assert SubstitutionRefs(e.substitutions, e.matches.Keys, e.members.Keys, e.teams.Keys) by {
      forall k | k in e.substitutions
        ensures k.matchId in e.matches.Keys
      {
        assert k.matchId in d.matches && k.matchId !in p.matches;
      }
    }
  }

  lemma DeleteKeepsLinks(d: Db, p: Plan)
    requires Valid(d)
    ensures LinksOk(Apply(d, p))
  {
  }

  /** A delete that is not refused leaves a valid store, whatever it removes. */
  lemma DeletePreservesValid(d: Db, p: Plan)
    requires Valid(d)
    ensures Delete(d, p).Ok? ==> Valid(Delete(d, p).value)
  {
    if Delete(d, p).Ok? {
      DeleteKeepsRefs(d, p);
      DeleteKeepsLinks(d, p);
    }
  }

  // ----- one delete per mapped class -----

  function DeleteSport(d: Db, s: Id): Result<Db>
  {
    if s !in d.sports then Err(NotFound) else Delete(d, Closure(d, Nothing.(sports := {s})))
  }

  function DeleteCompetition(d: Db, c: Id): Result<Db>
  {
    if c !in d.competitions then Err(NotFound) else Delete(d, Closure(d, Nothing.(competitions := {c})))
  }

  function DeleteCategory(d: Db, k: Id): Result<Db>
  {
    if k !in d.categories then Err(NotFound) else Delete(d, Closure(d, Nothing.(categories := {k})))
  }

  function DeleteTeam(d: Db, t: Id): Result<Db>
  {
    if t !in d.teams then Err(NotFound) else Delete(d, Closure(d, Nothing.(teams := {t})))
  }

  function DeleteMember(d: Db, p: Id): Result<Db>
  {
    if p !in d.members then Err(NotFound) else Delete(d, Closure(d, Nothing.(members := {p})))
  }

  function DeleteCoach(d: Db, c: Id): Result<Db>
  {
    if c !in d.coaches then Err(NotFound) else Delete(d, Closure(d, Nothing.(coaches := {c})))
  }

  function DeleteStatus(d: Db, s: Id): Result<Db>
  {
    if s !in d.statuses then Err(NotFound) else Delete(d, Closure(d, Nothing.(statuses := {s})))
  }

  function DeleteMatch(d: Db, m: Id): Result<Db>
  {
    if m !in d.matches then Err(NotFound) else Delete(d, Closure(d, Nothing.(matches := {m})))
  }

  function DeleteStatement(d: Db, s: Id): Result<Db>
  {
    if s !in d.statements then Err(NotFound) else Delete(d, Closure(d, Nothing.(statements := {s})))
  }

  function DeleteSubstitution(d: Db, k: SubKey): Result<Db>
  {
    if k !in d.substitutions then Err(NotFound) else Delete(d, Closure(d, Nothing.(substitutions := {k})))
  }

  // ----- what each delete does -----

  /** With nothing to start from, no cascade reaches anything. */
  lemma ReachesNothing(d: Db)
    ensures CompetitionsOf(d, {}) == {} && CategoriesOf(d, {}) == {} && MatchesOf(d, {}) == {}
    ensures StatementMatchesOf(d, {}) == {} && MembersOf(d, {}) == {} && SubstitutionsOf(d, {}, {}) == {}
  {
  }

  /** Removing nothing leaves every table as it is. */
  lemma RemovesNothing(d: Db)
    ensures d.sports - {} == d.sports && d.competitions - {} == d.competitions
    ensures d.categories - {} == d.categories && d.teams - {} == d.teams
    ensures d.members - {} == d.members && d.coaches - {} == d.coaches
    ensures d.statuses - {} == d.statuses && d.matches - {} == d.matches
    ensures d.statements - {} == d.statements && d.substitutions - {} == d.substitutions
    ensures Unlinked(d.competitionInCategory, {}, {}) == d.competitionInCategory
    ensures Unlinked(d.teamInCompetition, {}, {}) == d.teamInCompetition
    ensures Unlinked(d.playerInTeam, {}, {}) == d.playerInTeam
    ensures Unlinked(d.teamInMatch, {}, {}) == d.teamInMatch
    ensures Unlinked(d.coachInTeam, {}, {}) == d.coachInTeam
    ensures Unlinked(d.aiStatementInMatch, {}, {}) == d.aiStatementInMatch
  {
  }

  /** A plan that deletes no row that a foreign key or a cascade starts from. */
  predicate Leaf(p: Plan)
  {
    && p.sports == {} && p.competitions == {} && p.teams == {} && p.members == {}
    && p.statuses == {} && p.matches == {} && p.statements == {}
  }

  /** No cascade leaves a leaf plan, and nothing refuses it. */
  lemma LeafPlanIsClosed(d: Db, p: Plan)
    requires Leaf(p)
    ensures Closure(d, p) == p
    ensures Delete(d, p) == Ok(Apply(d, p))
  {
    ReachesNothing(d);
    LeafRefusesNothing(d, p);
  }

  /** A leaf plan nulls no match and leaves no foreign key dangling. */
  lemma LeafRefusesNothing(d: Db, p: Plan)
    requires Leaf(p)
    ensures !NullsMatchStatus(d, p) && !Dangling(d, p)
  {
  }

  /** What a plan does that deletes no sport, competition, team or match. */
  lemma ApplyBelowTeams(d: Db, p: Plan)
    requires p.sports == {} && p.competitions == {} && p.teams == {} && p.matches == {}
    ensures Apply(d, p) == d.(categories := d.categories - p.categories,
                              members := d.members - p.members,
                              coaches := d.coaches - p.coaches,
                              statuses := d.statuses - p.statuses,
                              statements := d.statements - p.statements,
                              substitutions := d.substitutions - p.substitutions,
                              competitionInCategory := Unlinked(d.competitionInCategory, {}, p.categories),
                              playerInTeam := Unlinked(d.playerInTeam, p.members, {}),
                              coachInTeam := Unlinked(d.coachInTeam, p.coaches, {}),
                              aiStatementInMatch := Unlinked(d.aiStatementInMatch, p.statements, {}))
  {
    RemovesNothing(d);
  }

  /** The rows deleting sport `s` reaches. */
  function SportPlan(d: Db, s: Id): Plan
  {
    var comps := CompetitionsOf(d, {s});
    var ms := MatchesOf(d, comps);
    Nothing.(sports := {s}, competitions := comps, categories := CategoriesOf(d, comps),
             matches := ms, substitutions := SubstitutionsOf(d, ms, {}))
  }

  lemma SportClosure(d: Db, s: Id)
    ensures Closure(d, Nothing.(sports := {s})) == SportPlan(d, s)
  {
    ReachesNothing(d);
  }

  lemma SportVerdict(d: Db, s: Id)
    ensures Delete(d, SportPlan(d, s)) == Ok(Apply(d, SportPlan(d, s)))
  {
    var p := SportPlan(d, s);
    assert !NullsMatchStatus(d, p);
    assert forall c :: c in d.competitions && c !in p.competitions ==> d.competitions[c].sportId !in p.sports;
    assert forall m :: m in d.matches && m !in p.matches ==> d.matches[m].competitionId !in p.competitions;
    assert forall k :: k in d.substitutions && k !in p.substitutions ==> !SubstitutionNames(k, d.substitutions[k], p);
  }

  /** Deleting a sport always succeeds (every match of this schema belongs to
      a competition): it deletes the sport's competitions, their categories,
      their matches and the substitutions of those matches. */
  lemma DeleteSportSpec(d: Db, s: Id)
    requires s in d.sports
    ensures DeleteSport(d, s).Ok?
    ensures
      var e := DeleteSport(d, s).value;
      var comps := CompetitionsOf(d, {s});
      var cats := CategoriesOf(d, comps);
      var ms := MatchesOf(d, comps);
      && (forall c :: c in e.competitions ==> e.competitions[c].sportId != s)
      && e == d.(sports := d.sports - {s},
                 competitions := d.competitions - comps,
                 categories := d.categories - cats,
                 matches := d.matches - ms,
                 substitutions := d.substitutions - SubstitutionsOf(d, ms, {}),
                 competitionInCategory := Unlinked(d.competitionInCategory, comps, cats),
                 teamInCompetition := Unlinked(d.teamInCompetition, {}, comps),
                 teamInMatch := Unlinked(d.teamInMatch, {}, ms),
                 aiStatementInMatch := Unlinked(d.aiStatementInMatch, {}, ms))
  {
    SportClosure(d, s);
    SportVerdict(d, s);
    RemovesNothing(d);
  }

  /** The rows deleting competition `c` reaches. */
  function CompetitionPlan(d: Db, c: Id): Plan
  {
    var ms := MatchesOf(d, {c});
    Nothing.(competitions := {c}, categories := CategoriesOf(d, {c}), matches := ms,
             substitutions := SubstitutionsOf(d, ms, {}))
  }

  lemma CompetitionClosure(d: Db, c: Id)
    ensures Closure(d, Nothing.(competitions := {c})) == CompetitionPlan(d, c)
  {
    ReachesNothing(d);
  }

  lemma CompetitionVerdict(d: Db, c: Id)
    ensures Delete(d, CompetitionPlan(d, c)) == Ok(Apply(d, CompetitionPlan(d, c)))
  {
    var p := CompetitionPlan(d, c);
    assert !NullsMatchStatus(d, p);
    assert forall m :: m in d.matches && m !in p.matches ==> d.matches[m].competitionId !in p.competitions;
    assert forall k :: k in d.substitutions && k !in p.substitutions ==> !SubstitutionNames(k, d.substitutions[k], p);
  }

  /** Deleting a competition always succeeds: it deletes the competition's
      matches (with their substitutions) and every category it is in, even
      one other competitions share; its teams and its sport stay. */
  lemma DeleteCompetitionSpec(d: Db, c: Id)
    requires c in d.competitions
    ensures DeleteCompetition(d, c).Ok?
    ensures
      var e := DeleteCompetition(d, c).value;
      var cats := CategoriesOf(d, {c});
      var ms := MatchesOf(d, {c});
      && (forall m :: m in e.matches ==> e.matches[m].competitionId != c)
      && e == d.(competitions := d.competitions - {c},
                 categories := d.categories - cats,
                 matches := d.matches - ms,
                 substitutions := d.substitutions - SubstitutionsOf(d, ms, {}),
                 competitionInCategory := Unlinked(d.competitionInCategory, {c}, cats),
                 teamInCompetition := Unlinked(d.teamInCompetition, {}, {c}),
                 teamInMatch := Unlinked(d.teamInMatch, {}, ms),
                 aiStatementInMatch := Unlinked(d.aiStatementInMatch, {}, ms))
  {
    CompetitionClosure(d, c);
    CompetitionVerdict(d, c);
    RemovesNothing(d);
  }

  /** Deleting a category always succeeds and removes exactly one
      `competition_in_category` row per competition in it; the competitions stay. */
  lemma DeleteCategorySpec(d: Db, k: Id)
    requires k in d.categories
    ensures DeleteCategory(d, k).Ok?
    ensures
      var e := DeleteCategory(d, k).value;
      && e == d.(categories := d.categories - {k},
                 competitionInCategory := d.competitionInCategory - Fiber(d.competitionInCategory, k))
      && |e.competitionInCategory| == |d.competitionInCategory| - |Partners(d.competitionInCategory, k)|
  {
    var p := Nothing.(categories := {k});
    LeafPlanIsClosed(d, p);
    ApplyBelowTeams(d, p);
    RemovesNothing(d);
    UnlinkRightCount(d.competitionInCategory, k);
  }

  /** A team can go only when no substitution that stays (one of another
      team) names one of its members. */
  predicate TeamReleased(d: Db, t: Id)
  {
    forall k :: k in d.substitutions && d.substitutions[k].teamId != t ==>
      k.prevPlayerId !in MembersOf(d, {t}) && k.newPlayerId !in MembersOf(d, {t})
  }

  /** The rows deleting team `t` reaches. */
  function TeamPlan(d: Db, t: Id): Plan
  {
    Nothing.(teams := {t}, members := MembersOf(d, {t}), substitutions := SubstitutionsOf(d, {}, {t}))
  }

  lemma TeamClosure(d: Db, t: Id)
    ensures Closure(d, Nothing.(teams := {t})) == TeamPlan(d, t)
    ensures !NullsMatchStatus(d, TeamPlan(d, t))
    ensures Dangling(d, TeamPlan(d, t)) <==> !TeamReleased(d, t)
  {
    ReachesNothing(d);
  }

  lemma ApplyTeam(d: Db, t: Id)
    ensures
      var mem := MembersOf(d, {t});
      Apply(d, TeamPlan(d, t)) ==
        d.(teams := d.teams - {t},
           members := d.members - mem,
           substitutions := d.substitutions - SubstitutionsOf(d, {}, {t}),
           teamInCompetition := Unlinked(d.teamInCompetition, {t}, {}),
           playerInTeam := Unlinked(d.playerInTeam, mem, {t}),
           teamInMatch := Unlinked(d.teamInMatch, {t}, {}),
           coachInTeam := Unlinked(d.coachInTeam, {}, {t}))
  {
    RemovesNothing(d);
  }

  /** Deleting a team deletes every member of it, even one who plays in other
      teams too, and its substitutions; its matches, competitions and coaches
      stay. A substitution of another team that names one of those members
      makes the database refuse the delete. */
  lemma DeleteTeamSpec(d: Db, t: Id)
    requires t in d.teams
    ensures DeleteTeam(d, t).Ok? <==> TeamReleased(d, t)
    ensures DeleteTeam(d, t).Err? ==> DeleteTeam(d, t).error == ForeignKeyViolation
    ensures DeleteTeam(d, t).Ok? ==>
      var mem := MembersOf(d, {t});
      DeleteTeam(d, t).value ==
        d.(teams := d.teams - {t},
           members := d.members - mem,
           substitutions := d.substitutions - SubstitutionsOf(d, {}, {t}),
           teamInCompetition := Unlinked(d.teamInCompetition, {t}, {}),
           playerInTeam := Unlinked(d.playerInTeam, mem, {t}),
           teamInMatch := Unlinked(d.teamInMatch, {t}, {}),
           coachInTeam := Unlinked(d.coachInTeam, {}, {t}))
  {
    TeamClosure(d, t);
    ApplyTeam(d, t);
  }

  /** A member can go only when no substitution names them as the player
      coming off or going on; their teams stay. */
  lemma DeleteMemberSpec(d: Db, p: Id)
    requires p in d.members
    ensures DeleteMember(d, p).Ok? <==>
      forall k :: k in d.substitutions ==> k.prevPlayerId != p && k.newPlayerId != p
    ensures DeleteMember(d, p).Err? ==> DeleteMember(d, p).error == ForeignKeyViolation
    ensures DeleteMember(d, p).Ok? ==>
      DeleteMember(d, p).value == d.(members := d.members - {p}, playerInTeam := Unlinked(d.playerInTeam, {p}, {}))
  {
    var q := Nothing.(members := {p});
    ReachesNothing(d);
    assert Closure(d, q) == q;
    MemberVerdict(d, p);
    ApplyBelowTeams(d, q);
    RemovesNothing(d);
  }

  /** Deleting member `p` alone is refused exactly when a substitution names them. */
  lemma MemberVerdict(d: Db, p: Id)
    ensures !NullsMatchStatus(d, Nothing.(members := {p}))
    ensures Dangling(d, Nothing.(members := {p})) <==>
      exists k :: k in d.substitutions && (k.prevPlayerId == p || k.newPlayerId == p)
  {
  }

  /** Deleting a coach always succeeds and only unties them from their teams. */
  lemma DeleteCoachSpec(d: Db, c: Id)
    requires c in d.coaches
    ensures DeleteCoach(d, c).Ok?
    ensures DeleteCoach(d, c).value == d.(coaches := d.coaches - {c}, coachInTeam := Unlinked(d.coachInTeam, {c}, {}))
  {
    var p := Nothing.(coaches := {c});
    LeafPlanIsClosed(d, p);
    ApplyBelowTeams(d, p);
    RemovesNothing(d);
  }

  /** A status can go only when no match holds it; otherwise the ORM would
      null that match's non-optional `status_id`. */
  lemma DeleteStatusSpec(d: Db, st: Id)
    requires st in d.statuses
    ensures DeleteStatus(d, st).Ok? <==> MatchesInStatus(d, st) == {}
    ensures DeleteStatus(d, st).Err? ==> DeleteStatus(d, st).error == NotNullViolation
    ensures DeleteStatus(d, st).Ok? ==> DeleteStatus(d, st).value == d.(statuses := d.statuses - {st})
  {
    var p := Nothing.(statuses := {st});
    ReachesNothing(d);
    assert Closure(d, p) == p;
    StatusHeld(d, st);
    ApplyBelowTeams(d, p);
    RemovesNothing(d);
  }

  /** Deleting status `st` alone would null a match exactly when some match holds `st`. */
  lemma StatusHeld(d: Db, st: Id)
    ensures NullsMatchStatus(d, Nothing.(statuses := {st})) <==> MatchesInStatus(d, st) != {}
  {
    var p := Nothing.(statuses := {st});
    if NullsMatchStatus(d, p) {
      var m :| m in d.matches && m !in p.matches && d.matches[m].statusId in p.statuses;
      assert m in MatchesInStatus(d, st);
    } else {
      assert forall m :: m in d.matches ==> d.matches[m].statusId != st;
      assert MatchesInStatus(d, st) == {};
    }
  }

  /** The rows deleting match `m` reaches. */
  function MatchPlan(d: Db, m: Id): Plan
  {
    Nothing.(matches := {m}, substitutions := SubstitutionsOf(d, {m}, {}))
  }

  lemma MatchClosure(d: Db, m: Id)
    ensures Closure(d, Nothing.(matches := {m})) == MatchPlan(d, m)
    ensures Delete(d, MatchPlan(d, m)) == Ok(Apply(d, MatchPlan(d, m)))
  {
    ReachesNothing(d);
  }

  /** Deleting a match always succeeds: its substitutions go with it, it is
      untied from its teams and statements, and its competition and status stay. */
  lemma DeleteMatchSpec(d: Db, m: Id)
    requires m in d.matches
    ensures DeleteMatch(d, m).Ok?
    ensures
      var e := DeleteMatch(d, m).value;
      && (forall k :: k in e.substitutions ==> k.matchId != m)
      && e == d.(matches := d.matches - {m},
                 substitutions := d.substitutions - SubstitutionsOf(d, {m}, {}),
                 teamInMatch := Unlinked(d.teamInMatch, {}, {m}),
                 aiStatementInMatch := Unlinked(d.aiStatementInMatch, {}, {m}))
  {
    MatchClosure(d, m);
    RemovesNothing(d);
  }

  /** The rows deleting statement `s` reaches. */
  function StatementPlan(d: Db, s: Id): Plan
  {
    var ms := StatementMatchesOf(d, {s});
    Nothing.(statements := {s}, matches := ms, substitutions := SubstitutionsOf(d, ms, {}))
  }

  lemma StatementClosure(d: Db, s: Id)
    ensures Closure(d, Nothing.(statements := {s})) == StatementPlan(d, s)
    ensures Delete(d, StatementPlan(d, s)) == Ok(Apply(d, StatementPlan(d, s)))
  {
    ReachesNothing(d);
  }

  /** Deleting an AI statement always succeeds and deletes every match it is
      linked to, with their substitutions; the matches' other statements stay
      but lose their links to those matches. */
  lemma DeleteStatementSpec(d: Db, s: Id)
    requires s in d.statements
    ensures DeleteStatement(d, s).Ok?
    ensures
      var e := DeleteStatement(d, s).value;
      var ms := StatementMatchesOf(d, {s});
      && (forall l :: l in d.aiStatementInMatch && l.0 == s ==> l.1 !in e.matches)
      && e == d.(statements := d.statements - {s},
                 matches := d.matches - ms,
                 substitutions := d.substitutions - SubstitutionsOf(d, ms, {}),
                 teamInMatch := Unlinked(d.teamInMatch, {}, ms),
                 aiStatementInMatch := Unlinked(d.aiStatementInMatch, {s}, ms))
  {
    StatementClosure(d, s);
    RemovesNothing(d);
  }

  /** Deleting a substitution always succeeds and removes that row alone. */
  lemma DeleteSubstitutionSpec(d: Db, k: SubKey)
    requires k in d.substitutions
    ensures DeleteSubstitution(d, k).Ok?
    ensures DeleteSubstitution(d, k).value == d.(substitutions := d.substitutions - {k})
  {
    var p := Nothing.(substitutions := {k});
    LeafPlanIsClosed(d, p);
    ApplyBelowTeams(d, p);
    RemovesNothing(d);
  }

  /** Every delete of a missing row fails with `NotFound`. */
  lemma DeleteMissingSpec(d: Db, x: Id, k: SubKey)
    ensures x !in d.sports ==> DeleteSport(d, x) == Err(NotFound)
    ensures x !in d.competitions ==> DeleteCompetition(d, x) == Err(NotFound)
    ensures x !in d.categories ==> DeleteCategory(d, x) == Err(NotFound)
    ensures x !in d.teams ==> DeleteTeam(d, x) == Err(NotFound)
    ensures x !in d.members ==> DeleteMember(d, x) == Err(NotFound)
    ensures x !in d.coaches ==> DeleteCoach(d, x) == Err(NotFound)
    ensures x !in d.statuses ==> DeleteStatus(d, x) == Err(NotFound)
    ensures x !in d.matches ==> DeleteMatch(d, x) == Err(NotFound)
    ensures x !in d.statements ==> DeleteStatement(d, x) == Err(NotFound)
    ensures k !in d.substitutions ==> DeleteSubstitution(d, k) == Err(NotFound)
  {
  }

  // ----- every delete keeps the invariant -----

  lemma DeleteSportKeepsValid(d: Db, x: Id)
    requires Valid(d)
    ensures DeleteSport(d, x).Ok? ==> Valid(DeleteSport(d, x).value)
  {
    if x in d.sports {
      DeletePreservesValid(d, Closure(d, Nothing.(sports := {x})));
    }
  }

  lemma DeleteCompetitionKeepsValid(d: Db, x: Id)
    requires Valid(d)
    ensures DeleteCompetition(d, x).Ok? ==> Valid(DeleteCompetition(d, x).value)
  {
    if x in d.competitions {
      DeletePreservesValid(d, Closure(d, Nothing.(competitions := {x})));
    }
  }

  lemma DeleteCategoryKeepsValid(d: Db, x: Id)
    requires Valid(d)
    ensures DeleteCategory(d, x).Ok? ==> Valid(DeleteCategory(d, x).value)
  {
    if x in d.categories {
      DeletePreservesValid(d, Closure(d, Nothing.(categories := {x})));
    }
  }

  lemma DeleteTeamKeepsValid(d: Db, x: Id)
    requires Valid(d)
    ensures DeleteTeam(d, x).Ok? ==> Valid(DeleteTeam(d, x).value)
  {
    if x in d.teams {
      DeletePreservesValid(d, Closure(d, Nothing.(teams := {x})));
    }
  }

  lemma DeleteMemberKeepsValid(d: Db, x: Id)
    requires Valid(d)
    ensures DeleteMember(d, x).Ok? ==> Valid(DeleteMember(d, x).value)
  {
    if x in d.members {
      DeletePreservesValid(d, Closure(d, Nothing.(members := {x})));
    }
  }

  lemma DeleteCoachKeepsValid(d: Db, x: Id)
    requires Valid(d)
    ensures DeleteCoach(d, x).Ok? ==> Valid(DeleteCoach(d, x).value)
  {
    if x in d.coaches {
      DeletePreservesValid(d, Closure(d, Nothing.(coaches := {x})));
    }
  }

  lemma DeleteStatusKeepsValid(d: Db, x: Id)
    requires Valid(d)
    ensures DeleteStatus(d, x).Ok? ==> Valid(DeleteStatus(d, x).value)
  {
    if x in d.statuses {
      DeletePreservesValid(d, Closure(d, Nothing.(statuses := {x})));
    }
  }

  lemma DeleteMatchKeepsValid(d: Db, x: Id)
    requires Valid(d)
    ensures DeleteMatch(d, x).Ok? ==> Valid(DeleteMatch(d, x).value)
  {
    if x in d.matches {
      DeletePreservesValid(d, Closure(d, Nothing.(matches := {x})));
    }
  }

  lemma DeleteStatementKeepsValid(d: Db, x: Id)
    requires Valid(d)
    ensures DeleteStatement(d, x).Ok? ==> Valid(DeleteStatement(d, x).value)
  {
    if x in d.statements {
      DeletePreservesValid(d, Closure(d, Nothing.(statements := {x})));
    }
  }

  lemma DeleteSubstitutionKeepsValid(d: Db, k: SubKey)
    requires Valid(d)
    ensures DeleteSubstitution(d, k).Ok? ==> Valid(DeleteSubstitution(d, k).value)
  {
    if k in d.substitutions {
      DeletePreservesValid(d, Closure(d, Nothing.(substitutions := {k})));
    }
  }
}
