/** Deleting rows of the package schema, flux_orm/models/models.py.

    A delete runs in three steps, as a flush of `session.delete(row)` does:
    1. the ORM collects the rows its `delete` cascades reach (`Closure`);
    2. for a one-to-many relationship without `delete` the ORM sets the
       child's foreign key to null, which fails on a non-optional column
       (`NullsMatchSport`); any other surviving row that still names a
       deleted row makes the database refuse the delete (`Dangling`); this
       includes a second match of a deleted status, since `MatchStatus.match`
       is scalar and the ORM nulls the status of one match only;
    3. otherwise the rows are removed, every join row that names a removed
       row goes with them (through the `secondary` relationships and the
       `ondelete="CASCADE"` key), and the foreign key the ORM may null,
       `Match.status_id`, is nulled (`Apply`). */
module ModelsCascade {
  import opened Common
  import opened ModelsSchema

  /** The rows one delete removes, table by table. */
  datatype Plan = Plan(
    sports: set<Id>,
    competitions: set<Id>,
    categories: set<Id>,
    teams: set<Id>,
    members: set<Id>,
    coaches: set<Id>,
    statuses: set<Id>,
    matches: set<Id>,
    statements: set<Id>,
    substitutions: set<SubKey>,
    rawNews: set<Id>,
    formattedNews: set<Id>)

  const Nothing: Plan := Plan({}, {}, {}, {}, {}, {}, {}, {}, {}, {}, {}, {})

  predicate Names(x: Option<Id>, ids: set<Id>)
  {
    x.Some? && x.value in ids
  }

  // ----- step 1: the `delete` cascades -----

  /** `Sport.competitions`, cascade includes `delete`. */
  function CompetitionsOf(d: Db, sports: set<Id>): set<Id>
  {
    set c | c in d.competitions && d.competitions[c].sportId in sports
  }

  /** `Competition.categories` through `competition_in_category`, cascade includes `delete`. */
  function CategoriesOf(d: Db, competitions: set<Id>): set<Id>
  {
    set l | l in d.competitionInCategory && l.0 in competitions :: l.1
  }

  /** `Competition.matches`, cascade includes `delete`. */
  function MatchesOf(d: Db, competitions: set<Id>): set<Id>
  {
    set m | m in d.matches && Names(d.matches[m].competitionId, competitions)
  }

  /** `Team.members` through `player_in_team`, cascade includes `delete`. */
  function MembersOf(d: Db, teams: set<Id>): set<Id>
  {
    set l | l in d.playerInTeam && l.1 in teams :: l.0
  }

  /** `Match.substitutions` and `Team.substitutions`, both cascading `delete`. */
  function SubstitutionsOf(d: Db, matches: set<Id>, teams: set<Id>): set<SubKey>
  {
    set k | k in d.substitutions && (k.matchId in matches || d.substitutions[k].teamId in teams)
  }

  /** The rows the cascades reach from `seed`. The cascade graph is acyclic
      (sport, competition, {category, match}, substitution; team, {member,
      substitution}), so one pass in that order reaches all of them. */
  function Closure(d: Db, seed: Plan): Plan
  {
    var competitions := seed.competitions + CompetitionsOf(d, seed.sports);
    var matches := seed.matches + MatchesOf(d, competitions);
    seed.(competitions := competitions,
          categories := seed.categories + CategoriesOf(d, competitions),
          matches := matches,
          members := seed.members + MembersOf(d, seed.teams),
          substitutions := seed.substitutions + SubstitutionsOf(d, matches, seed.teams))
  }

  /** No `delete` cascade leads out of `p`. */
  predicate CascadeClosed(d: Db, p: Plan)
  {
    && CompetitionsOf(d, p.sports) <= p.competitions
    && CategoriesOf(d, p.competitions) <= p.categories
    && MatchesOf(d, p.competitions) <= p.matches
    && MembersOf(d, p.teams) <= p.members
    && SubstitutionsOf(d, p.matches, p.teams) <= p.substitutions
  }

  /** `p` deletes at least what `q` deletes. */
  predicate Covers(p: Plan, q: Plan)
  {
    && q.sports <= p.sports && q.competitions <= p.competitions && q.categories <= p.categories
    && q.teams <= p.teams && q.members <= p.members && q.coaches <= p.coaches
    && q.statuses <= p.statuses && q.matches <= p.matches && q.statements <= p.statements
    && q.substitutions <= p.substitutions && q.rawNews <= p.rawNews && q.formattedNews <= p.formattedNews
  }

  /** The closure contains the seed and no cascade leads out of it. */
  lemma ClosureIsClosed(d: Db, seed: Plan)
    ensures Covers(Closure(d, seed), seed)
    ensures CascadeClosed(d, Closure(d, seed))
  {
  }

  /** Every cascade-closed plan containing the seed contains the closure:
      the closure deletes nothing a cascade does not demand. */
  lemma ClosureIsLeast(d: Db, seed: Plan, p: Plan)
    requires Covers(p, seed)
    requires CascadeClosed(d, p)
    ensures Covers(p, Closure(d, seed))
  {
    var q := Closure(d, seed);
    assert CompetitionsOf(d, seed.sports) <= CompetitionsOf(d, p.sports);
    assert q.competitions <= p.competitions;
    assert MatchesOf(d, q.competitions) <= MatchesOf(d, p.competitions);
    assert CategoriesOf(d, q.competitions) <= CategoriesOf(d, p.competitions);
    assert MembersOf(d, seed.teams) <= MembersOf(d, p.teams);
    assert SubstitutionsOf(d, q.matches, seed.teams) <= SubstitutionsOf(d, p.matches, p.teams);
  }

  // ----- step 2: what refuses a delete -----

  /** `Sport.matches` has no `delete` cascade: the ORM nulls `Match.sport_id`
      of every surviving match of a deleted sport, and that column cannot be null. */
  predicate NullsMatchSport(d: Db, p: Plan)
  {
    exists m :: m in d.matches && m !in p.matches && d.matches[m].sportId in p.sports
  }

  /** A surviving row whose non-null foreign key names a deleted row. */
  predicate Dangling(d: Db, p: Plan)
  {
    || (exists c :: c in d.competitions && c !in p.competitions && d.competitions[c].sportId in p.sports)
    || (exists m :: m in d.matches && m !in p.matches && Names(d.matches[m].competitionId, p.competitions))
    || (exists k :: k in d.substitutions && k !in p.substitutions && SubstitutionNames(k, d.substitutions[k], p))
    || (exists n :: n in d.rawNews && n !in p.rawNews && d.rawNews[n].sportId in p.sports)
    || (exists n :: n in d.formattedNews && n !in p.formattedNews && d.formattedNews[n].sportId in p.sports)
    || StatusShared(d, p)
  }

  /** `MatchStatus.match` has `uselist=False`: the ORM loads one match of a
      deleted status and nulls its `status_id`. Nothing makes `status_id`
      unique, so a second surviving match of that status still names it. */
  predicate StatusShared(d: Db, p: Plan)
  {
    exists a, b :: a in d.matches && b in d.matches && a != b && a !in p.matches && b !in p.matches
      && Names(d.matches[a].statusId, p.statuses) && d.matches[b].statusId == d.matches[a].statusId
  }

  /** A substitution names a deleted match, team or player. */
  predicate SubstitutionNames(k: SubKey, s: Substitution, p: Plan)
  {
    k.matchId in p.matches || k.prevPlayerId in p.members || k.newPlayerId in p.members || s.teamId in p.teams
  }

  // ----- step 3: the new tables -----

  /** `MatchStatus.match` has no `delete` cascade and `Match.status_id` is
      optional: the ORM nulls it on the match of a deleted status. A delete
      that gets this far has at most one surviving match per deleted status
      (`StatusShared` refuses the others), so nulling every holder nulls that one. */
  function StatusCleared(matches: map<Id, Match>, gone: set<Id>): map<Id, Match>
  {
    map m | m in matches :: if Names(matches[m].statusId, gone) then matches[m].(statusId := None) else matches[m]
  }

  function Apply(d: Db, p: Plan): Db
  {
    Db(d.sports - p.sports,
       d.competitions - p.competitions,
       d.categories - p.categories,
       d.teams - p.teams,
       d.members - p.members,
       d.coaches - p.coaches,
       d.statuses - p.statuses,
       StatusCleared(d.matches - p.matches, p.statuses),
       d.statements - p.statements,
       d.substitutions - p.substitutions,
       d.rawNews - p.rawNews,
       d.formattedNews - p.formattedNews,
       Unlinked(d.competitionInCategory, p.competitions, p.categories),
       Unlinked(d.teamInCompetition, p.teams, p.competitions),
       Unlinked(d.playerInTeam, p.members, p.teams),
       Unlinked(d.teamInMatch, p.teams, p.matches),
       Unlinked(d.coachInTeam, p.coaches, p.teams),
       Unlinked(d.aiStatementInMatch, p.statements, p.matches),
       Unlinked(d.filteredMatchInNews, p.matches, p.formattedNews))
  }

  /** Deleting the rows of `p` in one flush. */
  function Delete(d: Db, p: Plan): Result<Db>
  {
    if NullsMatchSport(d, p) then Err(NotNullViolation)
    else if Dangling(d, p) then Err(ForeignKeyViolation)
    else Ok(Apply(d, p))
  }

  /** Nulls `status_id` on the matches of the deleted statuses, one match at a time. */
  method ClearStatuses(matches: map<Id, Match>, gone: set<Id>) returns (r: map<Id, Match>)
    ensures r == StatusCleared(matches, gone)
  {
    r := matches;
    var todo := matches.Keys;
    while todo != {}
      invariant todo <= matches.Keys
      invariant r.Keys == matches.Keys
      invariant forall m :: m in r ==> r[m] == if m in todo then matches[m] else StatusCleared(matches, gone)[m]
      decreases todo
    {
      var m :| m in todo;
      if Names(r[m].statusId, gone) {
        r := r[m := r[m].(statusId := None)];
      }
      todo := todo - {m};
    }
  }

  // ----- every successful delete keeps the invariant -----

  lemma StatusClearedKeepsKeys(matches: map<Id, Match>, gone: set<Id>)
    requires MatchKeysUnique(matches)
    ensures StatusCleared(matches, gone).Keys == matches.Keys
    ensures MatchKeysUnique(StatusCleared(matches, gone))
  {
    var r := StatusCleared(matches, gone);
    assert forall m :: m in r ==> r[m].externalId == matches[m].externalId && MatchSlot(r[m]) == MatchSlot(matches[m]);
  }

  lemma MatchesKeepRefs(d: Db, p: Plan)
    requires MatchRefs(d.matches, d.sports.Keys, d.competitions.Keys, d.statuses.Keys)
    requires !NullsMatchSport(d, p)
    requires forall m :: m in d.matches && m !in p.matches ==> !Names(d.matches[m].competitionId, p.competitions)
    ensures var e := Apply(d, p); MatchRefs(e.matches, e.sports.Keys, e.competitions.Keys, e.statuses.Keys)
  {
    var e := Apply(d, p);
    forall m | m in e.matches
      ensures e.matches[m].sportId in e.sports.Keys
      ensures OptIn(e.matches[m].competitionId, e.competitions.Keys)
      ensures OptIn(e.matches[m].statusId, e.statuses.Keys)
    {
      assert m in d.matches && m !in p.matches;
    }
  }

  lemma SubstitutionsKeepRefs(d: Db, p: Plan)
    requires SubstitutionRefs(d.substitutions, d.matches.Keys, d.members.Keys, d.teams.Keys)
    requires forall k :: k in d.substitutions && k !in p.substitutions ==> !SubstitutionNames(k, d.substitutions[k], p)
    ensures var e := Apply(d, p); SubstitutionRefs(e.substitutions, e.matches.Keys, e.members.Keys, e.teams.Keys)
  {
    var e := Apply(d, p);
    assert e.matches.Keys == d.matches.Keys - p.matches;
  }

  lemma {:induction false} DeleteKeepsRefs(d: Db, p: Plan)
    requires Valid(d)
    requires !NullsMatchSport(d, p) && !Dangling(d, p)
    ensures RefsOk(Apply(d, p))
  {
    MatchesKeepRefs(d, p);
    SubstitutionsKeepRefs(d, p);
  }

  lemma DeleteKeepsLinks(d: Db, p: Plan)
    requires Valid(d)
    ensures LinksOk(Apply(d, p))
  {
    var e := Apply(d, p);
    assert e.matches.Keys == d.matches.Keys - p.matches;
  }

  lemma DeleteKeepsUnique(d: Db, p: Plan)
    requires Valid(d)
    ensures UniqueOk(Apply(d, p))
  {
    StatusClearedKeepsKeys(d.matches - p.matches, p.statuses);
  }

  /** A delete that is not refused leaves a valid store, whatever it removes. */
  lemma DeletePreservesValid(d: Db, p: Plan)
    requires Valid(d)
    ensures Delete(d, p).Ok? ==> Valid(Delete(d, p).value)
  {
    if Delete(d, p).Ok? {
      DeleteKeepsRefs(d, p);
      DeleteKeepsLinks(d, p);
      DeleteKeepsUnique(d, p);
    }
  }

  // ----- one delete per mapped class -----

  function DeleteSport(d: Db, s: Id): Result<Db>
  {
    if s !in d.sports then Err(NotFound) else Delete(d, Closure(d, Nothing.(sports := {s})))
  }

  function DeleteCompetition(d: Db, c: Id): Result<Db>
  {
    if c !in d.competitions then Err(NotFound) else Delete(d, Closure(d, Nothing.(competitions := {c})))
  }

  function DeleteCategory(d: Db, k: Id): Result<Db>
  {
    if k !in d.categories then Err(NotFound) else Delete(d, Closure(d, Nothing.(categories := {k})))
  }

  function DeleteTeam(d: Db, t: Id): Result<Db>
  {
    if t !in d.teams then Err(NotFound) else Delete(d, Closure(d, Nothing.(teams := {t})))
  }

  function DeleteMember(d: Db, p: Id): Result<Db>
  {
    if p !in d.members then Err(NotFound) else Delete(d, Closure(d, Nothing.(members := {p})))
  }

  function DeleteCoach(d: Db, c: Id): Result<Db>
  {
    if c !in d.coaches then Err(NotFound) else Delete(d, Closure(d, Nothing.(coaches := {c})))
  }

  function DeleteStatus(d: Db, s: Id): Result<Db>
  {
    if s !in d.statuses then Err(NotFound) else Delete(d, Closure(d, Nothing.(statuses := {s})))
  }

  function DeleteMatch(d: Db, m: Id): Result<Db>
  {
    if m !in d.matches then Err(NotFound) else Delete(d, Closure(d, Nothing.(matches := {m})))
  }

  function DeleteStatement(d: Db, s: Id): Result<Db>
  {
    if s !in d.statements then Err(NotFound) else Delete(d, Closure(d, Nothing.(statements := {s})))
  }

  function DeleteSubstitution(d: Db, k: SubKey): Result<Db>
  {
    if k !in d.substitutions then Err(NotFound) else Delete(d, Closure(d, Nothing.(substitutions := {k})))
  }

  function DeleteRawNews(d: Db, n: Id): Result<Db>
  {
    if n !in d.rawNews then Err(NotFound) else Delete(d, Closure(d, Nothing.(rawNews := {n})))
  }

  function DeleteFormattedNews(d: Db, n: Id): Result<Db>
  {
    if n !in d.formattedNews then Err(NotFound) else Delete(d, Closure(d, Nothing.(formattedNews := {n})))
  }

  // ----- what each delete does -----

  lemma StatusClearedNothing(matches: map<Id, Match>)
    ensures StatusCleared(matches, {}) == matches
  {
  }

  /** With nothing to start from, no cascade reaches anything. */
  lemma ReachesNothing(d: Db)
    ensures CompetitionsOf(d, {}) == {} && CategoriesOf(d, {}) == {} && MatchesOf(d, {}) == {}
    ensures MembersOf(d, {}) == {} && SubstitutionsOf(d, {}, {}) == {}
  {
  }

  /** Removing nothing leaves every table as it is. */
  lemma RemovesNothing(d: Db)
    ensures d.sports - {} == d.sports && d.competitions - {} == d.competitions
    ensures d.categories - {} == d.categories && d.teams - {} == d.teams
    ensures d.members - {} == d.members && d.coaches - {} == d.coaches
    ensures d.statuses - {} == d.statuses && d.matches - {} == d.matches
    ensures d.statements - {} == d.statements && d.substitutions - {} == d.substitutions
    ensures d.rawNews - {} == d.rawNews && d.formattedNews - {} == d.formattedNews
    ensures Unlinked(d.competitionInCategory, {}, {}) == d.competitionInCategory
    ensures Unlinked(d.teamInCompetition, {}, {}) == d.teamInCompetition
    ensures Unlinked(d.playerInTeam, {}, {}) == d.playerInTeam
    ensures Unlinked(d.teamInMatch, {}, {}) == d.teamInMatch
    ensures Unlinked(d.coachInTeam, {}, {}) == d.coachInTeam
    ensures Unlinked(d.aiStatementInMatch, {}, {}) == d.aiStatementInMatch
    ensures Unlinked(d.filteredMatchInNews, {}, {}) == d.filteredMatchInNews
    ensures StatusCleared(d.matches, {}) == d.matches
  {
  }

  /** A plan that deletes no status leaves no match naming a deleted status. */
  lemma NoStatusNoShare(d: Db, p: Plan)
    requires p.statuses == {}
    ensures !StatusShared(d, p)
  {
  }

  /** A plan that deletes no row that a foreign key or a cascade starts from. */
  predicate Leaf(p: Plan)
  {
    && p.sports == {} && p.competitions == {} && p.teams == {} && p.members == {} && p.matches == {}
    && p.statuses == {}
  }

  /** No cascade leaves a leaf plan, and nothing refuses it. */
  lemma LeafPlanIsClosed(d: Db, p: Plan)
    requires Leaf(p)
    ensures Closure(d, p) == p
    ensures Delete(d, p) == Ok(Apply(d, p))
  {
    ReachesNothing(d);
    LeafRefusesNothing(d, p);
  }

  /** A leaf plan nulls no match and leaves no foreign key dangling. */
  lemma LeafRefusesNothing(d: Db, p: Plan)
    requires Leaf(p)
    ensures !NullsMatchSport(d, p) && !Dangling(d, p)
  {
  }

  /** What a plan does that deletes no sport, competition, team or match. */
  lemma ApplyBelowTeams(d: Db, p: Plan)
    requires p.sports == {} && p.competitions == {} && p.teams == {} && p.matches == {}
    ensures Apply(d, p) == d.(categories := d.categories - p.categories,
                              members := d.members - p.members,
                              coaches := d.coaches - p.coaches,
                              statuses := d.statuses - p.statuses,
                              matches := StatusCleared(d.matches, p.statuses),
                              statements := d.statements - p.statements,
                              substitutions := d.substitutions - p.substitutions,
                              rawNews := d.rawNews - p.rawNews,
                              formattedNews := d.formattedNews - p.formattedNews,
                              competitionInCategory := Unlinked(d.competitionInCategory, {}, p.categories),
                              playerInTeam := Unlinked(d.playerInTeam, p.members, {}),
                              coachInTeam := Unlinked(d.coachInTeam, p.coaches, {}),
                              aiStatementInMatch := Unlinked(d.aiStatementInMatch, p.statements, {}),
                              filteredMatchInNews := Unlinked(d.filteredMatchInNews, {}, p.formattedNews))
  {
    RemovesNothing(d);
  }

  /** A sport can go only when every match of the sport belongs to one of
      its competitions (and so goes with them) and no news item names it. */
  predicate SportReleased(d: Db, s: Id)
  {
    && (forall m :: m in d.matches && d.matches[m].sportId == s ==> Names(d.matches[m].competitionId, CompetitionsOf(d, {s})))
    && (forall n :: n in d.rawNews ==> d.rawNews[n].sportId != s)
    && (forall n :: n in d.formattedNews ==> d.formattedNews[n].sportId != s)
  }

  /** The rows deleting sport `s` reaches. */
  function SportPlan(d: Db, s: Id): Plan
  {
    var comps := CompetitionsOf(d, {s});
    var ms := MatchesOf(d, comps);
    Nothing.(sports := {s}, competitions := comps, categories := CategoriesOf(d, comps),
             matches := ms, substitutions := SubstitutionsOf(d, ms, {}))
  }

  lemma SportClosure(d: Db, s: Id)
    ensures Closure(d, Nothing.(sports := {s})) == SportPlan(d, s)
  {
    ReachesNothing(d);
  }

  lemma SportVerdict(d: Db, s: Id)
    ensures NullsMatchSport(d, SportPlan(d, s)) <==>
      exists m :: m in d.matches && d.matches[m].sportId == s && !Names(d.matches[m].competitionId, CompetitionsOf(d, {s}))
    ensures Dangling(d, SportPlan(d, s)) <==>
      (exists n :: n in d.rawNews && d.rawNews[n].sportId == s) || (exists n :: n in d.formattedNews && d.formattedNews[n].sportId == s)
  {
    var p := SportPlan(d, s);
    NoStatusNoShare(d, p);
    assert forall m :: m in d.matches && m !in p.matches ==> !Names(d.matches[m].competitionId, p.competitions);
  }

  /** Deleting a sport deletes its competitions, their categories and their
      matches, and the substitutions of those matches. A match of the sport
      outside those competitions makes it fail with a null `sport_id`; a news
      item of the sport makes the database refuse it. */
  lemma DeleteSportSpec(d: Db, s: Id)
    requires s in d.sports
    ensures DeleteSport(d, s).Ok? <==> SportReleased(d, s)
    ensures DeleteSport(d, s) == Err(NotNullViolation) <==>
      exists m :: m in d.matches && d.matches[m].sportId == s && !Names(d.matches[m].competitionId, CompetitionsOf(d, {s}))
    ensures DeleteSport(d, s).Err? ==> DeleteSport(d, s).error in {NotNullViolation, ForeignKeyViolation}
    ensures DeleteSport(d, s).Ok? ==>
      var e := DeleteSport(d, s).value;
      var comps := CompetitionsOf(d, {s});
      var cats := CategoriesOf(d, comps);
      var ms := MatchesOf(d, comps);
      && (forall c :: c in e.competitions ==> e.competitions[c].sportId != s)
      && (forall m :: m in e.matches ==> e.matches[m].sportId != s)
      && e == d.(sports := d.sports - {s},
                 competitions := d.competitions - comps,
                 categories := d.categories - cats,
                 matches := d.matches - ms,
                 substitutions := d.substitutions - SubstitutionsOf(d, ms, {}),
                 competitionInCategory := Unlinked(d.competitionInCategory, comps, cats),
                 teamInCompetition := Unlinked(d.teamInCompetition, {}, comps),
                 teamInMatch := Unlinked(d.teamInMatch, {}, ms),
                 aiStatementInMatch := Unlinked(d.aiStatementInMatch, {}, ms),
                 filteredMatchInNews := Unlinked(d.filteredMatchInNews, ms, {}))
  {
    SportClosure(d, s);
    SportVerdict(d, s);
    RemovesNothing(d);
    StatusClearedNothing(d.matches - SportPlan(d, s).matches);
  }

  /** The rows deleting competition `c` reaches. */
  function CompetitionPlan(d: Db, c: Id): Plan
  {
    var ms := MatchesOf(d, {c});
    Nothing.(competitions := {c}, categories := CategoriesOf(d, {c}), matches := ms,
             substitutions := SubstitutionsOf(d, ms, {}))
  }

  lemma CompetitionClosure(d: Db, c: Id)
    ensures Closure(d, Nothing.(competitions := {c})) == CompetitionPlan(d, c)
  {
    ReachesNothing(d);
  }

  lemma CompetitionVerdict(d: Db, c: Id)
    ensures Delete(d, CompetitionPlan(d, c)) == Ok(Apply(d, CompetitionPlan(d, c)))
  {
    var p := CompetitionPlan(d, c);
    NoStatusNoShare(d, p);
    assert !NullsMatchSport(d, p);
    assert forall m :: m in d.matches && m !in p.matches ==> !Names(d.matches[m].competitionId, p.competitions);
    assert forall k :: k in d.substitutions && k !in p.substitutions ==> !SubstitutionNames(k, d.substitutions[k], p);
  }

  /** Deleting a competition always succeeds: it deletes the competition's
      matches (with their substitutions) and every category it is in, even
      one other competitions share; its teams stay. */
  lemma DeleteCompetitionSpec(d: Db, c: Id)
    requires c in d.competitions
    ensures DeleteCompetition(d, c).Ok?
    ensures
      var e := DeleteCompetition(d, c).value;
      var cats := CategoriesOf(d, {c});
      var ms := MatchesOf(d, {c});
      && (forall m :: m in e.matches ==> e.matches[m].competitionId != Some(c))
      && e == d.(competitions := d.competitions - {c},
                 categories := d.categories - cats,
                 matches := d.matches - ms,
                 substitutions := d.substitutions - SubstitutionsOf(d, ms, {}),
                 competitionInCategory := Unlinked(d.competitionInCategory, {c}, cats),
                 teamInCompetition := Unlinked(d.teamInCompetition, {}, {c}),
                 teamInMatch := Unlinked(d.teamInMatch, {}, ms),
                 aiStatementInMatch := Unlinked(d.aiStatementInMatch, {}, ms),
                 filteredMatchInNews := Unlinked(d.filteredMatchInNews, ms, {}))
  {
    CompetitionClosure(d, c);
    CompetitionVerdict(d, c);
    RemovesNothing(d);
    StatusClearedNothing(d.matches - CompetitionPlan(d, c).matches);
  }

  /** Deleting a category always succeeds and removes exactly one
      `competition_in_category` row per competition in it; the competitions stay. */
  lemma DeleteCategorySpec(d: Db, k: Id)
    requires k in d.categories
    ensures DeleteCategory(d, k).Ok?
    ensures
      var e := DeleteCategory(d, k).value;
      && e == d.(categories := d.categories - {k},
                 competitionInCategory := d.competitionInCategory - Fiber(d.competitionInCategory, k))
      && |e.competitionInCategory| == |d.competitionInCategory| - |Partners(d.competitionInCategory, k)|
  {
    var p := Nothing.(categories := {k});
    LeafPlanIsClosed(d, p);
    ApplyBelowTeams(d, p);
    RemovesNothing(d);
    UnlinkRightCount(d.competitionInCategory, k);
  }

  /** A team can go only when no substitution that stays (one of another
      team) names one of its members. */
  predicate TeamReleased(d: Db, t: Id)
  {
    forall k :: k in d.substitutions && d.substitutions[k].teamId != t ==>
      k.prevPlayerId !in MembersOf(d, {t}) && k.newPlayerId !in MembersOf(d, {t})
  }

  /** The rows deleting team `t` reaches. */
  function TeamPlan(d: Db, t: Id): Plan
  {
    Nothing.(teams := {t}, members := MembersOf(d, {t}), substitutions := SubstitutionsOf(d, {}, {t}))
  }

  lemma TeamClosure(d: Db, t: Id)
    ensures Closure(d, Nothing.(teams := {t})) == TeamPlan(d, t)
    ensures !NullsMatchSport(d, TeamPlan(d, t))
    ensures Dangling(d, TeamPlan(d, t)) <==> !TeamReleased(d, t)
  {
    ReachesNothing(d);
    NoStatusNoShare(d, TeamPlan(d, t));
  }

  lemma ApplyTeam(d: Db, t: Id)
    ensures
      var mem := MembersOf(d, {t});
      Apply(d, TeamPlan(d, t)) ==
        d.(teams := d.teams - {t},
           members := d.members - mem,
           substitutions := d.substitutions - SubstitutionsOf(d, {}, {t}),
           teamInCompetition := Unlinked(d.teamInCompetition, {t}, {}),
           playerInTeam := Unlinked(d.playerInTeam, mem, {t}),
           teamInMatch := Unlinked(d.teamInMatch, {t}, {}),
           coachInTeam := Unlinked(d.coachInTeam, {}, {t}))
  {
    RemovesNothing(d);
  }

  /** Deleting a team deletes every member of it, even one who plays in other
      teams too, and its substitutions; its matches, competitions and coaches
      stay. A substitution of another team that names one of those members
      makes the database refuse the delete. */
  lemma DeleteTeamSpec(d: Db, t: Id)
    requires t in d.teams
    ensures DeleteTeam(d, t).Ok? <==> TeamReleased(d, t)
    ensures DeleteTeam(d, t).Err? ==> DeleteTeam(d, t).error == ForeignKeyViolation
    ensures DeleteTeam(d, t).Ok? ==>
      var mem := MembersOf(d, {t});
      DeleteTeam(d, t).value ==
        d.(teams := d.teams - {t},
           members := d.members - mem,
           substitutions := d.substitutions - SubstitutionsOf(d, {}, {t}),
           teamInCompetition := Unlinked(d.teamInCompetition, {t}, {}),
           playerInTeam := Unlinked(d.playerInTeam, mem, {t}),
           teamInMatch := Unlinked(d.teamInMatch, {t}, {}),
           coachInTeam := Unlinked(d.coachInTeam, {}, {t}))
  {
    TeamClosure(d, t);
    ApplyTeam(d, t);
  }

  /** A member can go only when no substitution names them as the player
      coming off or going on; their teams stay. */
  lemma DeleteMemberSpec(d: Db, p: Id)
    requires p in d.members
    ensures DeleteMember(d, p).Ok? <==>
      forall k :: k in d.substitutions ==> k.prevPlayerId != p && k.newPlayerId != p
    ensures DeleteMember(d, p).Err? ==> DeleteMember(d, p).error == ForeignKeyViolation
    ensures DeleteMember(d, p).Ok? ==>
      DeleteMember(d, p).value == d.(members := d.members - {p}, playerInTeam := Unlinked(d.playerInTeam, {p}, {}))
  {
    var q := Nothing.(members := {p});
    ReachesNothing(d);
    assert Closure(d, q) == q;
    MemberVerdict(d, p);
    ApplyBelowTeams(d, q);
    RemovesNothing(d);
  }

  /** Deleting member `p` alone is refused exactly when a substitution names them. */
  lemma MemberVerdict(d: Db, p: Id)
    ensures !NullsMatchSport(d, Nothing.(members := {p}))
    ensures Dangling(d, Nothing.(members := {p})) <==>
      exists k :: k in d.substitutions && (k.prevPlayerId == p || k.newPlayerId == p)
  {
  }

  /** Deleting a coach always succeeds and only unties them from their teams. */
  lemma DeleteCoachSpec(d: Db, c: Id)
    requires c in d.coaches
    ensures DeleteCoach(d, c).Ok?
    ensures DeleteCoach(d, c).value == d.(coaches := d.coaches - {c}, coachInTeam := Unlinked(d.coachInTeam, {c}, {}))
  {
    var p := Nothing.(coaches := {c});
    LeafPlanIsClosed(d, p);
    ApplyBelowTeams(d, p);
    RemovesNothing(d);
  }

  /** The matches whose `status_id` names `st`. */
  function MatchesInStatus(d: Db, st: Id): set<Id>
  {
    set m | m in d.matches && d.matches[m].statusId == Some(st)
  }

  /** Deleting a status succeeds exactly when at most one match holds it;
      then every match survives, and the one in that status loses it and
      nothing else. With two or more, the ORM nulls one of them and the
      others keep naming the row, so the database refuses the delete. */
  lemma DeleteStatusSpec(d: Db, st: Id)
    requires st in d.statuses
    ensures DeleteStatus(d, st).Ok? <==> |MatchesInStatus(d, st)| <= 1
    ensures DeleteStatus(d, st).Err? ==> DeleteStatus(d, st).error == ForeignKeyViolation
    ensures DeleteStatus(d, st).Ok? ==>
      var e := DeleteStatus(d, st).value;
      && e.matches.Keys == d.matches.Keys
      && (forall m :: m in e.matches ==> e.matches[m].statusId != Some(st))
      && (forall m :: m in e.matches ==> e.matches[m].(statusId := d.matches[m].statusId) == d.matches[m])
      && (forall m :: m in e.matches && d.matches[m].statusId != Some(st) ==> e.matches[m] == d.matches[m])
      && e == d.(statuses := d.statuses - {st}, matches := e.matches)
  {
    var p := Nothing.(statuses := {st});
    ReachesNothing(d);
    assert Closure(d, p) == p;
    StatusVerdict(d, st);
    ApplyBelowTeams(d, p);
    RemovesNothing(d);
    assert d.matches - p.matches == d.matches;
    StatusClearedSpec(d.matches, st);
  }

  /** Deleting status `st` alone nulls no sport, and is refused exactly when
      two or more matches hold `st`. */
  lemma StatusVerdict(d: Db, st: Id)
    ensures !NullsMatchSport(d, Nothing.(statuses := {st}))
    ensures Dangling(d, Nothing.(statuses := {st})) <==> |MatchesInStatus(d, st)| >= 2
  {
    var p := Nothing.(statuses := {st});
    assert Dangling(d, p) <==> StatusShared(d, p);
    if StatusShared(d, p) {
      SharedStatusHasTwo(d, st);
    }
    if |MatchesInStatus(d, st)| >= 2 {
      TwoHoldersShareStatus(d, st);
    }
  }

  lemma SharedStatusHasTwo(d: Db, st: Id)
    requires StatusShared(d, Nothing.(statuses := {st}))
    ensures |MatchesInStatus(d, st)| >= 2
  {
    var p := Nothing.(statuses := {st});
    var a, b :| a in d.matches && b in d.matches && a != b && a !in p.matches && b !in p.matches
      && Names(d.matches[a].statusId, p.statuses) && d.matches[b].statusId == d.matches[a].statusId;
    AtLeastTwo(MatchesInStatus(d, st), a, b);
  }

  lemma TwoHoldersShareStatus(d: Db, st: Id)
    requires |MatchesInStatus(d, st)| >= 2
    ensures StatusShared(d, Nothing.(statuses := {st}))
  {
    var ms := MatchesInStatus(d, st);
    var a :| a in ms;
    assert |ms - {a}| == |ms| - 1;
    var b :| b in ms - {a};
    assert a in d.matches && b in d.matches && a != b && Names(d.matches[a].statusId, {st});
  }

  /** A set holding two different elements has at least two. */
  lemma AtLeastTwo<T>(s: set<T>, a: T, b: T)
    requires a in s && b in s && a != b
    ensures |s| >= 2
  {
    assert {a, b} <= s;
    assert |s - {a, b}| + |{a, b}| == |s|;
  }

  /** Clearing status `st` keeps every match and changes only the status of
      those in `st`, to null. */
  lemma StatusClearedSpec(matches: map<Id, Match>, st: Id)
    ensures var c := StatusCleared(matches, {st});
      && c.Keys == matches.Keys
      && (forall m :: m in c ==> c[m].statusId != Some(st))
      && (forall m :: m in c ==> c[m].(statusId := matches[m].statusId) == matches[m])
      && (forall m :: m in c && matches[m].statusId != Some(st) ==> c[m] == matches[m])
  {
  }

  /** The rows deleting match `m` reaches. */
  function MatchPlan(d: Db, m: Id): Plan
  {
    Nothing.(matches := {m}, substitutions := SubstitutionsOf(d, {m}, {}))
  }

  lemma MatchClosure(d: Db, m: Id)
    ensures Closure(d, Nothing.(matches := {m})) == MatchPlan(d, m)
    ensures Delete(d, MatchPlan(d, m)) == Ok(Apply(d, MatchPlan(d, m)))
  {
    ReachesNothing(d);
    NoStatusNoShare(d, MatchPlan(d, m));
  }

  /** Deleting a match always succeeds: its substitutions go with it, it is
      untied from its teams, statements and news, and its sport, competition
      and status stay. */
  lemma DeleteMatchSpec(d: Db, m: Id)
    requires m in d.matches
    ensures DeleteMatch(d, m).Ok?
    ensures
      var e := DeleteMatch(d, m).value;
      && (forall k :: k in e.substitutions ==> k.matchId != m)
      && e == d.(matches := d.matches - {m},
                 substitutions := d.substitutions - SubstitutionsOf(d, {m}, {}),
                 teamInMatch := Unlinked(d.teamInMatch, {}, {m}),
                 aiStatementInMatch := Unlinked(d.aiStatementInMatch, {}, {m}),
                 filteredMatchInNews := Unlinked(d.filteredMatchInNews, {m}, {}))
  {
    MatchClosure(d, m);
    RemovesNothing(d);
    StatusClearedNothing(d.matches - {m});
  }

  /** Deleting an AI statement always succeeds and only unties it from its matches. */
  lemma DeleteStatementSpec(d: Db, s: Id)
    requires s in d.statements
    ensures DeleteStatement(d, s).Ok?
    ensures DeleteStatement(d, s).value ==
      d.(statements := d.statements - {s}, aiStatementInMatch := Unlinked(d.aiStatementInMatch, {s}, {}))
  {
    var p := Nothing.(statements := {s});
    LeafPlanIsClosed(d, p);
    ApplyBelowTeams(d, p);
    RemovesNothing(d);
  }

  /** Deleting a substitution always succeeds and removes that row alone. */
  lemma DeleteSubstitutionSpec(d: Db, k: SubKey)
    requires k in d.substitutions
    ensures DeleteSubstitution(d, k).Ok?
    ensures DeleteSubstitution(d, k).value == d.(substitutions := d.substitutions - {k})
  {
    var p := Nothing.(substitutions := {k});
    LeafPlanIsClosed(d, p);
    ApplyBelowTeams(d, p);
    RemovesNothing(d);
  }

  /** Deleting a raw news item always succeeds and removes that row alone. */
  lemma DeleteRawNewsSpec(d: Db, n: Id)
    requires n in d.rawNews
    ensures DeleteRawNews(d, n).Ok?
    ensures DeleteRawNews(d, n).value == d.(rawNews := d.rawNews - {n})
  {
    var p := Nothing.(rawNews := {n});
    LeafPlanIsClosed(d, p);
    ApplyBelowTeams(d, p);
    RemovesNothing(d);
  }

  /** Deleting a formatted news item always succeeds and only unties it from its matches. */
  lemma DeleteFormattedNewsSpec(d: Db, n: Id)
    requires n in d.formattedNews
    ensures DeleteFormattedNews(d, n).Ok?
    ensures DeleteFormattedNews(d, n).value ==
      d.(formattedNews := d.formattedNews - {n}, filteredMatchInNews := Unlinked(d.filteredMatchInNews, {}, {n}))
  {
    var p := Nothing.(formattedNews := {n});
    LeafPlanIsClosed(d, p);
    ApplyBelowTeams(d, p);
    RemovesNothing(d);
  }

  /** Every delete of a missing row fails with `NotFound`. */
  lemma DeleteMissingSpec(d: Db, x: Id, k: SubKey)
    ensures x !in d.sports ==> DeleteSport(d, x) == Err(NotFound)
    ensures x !in d.competitions ==> DeleteCompetition(d, x) == Err(NotFound)
    ensures x !in d.categories ==> DeleteCategory(d, x) == Err(NotFound)
    ensures x !in d.teams ==> DeleteTeam(d, x) == Err(NotFound)
    ensures x !in d.members ==> DeleteMember(d, x) == Err(NotFound)
    ensures x !in d.coaches ==> DeleteCoach(d, x) == Err(NotFound)
    ensures x !in d.statuses ==> DeleteStatus(d, x) == Err(NotFound)
    ensures x !in d.matches ==> DeleteMatch(d, x) == Err(NotFound)
    ensures x !in d.statements ==> DeleteStatement(d, x) == Err(NotFound)
    ensures k !in d.substitutions ==> DeleteSubstitution(d, k) == Err(NotFound)
    ensures x !in d.rawNews ==> DeleteRawNews(d, x) == Err(NotFound)
    ensures x !in d.formattedNews ==> DeleteFormattedNews(d, x) == Err(NotFound)
  {
  }

  // ----- every delete keeps the invariant -----

  lemma DeleteSportKeepsValid(d: Db, x: Id)
    requires Valid(d)
    ensures DeleteSport(d, x).Ok? ==> Valid(DeleteSport(d, x).value)
  {
    if x in d.sports {
      DeletePreservesValid(d, Closure(d, Nothing.(sports := {x})));
    }
  }

  lemma DeleteCompetitionKeepsValid(d: Db, x: Id)
    requires Valid(d)
    ensures DeleteCompetition(d, x).Ok? ==> Valid(DeleteCompetition(d, x).value)
  {
    if x in d.competitions {
      DeletePreservesValid(d, Closure(d, Nothing.(competitions := {x})));
    }
  }

  lemma DeleteCategoryKeepsValid(d: Db, x: Id)
    requires Valid(d)
    ensures DeleteCategory(d, x).Ok? ==> Valid(DeleteCategory(d, x).value)
  {
    if x in d.categories {
      DeletePreservesValid(d, Closure(d, Nothing.(categories := {x})));
    }
  }

  lemma DeleteTeamKeepsValid(d: Db, x: Id)
    requires Valid(d)
    ensures DeleteTeam(d, x).Ok? ==> Valid(DeleteTeam(d, x).value)
  {
    if x in d.teams {
      DeletePreservesValid(d, Closure(d, Nothing.(teams := {x})));
    }
  }

  lemma DeleteMemberKeepsValid(d: Db, x: Id)
    requires Valid(d)
    ensures DeleteMember(d, x).Ok? ==> Valid(DeleteMember(d, x).value)
  {
    if x in d.members {
      DeletePreservesValid(d, Closure(d, Nothing.(members := {x})));
    }
  }

  lemma DeleteCoachKeepsValid(d: Db, x: Id)
    requires Valid(d)
    ensures DeleteCoach(d, x).Ok? ==> Valid(DeleteCoach(d, x).value)
  {
    if x in d.coaches {
      DeletePreservesValid(d, Closure(d, Nothing.(coaches := {x})));
    }
  }

  lemma DeleteStatusKeepsValid(d: Db, x: Id)
    requires Valid(d)
    ensures DeleteStatus(d, x).Ok? ==> Valid(DeleteStatus(d, x).value)
  {
    if x in d.statuses {
      DeletePreservesValid(d, Closure(d, Nothing.(statuses := {x})));
    }
  }

  lemma DeleteMatchKeepsValid(d: Db, x: Id)
    requires Valid(d)
    ensures DeleteMatch(d, x).Ok? ==> Valid(DeleteMatch(d, x).value)
  {
    if x in d.matches {
      DeletePreservesValid(d, Closure(d, Nothing.(matches := {x})));
    }
  }

  lemma DeleteStatementKeepsValid(d: Db, x: Id)
    requires Valid(d)
    ensures DeleteStatement(d, x).Ok? ==> Valid(DeleteStatement(d, x).value)
  {
    if x in d.statements {
      DeletePreservesValid(d, Closure(d, Nothing.(statements := {x})));
    }
  }

  lemma DeleteSubstitutionKeepsValid(d: Db, k: SubKey)
    requires Valid(d)
    ensures DeleteSubstitution(d, k).Ok? ==> Valid(DeleteSubstitution(d, k).value)
  {
    if k in d.substitutions {
      DeletePreservesValid(d, Closure(d, Nothing.(substitutions := {k})));
    }
  }

  lemma DeleteRawNewsKeepsValid(d: Db, x: Id)
    requires Valid(d)
    ensures DeleteRawNews(d, x).Ok? ==> Valid(DeleteRawNews(d, x).value)
  {
    if x in d.rawNews {
      DeletePreservesValid(d, Closure(d, Nothing.(rawNews := {x})));
    }
  }

  lemma DeleteFormattedNewsKeepsValid(d: Db, x: Id)
    requires Valid(d)
    ensures DeleteFormattedNews(d, x).Ok? ==> Valid(DeleteFormattedNews(d, x).value)
  {
    if x in d.formattedNews {
      DeletePreservesValid(d, Closure(d, Nothing.(formattedNews := {x})));
    }
  }
}
