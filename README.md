# flux-orm: a verified model of its schema rules

flux-orm declares the database schema of a sports-statistics service with
SQLAlchemy: sports, competitions and their categories, teams, members and
coaches, matches and their statuses, AI statements, substitutions, and news.
All of its behaviour lives in those declarations. Unique columns and foreign
keys decide which inserts are refused. `secondary=` join tables decide what
attaching and detaching rows does. The `cascade=` options and `ondelete=`
keys decide what a delete removes, what it nulls, and when the database
refuses it.

This project states those rules for the two schemas in the repository, and
for its three small helpers, and proves properties of them in Dafny:

- **Package schema** (`flux_orm/models/models.py`). `ModelsSchema` holds the
  rows and the invariant: every foreign key names an existing row, every
  join row names two, and every unique column and unique constraint holds.
  `ModelsOps` holds the inserts and attach/detach. `ModelsCascade` holds the
  deletes. `ModelsStore.Store` is the mutable store: one field per table,
  and methods that change those fields in place. Each method does what the
  matching function computes and keeps the invariant.
- **Variant schema** (`flux_orm/cs/models.py`), in `CsSchema`, `CsOps`,
  `CsCascade` and `CsStore`, laid out the same way.
- **Case-insensitive enum lookup** (`flux_orm/models/enums.py`,
  `CustomStrEnum._missing_`), in `Enums`.
- **`model_to_dict`** (`flux_orm/models/utils.py`), in `Serialize`.
- **The `used_url` table** (`flux_orm/models/utils_models.py`), in
  `UsedUrlTable`.

A delete runs in three steps, as a flush of `session.delete(row)` does:

1. `Closure` collects every row that a `delete` cascade reaches.
2. The ORM nulls the child's foreign key on a one-to-many relationship
   without `delete`. This is refused with `NotNullViolation` when the column
   cannot be null: `Match.sport_id` in the package schema, and
   `Match.status_id` in the variant. Any other surviving row that still
   names a deleted row makes the database refuse the delete with
   `ForeignKeyViolation`. In the package schema this includes a status that
   two or more matches hold: `MatchStatus.match` is scalar
   (`uselist=False`), so the ORM nulls `status_id` on one match only, and
   the other matches still name the status.
3. Otherwise the rows go, together with every join row naming them. In the
   package schema, the optional `Match.status_id` of the one match that
   holds a deleted status is nulled.

Each per-entity `Delete…Spec` lemma states when that delete succeeds, the
error it fails with, and the whole new database.

Consequences of the declarations that are easy to miss:

- Deleting a team deletes its members, in both schemas. `Team.members`
  cascades `delete` through `player_in_team`.
- Deleting a sport or a competition deletes the categories of those
  competitions. `Competition.categories` cascades `delete`.
- Deleting a member that a substitution names is refused.
  `substitution.prev_player_id` and `new_player_id` have neither a
  relationship nor an `ondelete`.
- In the package schema, a status that two or more matches hold cannot be
  deleted, while one that at most one match holds always can.
- In the variant schema:
  - deleting an AI statement deletes its matches;
  - a status that a match holds cannot be deleted, because its
    `status_id` is non-optional and unique.

Nothing here is executed. The verifier checks every contract.

## Model

| member | source | states |
|---|---|---|
| Common.RemoveRows | flux_orm/models/models.py:24-28 | the loop removes exactly the rows keyed by the deleted set: the result is the table minus those keys |
| Common.DropLinks | flux_orm/models/models.py:87-95 | the scan keeps exactly the join rows that name none of the deleted rows on either side |
| Common.UnlinkRightCount | flux_orm/models/models.py:93 | deleting the row on the second side of a join table removes exactly its fiber, one join row per partner, and nothing else |
| Common.FiberCount | flux_orm/models/models.py:87-95 | the join rows naming a row on their second side are as many as its distinct partners, since a join table holds a pair at most once |
| Common.FiberStep | flux_orm/models/models.py:87-95 | taking one row out of a join table removes as many rows naming a given row as it removes partners of that row |
| Enums.LowerIsLower | flux_orm/models/enums.py:9 | lowercasing gives a lowercase string and leaves a lowercase string unchanged |
| Enums.DistinctInitials | flux_orm/models/enums.py:20-34 | nonempty lowercase values with pairwise different first letters are pairwise different, so the lookup is unambiguous |
| Enums.FindExact | flux_orm/models/enums.py:20-34 | finds a member iff some member has exactly that value, and returns the first such member in declaration order |
| Enums.FindLower | flux_orm/models/enums.py:10-16 | finds a member iff some member's lowercased value equals the key, and returns the first such member in declaration order |
| Enums.PipelineStatusValues | flux_orm/models/enums.py:20-25 | the values of `PipelineStatus` are exactly new, sent, processed, error, and they are distinct and lowercase |
| Enums.MatchStatusEnumValues | flux_orm/models/enums.py:28-34 | the values of `MatchStatusEnum` are exactly scheduled, live, finished, cancelled, postponed, and they are distinct and lowercase |
| Enums.Missing | flux_orm/models/enums.py:7-17 | finds a member iff some member's lowercased value equals the lowercased `str` of the input, and the member found is one of them |
| Enums.Lookup | flux_orm/models/enums.py:5-17 | a string equal to a member's value finds a member with that value; the result is None iff no lowercased value matches the lowercased input; a member found matches the input lowercased |
| Enums.LookupMatchesLowerValue | flux_orm/models/enums.py:9-16 | for distinct lowercase values, the lookup returns member i iff the lowercased `str` of the input equals its value |
| Enums.LookupNone | flux_orm/models/enums.py:17 | the lookup returns None iff no member's lowercased value equals the lowercased input |
| Enums.LookupExactValue | flux_orm/models/enums.py:9-16 | looking up a member's own value returns that member |
| Enums.LookupIdempotent | flux_orm/models/enums.py:9-16 | looking up the value of a returned member returns the same member |
| ModelsSchema.EmptyValid | flux_orm/models/models.py:18-512 | an empty database satisfies every foreign key, join-table and unique constraint of the schema |
| ModelsSchema.SameRowsValid | flux_orm/models/models.py:87-508 | a change to the join tables alone keeps the invariant whenever every join row still names two existing rows |
| ModelsOps.InsertSportSpec | flux_orm/models/models.py:18-21 | refused with a unique violation iff the key or the `name` is taken; on success exactly one sport row is added and no other table changes |
| ModelsOps.InsertSportKeepsValid | flux_orm/models/models.py:18-21 | a successful insert keeps every foreign key, join-table and unique constraint |
| ModelsOps.InsertCompetitionSpec | flux_orm/models/models.py:45-49 | refused with a unique violation iff the key or `name` is taken, otherwise with a foreign-key violation iff the sport is missing; on success exactly that row is added |
| ModelsOps.InsertCompetitionKeepsValid | flux_orm/models/models.py:45-49 | a successful insert keeps every foreign key, join-table and unique constraint |
| ModelsOps.InsertCategorySpec | flux_orm/models/models.py:98-100 | refused with a unique violation iff the key is taken; on success exactly that category row is added |
| ModelsOps.InsertCategoryKeepsValid | flux_orm/models/models.py:98-100 | a successful insert keeps every foreign key, join-table and unique constraint |
| ModelsOps.InsertTeamSpec | flux_orm/models/models.py:134-137 | refused with a unique violation iff the key or `name` is taken; on success exactly that team row is added |
| ModelsOps.InsertTeamKeepsValid | flux_orm/models/models.py:134-137 | a successful insert keeps every foreign key, join-table and unique constraint |
| ModelsOps.InsertMemberSpec | flux_orm/models/models.py:199-209 | refused with a unique violation iff the key or the (nickname, name, image_url) triple is taken; on success exactly that row is added |
| ModelsOps.InsertMemberKeepsValid | flux_orm/models/models.py:199-209 | a successful insert keeps every foreign key, join-table and unique constraint |
| ModelsOps.NullIdentityNeverCollides | flux_orm/models/models.py:201-208 | a member with a NULL nickname, name or image_url never collides on the composite unique constraint |
| ModelsOps.InsertCoachSpec | flux_orm/models/models.py:378-380 | refused with a unique violation iff the key is taken; on success exactly that coach row is added |
| ModelsOps.InsertCoachKeepsValid | flux_orm/models/models.py:378-380 | a successful insert keeps every foreign key, join-table and unique constraint |
| ModelsOps.InsertStatusSpec | flux_orm/models/models.py:245-247 | refused with a unique violation iff the key is taken; on success exactly that status row is added |
| ModelsOps.InsertStatusKeepsValid | flux_orm/models/models.py:245-247 | a successful insert keeps every foreign key, join-table and unique constraint |
| ModelsOps.InsertMatchSpec | flux_orm/models/models.py:269-333 | refused with a unique violation iff the key, `external_id` or (match_name, planned_start_datetime) is taken, and otherwise with a foreign-key violation iff the sport, or a given competition or status, is missing; on success exactly that row is added |
| ModelsOps.InsertMatchKeepsValid | flux_orm/models/models.py:269-333 | a successful insert keeps every foreign key, join-table and unique constraint |
| ModelsOps.NullStartNeverCollides | flux_orm/models/models.py:271-277 | a match with a NULL planned start never collides on (match_name, planned_start_datetime) |
| ModelsOps.MatchKeysStayUnique | flux_orm/models/models.py:271-277 | a new match colliding with no stored match on `external_id` or on (match_name, planned_start_datetime) keeps both unique |
| ModelsOps.InsertStatementSpec | flux_orm/models/models.py:358-360 | refused with a unique violation iff the key is taken; on success exactly that row is added |
| ModelsOps.InsertStatementKeepsValid | flux_orm/models/models.py:358-360 | a successful insert keeps every foreign key, join-table and unique constraint |
| ModelsOps.InsertSubstitutionSpec | flux_orm/models/models.py:411-433 | refused with a unique violation iff the (match, prev player, new player) key is taken, otherwise with a foreign-key violation iff the match, either player or the team is missing; on success exactly that row is added |
| ModelsOps.InsertSubstitutionKeepsValid | flux_orm/models/models.py:411-433 | a successful insert keeps every foreign key, join-table and unique constraint |
| ModelsOps.InsertRawNewsSpec | flux_orm/models/models.py:444-447 | refused with a unique violation iff the key is taken, otherwise with a foreign-key violation iff the sport is missing; on success exactly that row is added |
| ModelsOps.InsertRawNewsKeepsValid | flux_orm/models/models.py:444-447 | a successful insert keeps every foreign key, join-table and unique constraint |
| ModelsOps.InsertFormattedNewsSpec | flux_orm/models/models.py:468-471 | refused with a unique violation iff the key is taken, otherwise with a foreign-key violation iff the sport is missing; on success exactly that row is added |
| ModelsOps.InsertFormattedNewsKeepsValid | flux_orm/models/models.py:468-471 | a successful insert keeps every foreign key, join-table and unique constraint |
| ModelsOps.WithLinks | flux_orm/models/models.py:87-95 | replacing one join table sets that relation's rows and leaves every other relation and every entity table as it was |
| ModelsOps.LinksOkByRelation | flux_orm/models/models.py:87-508 | the join-table invariant holds iff, for every relation, both key columns of every join row name existing rows |
| ModelsOps.AttachSpec | flux_orm/models/models.py:87-95 | attaching is refused with a foreign-key violation iff either row is missing; on success the relation gains exactly the pair and nothing else changes |
| ModelsOps.AttachKeepsValid | flux_orm/models/models.py:87-95 | a successful attach keeps the integrity invariant |
| ModelsOps.AttachKeepsLinks | flux_orm/models/models.py:87-508 | a successful attach leaves every join row naming two existing rows |
| ModelsOps.AttachPresentIsNoOp | flux_orm/models/models.py:122-131 | attaching a pair already linked changes nothing: a join table never holds a pair twice |
| ModelsOps.AttachIdempotent | flux_orm/models/models.py:184-189 | attaching the same pair twice is the same as attaching it once |
| ModelsOps.DetachSpec | flux_orm/models/models.py:235-242 | detaching is refused with not-found iff the pair is not linked; on success exactly that join row goes and nothing else changes |
| ModelsOps.DetachKeepsValid | flux_orm/models/models.py:403-408 | a successful detach keeps the integrity invariant and both rows it untied still exist |
| ModelsOps.DetachKeepsLinks | flux_orm/models/models.py:87-508 | a successful detach leaves every join row naming two existing rows, and both untied rows still exist |
| ModelsOps.DetachUndoesAttach | flux_orm/models/models.py:347-355 | detaching a pair that an attach just added restores the database |
| ModelsCascade.ClosureIsClosed | flux_orm/models/models.py:24-168 | the rows a delete removes include the seed and are closed under every `delete` cascade |
| ModelsCascade.ClosureIsLeast | flux_orm/models/models.py:24-168 | every cascade-closed set of rows containing the seed contains the closure: a delete removes nothing no cascade demands |
| ModelsCascade.ClearStatuses | flux_orm/models/models.py:248-252 | the loop nulls `status_id` on exactly the matches whose status is deleted and leaves every other match unchanged |
| ModelsCascade.StatusClearedKeepsKeys | flux_orm/models/models.py:271-291 | nulling statuses keeps every match and keeps `external_id` and the (name, start) slot unique |
| ModelsCascade.StatusClearedSpec | flux_orm/models/models.py:248-252 | nulling one status keeps every match, leaves no match in that status, and changes no other column and no match in another status |
| ModelsCascade.DeleteKeepsRefs | flux_orm/models/models.py:279-333 | a delete that is neither refused for a null nor for a dangling key leaves every foreign key naming an existing row |
| ModelsCascade.MatchesKeepRefs | flux_orm/models/models.py:269-291 | when no surviving match keeps a deleted sport or competition, the surviving matches name existing rows, their deleted statuses being nulled |
| ModelsCascade.SubstitutionsKeepRefs | flux_orm/models/models.py:411-433 | when no surviving substitution names a deleted match, player or team, every surviving substitution names existing rows |
| ModelsCascade.LeafRefusesNothing | flux_orm/models/models.py:18-492 | a delete of rows that no foreign key or cascade starts from is never refused |
| ModelsCascade.DeleteKeepsLinks | flux_orm/models/models.py:87-508 | after a delete every join row still names two existing rows |
| ModelsCascade.DeleteKeepsUnique | flux_orm/models/models.py:21-291 | a delete keeps every unique column and unique constraint |
| ModelsCascade.DeletePreservesValid | flux_orm/models/models.py:18-512 | a delete that is not refused leaves a valid database, whatever rows it removes |
| ModelsCascade.DeleteSportSpec | flux_orm/models/models.py:24-33 | deleting a sport succeeds iff each of its matches is in one of its competitions and no news names it; it removes exactly the sport, its competitions, their categories and matches and those matches' substitutions; a stray match fails with a null violation |
| ModelsCascade.DeleteCompetitionSpec | flux_orm/models/models.py:59-75 | deleting a competition always succeeds and removes its matches, their substitutions and its categories; its teams stay, losing only their join rows |
| ModelsCascade.DeleteCategorySpec | flux_orm/models/models.py:93-110 | deleting a category always succeeds and removes exactly one join row per competition in it, and no competition |
| ModelsCascade.DeleteTeamSpec | flux_orm/models/models.py:140-168 | deleting a team succeeds iff no substitution of another team names one of its members; it removes the team, its members and its substitutions and only the join rows of its matches, competitions and coaches |
| ModelsCascade.DeleteMemberSpec | flux_orm/models/models.py:211-216 | deleting a member succeeds iff no substitution names them; it removes only the member and their `player_in_team` rows |
| ModelsCascade.MemberVerdict | flux_orm/models/models.py:426-431 | deleting a member alone nulls no match, and leaves a dangling key exactly when a substitution names them as either player |
| ModelsCascade.DeleteCoachSpec | flux_orm/models/models.py:384-389 | deleting a coach always succeeds and removes only the coach and their `coach_in_team` rows |
| ModelsCascade.DeleteStatusSpec | flux_orm/models/models.py:248-252 | deleting a status succeeds iff at most one match holds it, and otherwise fails with a foreign-key violation, since the scalar relationship nulls one match and the others still name the row (`status_id` at line 333 is not unique); on success every match survives and the one in that status loses it and nothing else |
| ModelsCascade.StatusVerdict | flux_orm/models/models.py:248-252 | deleting a status alone nulls no `sport_id`, and leaves a dangling key exactly when two or more matches hold it |
| ModelsCascade.DeleteMatchSpec | flux_orm/models/models.py:292-333 | deleting a match always succeeds and removes its substitutions and its team, statement and news join rows; sport, competition and status stay |
| ModelsCascade.DeleteStatementSpec | flux_orm/models/models.py:361-366 | deleting an AI statement always succeeds and removes only it and its join rows |
| ModelsCascade.DeleteSubstitutionSpec | flux_orm/models/models.py:411-441 | deleting a substitution always succeeds and removes that row alone |
| ModelsCascade.DeleteRawNewsSpec | flux_orm/models/models.py:444-465 | deleting a raw news item always succeeds and removes that row alone |
| ModelsCascade.DeleteFormattedNewsSpec | flux_orm/models/models.py:479-484 | deleting a formatted news item always succeeds and removes only it and its `filtered_match_in_news` rows |
| ModelsCascade.DeleteMissingSpec | flux_orm/models/models.py:18-492 | deleting a row that does not exist fails with not-found, for every table |
| ModelsCascade.DeleteSportKeepsValid | flux_orm/models/models.py:24-33 | a successful delete keeps the integrity invariant |
| ModelsCascade.DeleteCompetitionKeepsValid | flux_orm/models/models.py:59-75 | a successful delete keeps the integrity invariant |
| ModelsCascade.DeleteCategoryKeepsValid | flux_orm/models/models.py:93-110 | a successful delete keeps the integrity invariant |
| ModelsCascade.DeleteTeamKeepsValid | flux_orm/models/models.py:140-168 | a successful delete keeps the integrity invariant |
| ModelsCascade.DeleteMemberKeepsValid | flux_orm/models/models.py:211-216 | a successful delete keeps the integrity invariant |
| ModelsCascade.DeleteCoachKeepsValid | flux_orm/models/models.py:384-389 | a successful delete keeps the integrity invariant |
| ModelsCascade.DeleteStatusKeepsValid | flux_orm/models/models.py:248-252 | a successful delete keeps the integrity invariant |
| ModelsCascade.DeleteMatchKeepsValid | flux_orm/models/models.py:292-333 | a successful delete keeps the integrity invariant |
| ModelsCascade.DeleteStatementKeepsValid | flux_orm/models/models.py:361-366 | a successful delete keeps the integrity invariant |
| ModelsCascade.DeleteSubstitutionKeepsValid | flux_orm/models/models.py:411-441 | a successful delete keeps the integrity invariant |
| ModelsCascade.DeleteRawNewsKeepsValid | flux_orm/models/models.py:444-465 | a successful delete keeps the integrity invariant |
| ModelsCascade.DeleteFormattedNewsKeepsValid | flux_orm/models/models.py:479-484 | a successful delete keeps the integrity invariant |
| ModelsStore.Store.constructor | flux_orm/models/models.py:18-512 | a new store is empty and valid |
| ModelsStore.Store.AddSport | flux_orm/models/models.py:18-21 | keeps the store valid; the new tables and the verdict are those the insert function computes, and a refused insert changes nothing |
| ModelsStore.Store.AddCompetition | flux_orm/models/models.py:45-49 | keeps the store valid; the new tables and the verdict are those the insert function computes, and a refused insert changes nothing |
| ModelsStore.Store.AddCategory | flux_orm/models/models.py:98-100 | keeps the store valid; the new tables and the verdict are those the insert function computes, and a refused insert changes nothing |
| ModelsStore.Store.AddTeam | flux_orm/models/models.py:134-137 | keeps the store valid; the new tables and the verdict are those the insert function computes, and a refused insert changes nothing |
| ModelsStore.Store.AddMember | flux_orm/models/models.py:199-209 | keeps the store valid; the new tables and the verdict are those the insert function computes, and a refused insert changes nothing |
| ModelsStore.Store.AddCoach | flux_orm/models/models.py:378-380 | keeps the store valid; the new tables and the verdict are those the insert function computes, and a refused insert changes nothing |
| ModelsStore.Store.AddStatus | flux_orm/models/models.py:245-247 | keeps the store valid; the new tables and the verdict are those the insert function computes, and a refused insert changes nothing |
| ModelsStore.Store.AddMatch | flux_orm/models/models.py:269-333 | keeps the store valid; the new tables and the verdict are those the insert function computes, and a refused insert changes nothing |
| ModelsStore.Store.AddStatement | flux_orm/models/models.py:358-360 | keeps the store valid; the new tables and the verdict are those the insert function computes, and a refused insert changes nothing |
| ModelsStore.Store.AddSubstitution | flux_orm/models/models.py:411-433 | keeps the store valid; the new tables and the verdict are those the insert function computes, and a refused insert changes nothing |
| ModelsStore.Store.AddRawNews | flux_orm/models/models.py:444-447 | keeps the store valid; the new tables and the verdict are those the insert function computes, and a refused insert changes nothing |
| ModelsStore.Store.AddFormattedNews | flux_orm/models/models.py:468-471 | keeps the store valid; the new tables and the verdict are those the insert function computes, and a refused insert changes nothing |
| ModelsStore.Store.SetLinks | flux_orm/models/models.py:87-95 | replaces one join table and nothing else |
| ModelsStore.Store.SetTeamLinks | flux_orm/models/models.py:87-137 | replaces the competition-category, team-competition or player-team join table and nothing else |
| ModelsStore.Store.SetMatchLinks | flux_orm/models/models.py:87-508 | replaces the team-match, coach-team, statement-match or match-news join table and nothing else |
| ModelsStore.Store.Link | flux_orm/models/models.py:87-95 | keeps the store valid and does what an attach computes; a refused attach changes nothing |
| ModelsStore.Store.Unlink | flux_orm/models/models.py:184-189 | keeps the store valid and does what a detach computes; a refused detach changes nothing |
| ModelsStore.Store.RemoveUpper | flux_orm/models/models.py:18-181 | removes the deleted sports, competitions, categories and teams and no other row of those tables |
| ModelsStore.Store.RemoveLower | flux_orm/models/models.py:199-400 | removes the deleted members, coaches, statuses and statements and no other row of those tables |
| ModelsStore.Store.RemoveEvents | flux_orm/models/models.py:248-492 | removes the deleted matches, substitutions and news and nulls the status of surviving matches whose status is deleted |
| ModelsStore.Store.RemoveLinks | flux_orm/models/models.py:87-508 | drops exactly the join rows that name a deleted row |
| ModelsStore.Store.RemoveTableRows | flux_orm/models/models.py:18-492 | removes the planned rows from every entity table and nulls the status of surviving matches whose status is deleted |
| ModelsStore.Store.Rewrite | flux_orm/models/models.py:18-512 | the new tables are those the deletion of the planned rows computes |
| ModelsStore.Store.Remove | flux_orm/models/models.py:18-512 | refused with a null or foreign-key violation as the delete rules say, otherwise applied; keeps the store valid |
| ModelsStore.Store.RemoveSport | flux_orm/models/models.py:18-492 | keeps the store valid and does what the sport delete function computes, including not-found for a missing row |
| ModelsStore.Store.RemoveCompetition | flux_orm/models/models.py:18-492 | keeps the store valid and does what the competition delete function computes, including not-found for a missing row |
| ModelsStore.Store.RemoveCategory | flux_orm/models/models.py:18-492 | keeps the store valid and does what the category delete function computes, including not-found for a missing row |
| ModelsStore.Store.RemoveTeam | flux_orm/models/models.py:18-492 | keeps the store valid and does what the team delete function computes, including not-found for a missing row |
| ModelsStore.Store.RemoveMember | flux_orm/models/models.py:18-492 | keeps the store valid and does what the member delete function computes, including not-found for a missing row |
| ModelsStore.Store.RemoveCoach | flux_orm/models/models.py:18-492 | keeps the store valid and does what the coach delete function computes, including not-found for a missing row |
| ModelsStore.Store.RemoveStatus | flux_orm/models/models.py:18-492 | keeps the store valid and does what the status delete function computes, including not-found for a missing row |
| ModelsStore.Store.RemoveMatch | flux_orm/models/models.py:18-492 | keeps the store valid and does what the match delete function computes, including not-found for a missing row |
| ModelsStore.Store.RemoveStatement | flux_orm/models/models.py:18-492 | keeps the store valid and does what the statement delete function computes, including not-found for a missing row |
| ModelsStore.Store.RemoveSubstitution | flux_orm/models/models.py:18-492 | keeps the store valid and does what the substitution delete function computes, including not-found for a missing row |
| ModelsStore.Store.RemoveRawNews | flux_orm/models/models.py:18-492 | keeps the store valid and does what the rawnews delete function computes, including not-found for a missing row |
| ModelsStore.Store.RemoveFormattedNews | flux_orm/models/models.py:18-492 | keeps the store valid and does what the formattednews delete function computes, including not-found for a missing row |
| CsSchema.EmptyValid | flux_orm/cs/models.py:14-287 | an empty database satisfies every foreign key, join-table and unique constraint of the variant schema |
| CsSchema.SameRowsValid | flux_orm/cs/models.py:62-270 | a change to the join tables alone keeps the invariant whenever every join row still names two existing rows |
| CsSchema.OneMatchPerStatus | flux_orm/cs/models.py:229 | in a valid database at most one match holds a given status |
| CsOps.InsertSportSpec | flux_orm/cs/models.py:14-19 | refused with a unique violation iff the key is taken (names are not unique here); on success exactly that row is added |
| CsOps.InsertSportKeepsValid | flux_orm/cs/models.py:14-19 | a successful insert keeps the integrity invariant, including one match per status |
| CsOps.InsertCompetitionSpec | flux_orm/cs/models.py:28-34 | refused with a unique violation iff the key is taken, otherwise with a foreign-key violation iff the sport is missing; on success exactly that row is added |
| CsOps.InsertCompetitionKeepsValid | flux_orm/cs/models.py:28-34 | a successful insert keeps the integrity invariant, including one match per status |
| CsOps.InsertCategorySpec | flux_orm/cs/models.py:71-76 | refused with a unique violation iff the key is taken; on success exactly that row is added |
| CsOps.InsertCategoryKeepsValid | flux_orm/cs/models.py:71-76 | a successful insert keeps the integrity invariant, including one match per status |
| CsOps.InsertTeamSpec | flux_orm/cs/models.py:97-100 | refused with a unique violation iff the key is taken; on success exactly that row is added |
| CsOps.InsertTeamKeepsValid | flux_orm/cs/models.py:97-100 | a successful insert keeps the integrity invariant, including one match per status |
| CsOps.InsertMemberSpec | flux_orm/cs/models.py:154-169 | refused with a unique violation iff the key is taken (no composite unique here); on success exactly that row is added |
| CsOps.InsertMemberKeepsValid | flux_orm/cs/models.py:154-169 | a successful insert keeps the integrity invariant, including one match per status |
| CsOps.InsertCoachSpec | flux_orm/cs/models.py:252-257 | refused with a unique violation iff the key is taken; on success exactly that row is added |
| CsOps.InsertCoachKeepsValid | flux_orm/cs/models.py:252-257 | a successful insert keeps the integrity invariant, including one match per status |
| CsOps.InsertStatusSpec | flux_orm/cs/models.py:180-189 | refused with a unique violation iff the key is taken; on success exactly that row is added |
| CsOps.InsertStatusKeepsValid | flux_orm/cs/models.py:180-189 | a successful insert keeps the integrity invariant, including one match per status |
| CsOps.InsertMatchSpec | flux_orm/cs/models.py:192-231 | refused with a unique violation iff the key or the status is already taken, and otherwise with a foreign-key violation iff the competition or status is missing; on success exactly that row is added |
| CsOps.InsertMatchKeepsValid | flux_orm/cs/models.py:192-231 | a successful insert keeps the integrity invariant, including one match per status |
| CsOps.InsertMatchOwnsStatus | flux_orm/cs/models.py:229 | after a match is inserted it is the only match in its status |
| CsOps.InsertStatementSpec | flux_orm/cs/models.py:242-244 | refused with a unique violation iff the key is taken; on success exactly that row is added |
| CsOps.InsertStatementKeepsValid | flux_orm/cs/models.py:242-244 | a successful insert keeps the integrity invariant, including one match per status |
| CsOps.InsertSubstitutionSpec | flux_orm/cs/models.py:273-287 | refused with a unique violation iff the key is taken, otherwise with a foreign-key violation iff the match, either player or the team is missing; on success exactly that row is added |
| CsOps.InsertSubstitutionKeepsValid | flux_orm/cs/models.py:273-287 | a successful insert keeps the integrity invariant, including one match per status |
| CsOps.WithLinks | flux_orm/cs/models.py:62-68 | replacing one join table sets that relation's rows and leaves every other relation and every entity table as it was |
| CsOps.LinksOkByRelation | flux_orm/cs/models.py:62-270 | the join-table invariant holds iff, for every relation, both key columns of every join row name existing rows |
| CsOps.AttachSpec | flux_orm/cs/models.py:85-94 | attaching is refused with a foreign-key violation iff either row is missing; on success the relation gains exactly the pair |
| CsOps.AttachKeepsValid | flux_orm/cs/models.py:141-144 | a successful attach keeps the integrity invariant |
| CsOps.AttachKeepsLinks | flux_orm/cs/models.py:62-270 | a successful attach leaves every join row naming two existing rows |
| CsOps.AttachPresentIsNoOp | flux_orm/cs/models.py:172-177 | attaching a pair already linked changes nothing |
| CsOps.AttachIdempotent | flux_orm/cs/models.py:141-144 | attaching the same pair twice is the same as attaching it once |
| CsOps.DetachSpec | flux_orm/cs/models.py:115-129 | detaching is refused with not-found iff the pair is not linked; on success exactly that join row goes |
| CsOps.DetachKeepsValid | flux_orm/cs/models.py:258-270 | a successful detach keeps the integrity invariant and the detached member or coach and the team still exist |
| CsOps.DetachKeepsLinks | flux_orm/cs/models.py:62-270 | a successful detach leaves every join row naming two existing rows, and both untied rows still exist |
| CsOps.DetachUndoesAttach | flux_orm/cs/models.py:234-239 | detaching a pair that an attach just added restores the database |
| CsCascade.ClosureIsClosed | flux_orm/cs/models.py:20-249 | the rows a delete removes include the seed and are closed under every `delete` cascade, including statement to match |
| CsCascade.ClosureIsLeast | flux_orm/cs/models.py:20-249 | every cascade-closed set of rows containing the seed contains the closure |
| CsCascade.DeleteKeepsRefs | flux_orm/cs/models.py:222-287 | a delete refused neither for a null nor for a dangling key leaves every foreign key naming an existing row |
| CsCascade.LeafRefusesNothing | flux_orm/cs/models.py:14-287 | a delete of rows that no foreign key or cascade starts from is never refused |
| CsCascade.DeleteKeepsLinks | flux_orm/cs/models.py:62-270 | after a delete every join row still names two existing rows |
| CsCascade.DeletePreservesValid | flux_orm/cs/models.py:14-287 | a delete that is not refused leaves a valid database |
| CsCascade.DeleteSportSpec | flux_orm/cs/models.py:20-25 | deleting a sport always succeeds and removes exactly the sport, its competitions, their categories and matches and those matches' substitutions |
| CsCascade.DeleteCompetitionSpec | flux_orm/cs/models.py:40-59 | deleting a competition always succeeds and removes its matches with their substitutions and its categories; its teams stay |
| CsCascade.DeleteCategorySpec | flux_orm/cs/models.py:66-82 | deleting a category always succeeds and removes exactly one join row per competition in it, and no competition |
| CsCascade.DeleteTeamSpec | flux_orm/cs/models.py:101-134 | deleting a team succeeds iff no substitution of another team names one of its members; it removes the team, its members and its substitutions, and its matches and competitions stay |
| CsCascade.DeleteMemberSpec | flux_orm/cs/models.py:157-163 | deleting a member succeeds iff no substitution names them; it removes only the member and their links |
| CsCascade.MemberVerdict | flux_orm/cs/models.py:284-285 | deleting a member alone nulls no match, and leaves a dangling key exactly when a substitution names them as either player |
| CsCascade.DeleteCoachSpec | flux_orm/cs/models.py:258-262 | deleting a coach always succeeds and removes only the coach and their links |
| CsCascade.DeleteStatusSpec | flux_orm/cs/models.py:183-186 | deleting a status succeeds iff no match holds it and then removes that row alone; otherwise it fails with a null violation |
| CsCascade.StatusHeld | flux_orm/cs/models.py:183-186 | deleting a status alone would null a match exactly when some match holds that status |
| CsCascade.DeleteMatchSpec | flux_orm/cs/models.py:196-221 | deleting a match always succeeds and removes its substitutions and its join rows; its status and competition stay |
| CsCascade.DeleteStatementSpec | flux_orm/cs/models.py:245-249 | deleting an AI statement always succeeds and deletes every match linked to it, with their substitutions |
| CsCascade.DeleteSubstitutionSpec | flux_orm/cs/models.py:273-287 | deleting a substitution always succeeds and removes that row alone |
| CsCascade.DeleteMissingSpec | flux_orm/cs/models.py:14-287 | deleting a row that does not exist fails with not-found, for every table |
| CsCascade.DeleteSportKeepsValid | flux_orm/cs/models.py:20-25 | a successful delete keeps the integrity invariant |
| CsCascade.DeleteCompetitionKeepsValid | flux_orm/cs/models.py:40-59 | a successful delete keeps the integrity invariant |
| CsCascade.DeleteCategoryKeepsValid | flux_orm/cs/models.py:66-82 | a successful delete keeps the integrity invariant |
| CsCascade.DeleteTeamKeepsValid | flux_orm/cs/models.py:101-134 | a successful delete keeps the integrity invariant |
| CsCascade.DeleteMemberKeepsValid | flux_orm/cs/models.py:157-163 | a successful delete keeps the integrity invariant |
| CsCascade.DeleteCoachKeepsValid | flux_orm/cs/models.py:258-262 | a successful delete keeps the integrity invariant |
| CsCascade.DeleteStatusKeepsValid | flux_orm/cs/models.py:183-186 | a successful delete keeps the integrity invariant |
| CsCascade.DeleteMatchKeepsValid | flux_orm/cs/models.py:196-221 | a successful delete keeps the integrity invariant |
| CsCascade.DeleteStatementKeepsValid | flux_orm/cs/models.py:245-249 | a successful delete keeps the integrity invariant |
| CsCascade.DeleteSubstitutionKeepsValid | flux_orm/cs/models.py:273-287 | a successful delete keeps the integrity invariant |
| CsStore.Store.constructor | flux_orm/cs/models.py:14-287 | a new store is empty and valid |
| CsStore.Store.AddSport | flux_orm/cs/models.py:14-19 | keeps the store valid; the new tables and the verdict are those the insert function computes, and a refused insert changes nothing |
| CsStore.Store.AddCompetition | flux_orm/cs/models.py:28-34 | keeps the store valid; the new tables and the verdict are those the insert function computes, and a refused insert changes nothing |
| CsStore.Store.AddCategory | flux_orm/cs/models.py:71-76 | keeps the store valid; the new tables and the verdict are those the insert function computes, and a refused insert changes nothing |
| CsStore.Store.AddTeam | flux_orm/cs/models.py:97-100 | keeps the store valid; the new tables and the verdict are those the insert function computes, and a refused insert changes nothing |
| CsStore.Store.AddMember | flux_orm/cs/models.py:154-169 | keeps the store valid; the new tables and the verdict are those the insert function computes, and a refused insert changes nothing |
| CsStore.Store.AddCoach | flux_orm/cs/models.py:252-257 | keeps the store valid; the new tables and the verdict are those the insert function computes, and a refused insert changes nothing |
| CsStore.Store.AddStatus | flux_orm/cs/models.py:180-189 | keeps the store valid; the new tables and the verdict are those the insert function computes, and a refused insert changes nothing |
| CsStore.Store.AddMatch | flux_orm/cs/models.py:192-231 | keeps the store valid; the new tables and the verdict are those the insert function computes, and a refused insert changes nothing |
| CsStore.Store.AddStatement | flux_orm/cs/models.py:242-244 | keeps the store valid; the new tables and the verdict are those the insert function computes, and a refused insert changes nothing |
| CsStore.Store.AddSubstitution | flux_orm/cs/models.py:273-287 | keeps the store valid; the new tables and the verdict are those the insert function computes, and a refused insert changes nothing |
| CsStore.Store.SetLinks | flux_orm/cs/models.py:62-68 | replaces one join table and nothing else |
| CsStore.Store.SetTeamLinks | flux_orm/cs/models.py:62-134 | replaces the competition-category, team-competition or player-team join table and nothing else |
| CsStore.Store.SetMatchLinks | flux_orm/cs/models.py:62-270 | replaces the team-match, coach-team or statement-match join table and nothing else |
| CsStore.Store.Link | flux_orm/cs/models.py:85-94 | keeps the store valid and does what an attach computes; a refused attach changes nothing |
| CsStore.Store.Unlink | flux_orm/cs/models.py:115-129 | keeps the store valid and does what a detach computes; a refused detach changes nothing |
| CsStore.Store.RemoveUpper | flux_orm/cs/models.py:14-138 | removes the deleted sports, competitions, categories and teams and no other row of those tables |
| CsStore.Store.RemoveLower | flux_orm/cs/models.py:154-264 | removes the deleted members, coaches, statuses and statements and no other row of those tables |
| CsStore.Store.RemoveEvents | flux_orm/cs/models.py:192-287 | removes the deleted matches and substitutions and no other row |
| CsStore.Store.RemoveLinks | flux_orm/cs/models.py:62-270 | drops exactly the join rows that name a deleted row |
| CsStore.Store.RemoveTableRows | flux_orm/cs/models.py:14-287 | removes the planned rows from every entity table and no other row |
| CsStore.Store.Rewrite | flux_orm/cs/models.py:14-287 | the new tables are those the deletion of the planned rows computes |
| CsStore.Store.Remove | flux_orm/cs/models.py:14-287 | refused with a null or foreign-key violation as the delete rules say, otherwise applied; keeps the store valid |
| CsStore.Store.RemoveSport | flux_orm/cs/models.py:14-287 | keeps the store valid and does what the sport delete function computes, including not-found for a missing row |
| CsStore.Store.RemoveCompetition | flux_orm/cs/models.py:14-287 | keeps the store valid and does what the competition delete function computes, including not-found for a missing row |
| CsStore.Store.RemoveCategory | flux_orm/cs/models.py:14-287 | keeps the store valid and does what the category delete function computes, including not-found for a missing row |
| CsStore.Store.RemoveTeam | flux_orm/cs/models.py:14-287 | keeps the store valid and does what the team delete function computes, including not-found for a missing row |
| CsStore.Store.RemoveMember | flux_orm/cs/models.py:14-287 | keeps the store valid and does what the member delete function computes, including not-found for a missing row |
| CsStore.Store.RemoveCoach | flux_orm/cs/models.py:14-287 | keeps the store valid and does what the coach delete function computes, including not-found for a missing row |
| CsStore.Store.RemoveStatus | flux_orm/cs/models.py:14-287 | keeps the store valid and does what the status delete function computes, including not-found for a missing row |
| CsStore.Store.RemoveMatch | flux_orm/cs/models.py:14-287 | keeps the store valid and does what the match delete function computes, including not-found for a missing row |
| CsStore.Store.RemoveStatement | flux_orm/cs/models.py:14-287 | keeps the store valid and does what the statement delete function computes, including not-found for a missing row |
| CsStore.Store.RemoveSubstitution | flux_orm/cs/models.py:14-287 | keeps the store valid and does what the substitution delete function computes, including not-found for a missing row |
| Serialize.ConvertIsJsonReady | flux_orm/models/utils.py:13-19 | a converted value is neither a UUID nor a datetime, converting again changes nothing, and any other value is copied unchanged |
| Serialize.ToDictKeys | flux_orm/models/utils.py:9-10 | the dictionary has exactly one key per column name |
| Serialize.ToDictValue | flux_orm/models/utils.py:10-19 | the entry of a column name holds the converted value of the last column with that name |
| Serialize.ToDictJsonReady | flux_orm/models/utils.py:8-19 | every value of the dictionary is JSON-serializable |
| Serialize.ModelToDict | flux_orm/models/utils.py:7-20 | the loop builds the dictionary column by column: one key per column name, each holding its column's converted value, every value JSON-ready; the row is a value and is not changed |
| Serialize.DistinctNamesEachKept | flux_orm/models/utils.py:10-19 | when column names are distinct, every column appears with its own converted value |
| UsedUrlTable.UsedUrls.constructor | flux_orm/models/utils_models.py:8-11 | the table starts empty and its `used_at` default is the one time read when the mapping is defined |
| UsedUrlTable.UsedUrls.Insert | flux_orm/models/utils_models.py:8-11 | an existing URL is refused and nothing changes; otherwise exactly that row is added with the given time or the fixed default, and no other row changes |
| UsedUrlTable.UsedUrls.Delete | flux_orm/models/utils_models.py:8-11 | a missing URL gives not-found; otherwise exactly that row goes |

## Left out

- Sessions, engines, connection pools, migrations, DDL and configuration (`flux_orm/database.py`, `flux_orm/config.py`, `flux_orm/migrations/env.py`, `flux_orm/__main__.py`): they are I/O against PostgreSQL.
- Identifier generation: `uuid6()` keys are abstract ids (`Id = nat`) that the caller supplies. A key that collides is refused with `UniqueViolation`.
- Timestamps: `created_at`/`updated_at` are not carried in the rows, and `onupdate` is not modelled. Like `used_at`, their defaults are evaluated once, when the class is defined.
- Updates of existing rows, including in-place changes to `MutableDict` JSON columns: no operation of the model edits a row other than through a delete. JSON values are opaque whole values (`Json`).
- Payload columns of join tables (`place`, `stats`, `respective_relevance`): a join table is the set of its key pairs.
- Loading strategies (`lazy="joined"`), `expire_on_commit`, flush ordering within one transaction, and rollback after an error: a refused operation changes nothing, as the transaction that raises is rolled back.
- The warning SQLAlchemy gives when the scalar `MatchStatus.match` of the package schema loads several matches: the model has no warnings, and it refuses that status delete because the matches left un-nulled still name the status.
- `save-update`, `merge` and `expunge` cascades: these act on the session, not on the stored rows.
- `Enums.Lookup`: lowercasing maps only ASCII letters. Python's `str.lower` is Unicode-aware. `str(value)` of a non-string object is an opaque text supplied by the caller.
- `Serialize.ModelToDict`: the order of the dictionary's keys is not modelled, only its contents. `str(uuid)` and `datetime.isoformat()` are functions supplied by the caller.
- `flux_orm/cs/utils_models.py`: this is the same url-keyed table as `UsedUrlTable`, with a timezone-aware default.
- `cs/main_page_models.py` and `cs/match_page_models.py` are draft column listings with no cascades or uniques, so they are not part of this model.
- Both schemas register the same table names on one metadata. They are modelled as two separate databases.
