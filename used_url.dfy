/** The `used_url` table of flux_orm/models/utils_models.py: the URLs already
    processed, keyed by the URL itself, each with the time it was used. The
    column default of `used_at` is the value of `utcnow_naive()` taken once,
    when the class is defined, so it is a constant of the table object here:
    every row inserted without an explicit time gets that same time. */
module UsedUrlTable {
  import opened Common

  class UsedUrls {
    /** url -> used_at */
    var rows: map<string, DateTime>
    /** The one `used_at` default, fixed when the mapping is defined. */
    const defaultUsedAt: DateTime

    /** The table as the mapping defines it: empty, with the clock read once. */
    constructor(definedAt: DateTime)
      ensures rows == map[] && defaultUsedAt == definedAt
    {
      rows := map[];
      defaultUsedAt := definedAt;
    }

    /** `session.add(UsedUrl(url=..., used_at=...))` and flush. The URL is the
        primary key, so an existing URL is refused and nothing changes;
        otherwise exactly that row is added, with the given time or the
        default, and no other row changes. */
    method Insert(url: string, usedAt: Option<DateTime>) returns (r: Outcome)
      modifies this
      ensures old(url in rows) ==> r == Fail(UniqueViolation) && rows == old(rows)
      ensures old(url !in rows) ==>
        && r == Pass
        && Added(old(rows), rows, url, if usedAt.Some? then usedAt.value else defaultUsedAt)
    {
      if url in rows {
        return Fail(UniqueViolation);
      }
      var stamp := if usedAt.Some? then usedAt.value else defaultUsedAt;
      rows := rows[url := stamp];
      r := Pass;
    }

    /** `session.delete(row)` and flush: removes that row alone; the table
        has no foreign keys, so no other table is touched. */
    method Delete(url: string) returns (r: Outcome)
      modifies this
      ensures old(url !in rows) ==> r == Fail(NotFound) && rows == old(rows)
      ensures old(url in rows) ==> r == Pass && rows == old(rows) - {url}
    {
      if url !in rows {
        return Fail(NotFound);
      }
      rows := rows - {url};
      r := Pass;
    }
  }
}
