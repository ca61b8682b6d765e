/** `getTeamData`: cache-aside lookup of a team, falling back to the
    database whenever anything about the cache goes wrong. */
module TeamCache {
  import opened Wrappers
  import opened Types
  import opened CacheKeys

  /** What one call does: its answer, the cache write it attempts and how
      many times it queries `teams`. */
  datatype Lookup = Lookup(result: Result<Team>, write: Option<CacheWrite>, dbQueries: nat)

  const TeamNotFound := "Team not found"

  /** `fetchTeamFromDB`: the row, or the exception for a missing team. */
  function FetchTeam(db: Option<Team>): Result<Team> {
    if db.Some? then Success(db.value) else Failure(TeamNotFound)
  }

  /** `getTeamData(teamId)`. `read` is the outcome of `redis.get`, `db` the
      row `teams` holds for the id, `writeFails` whether `redis.set` throws.
      Every exception inside the `try` lands in the `catch`, which queries
      the database once more. */
  function GetTeamData(teamId: string, read: CacheRead<Team>, db: Option<Team>, writeFails: bool): (l: Lookup)
    // A cached team is returned as it is, without touching the database.
    ensures read.Hit? ==> l == Lookup(Success(read.value), None, 0)
    // Otherwise the answer is the database's, whatever the cache did.
    ensures !read.Hit? ==> l.result == FetchTeam(db)
    // The only error that surfaces is the missing team.
    ensures l.result.Failure? ==> l.result.error == TeamNotFound && db.None?
    // The cache is written only after a miss, with the team just read.
    ensures l.write.Some? <==> read.Miss? && db.Some?
    ensures l.write.Some? ==> l.write.value == CacheWrite(TeamKey(teamId), TeamValue(db.value), TeamCacheTtl)
  {
    match read
    case Hit(team) => Lookup(Success(team), None, 0)
    case ReadFails => Lookup(FetchTeam(db), None, 1)
    case Miss =>
      if db.None? then
        // the first query throws "Team not found"; the catch queries again
        Lookup(FetchTeam(db), None, 2)
      else
        var w := CacheWrite(TeamKey(teamId), TeamValue(db.value), TeamCacheTtl);
        Lookup(Success(db.value), Some(w), if writeFails then 2 else 1)
  }

  /** Cache transparency: as long as the cache holds nothing or what the
      database holds, every call answers what the database answers, and the
      value a miss writes makes the next call answer the same. */
  lemma CacheIsTransparent(teamId: string, read: CacheRead<Team>, db: Option<Team>, writeFails: bool)
    requires read.Hit? ==> db == Some(read.value)
    ensures GetTeamData(teamId, read, db, writeFails).result == FetchTeam(db)
    ensures var l := GetTeamData(teamId, read, db, writeFails);
      l.write.Some? ==> GetTeamData(teamId, Hit(l.write.value.value.team), db, writeFails).result == l.result
  {
  }
}
