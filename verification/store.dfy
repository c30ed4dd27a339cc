/** The game store both servers keep (football-api/index.js and server.js):
    the games, plays and users tables as in-memory maps with autoincrement
    counters, request bodies as ordered JSON objects, and the allow-list
    filter that turns a PUT body into an UPDATE statement. */
module Store {
  import opened Common

  /** A JSON value as the client sends it. `Pair` is the `{home, away}`
      object of timeout counts. */
  datatype Value = Int(i: int) | Str(s: string) | Bool(b: bool) | Null | Pair(home: int, away: int)

  /** A JSON object: its keys in insertion order, as `Object.keys` lists them. */
  type Fields = seq<(string, Value)>

  /** `obj[key] = value`: a new key goes last, an existing key keeps its place. */
  function SetField(f: Fields, key: string, v: Value): (r: Fields)
    ensures (forall j :: 0 <= j < |f| ==> f[j].0 != key) ==> r == f + [(key, v)]
  {
    if f == [] then [(key, v)]
    else if f[0].0 == key then [(key, v)] + f[1..]
    else [f[0]] + SetField(f[1..], key, v)
  }

  /** Setting a key the object already has replaces the value of its first
      occurrence in place and keeps every other pair. */
  lemma {:induction false} SetFieldReplacesFirst(f: Fields, key: string, v: Value, i: nat)
    requires i < |f| && f[i].0 == key
    requires forall j :: 0 <= j < i ==> f[j].0 != key
    ensures SetField(f, key, v) == f[..i] + [(key, v)] + f[i + 1..]
  {
    if i == 0 {
      assert SetField(f, key, v) == [(key, v)] + f[1..];
      assert f[..0] == [];
    } else {
      var tail := f[1..];
      assert SetField(f, key, v) == [f[0]] + SetField(tail, key, v);
      forall j | 0 <= j < i - 1 ensures tail[j].0 != key {
        assert tail[j] == f[j + 1];
      }
      SetFieldReplacesFirst(tail, key, v, i - 1);
      var pre := tail[..i - 1];
      var post := tail[i..];
      assert f[..i] == [f[0]] + pre;
      assert post == f[i + 1..];
      calc {
        SetField(f, key, v);
        [f[0]] + SetField(tail, key, v);
        [f[0]] + (pre + [(key, v)] + post);
        ([f[0]] + pre) + [(key, v)] + post;
      }
    }
  }

  /** The columns a PUT may change, in the order the servers list them. */
  const AllowedFields: seq<string> := [
    "home_team", "away_team", "home_score", "away_score", "quarter",
    "time_left", "is_clock_running", "down", "distance", "yard_line",
    "possession", "home_timeouts", "away_timeouts"]

  /** The allow-listed pairs of a request body, in request order. */
  function AllowedUpdates(updates: Fields): (r: Fields)
    ensures |r| <= |updates|
    ensures forall i :: 0 <= i < |r| ==> r[i].0 in AllowedFields
  {
    if updates == [] then []
    else
      var last := updates[|updates| - 1];
      AllowedUpdates(updates[..|updates| - 1]) + (if last.0 in AllowedFields then [last] else [])
  }

  /** The filter keeps exactly the allow-listed pairs. */
  lemma {:induction false} AllowedUpdatesMembers(updates: Fields)
    ensures forall p :: p in AllowedUpdates(updates) <==> p in updates && p.0 in AllowedFields
  {
    if updates != [] {
      var n := |updates| - 1;
      AllowedUpdatesMembers(updates[..n]);
      assert updates == updates[..n] + [updates[n]];
    }
  }

  /** Nothing is left exactly when no key of the body is allow-listed. */
  lemma {:induction false} AllowedUpdatesEmpty(updates: Fields)
    ensures AllowedUpdates(updates) == [] <==> forall i :: 0 <= i < |updates| ==> updates[i].0 !in AllowedFields
  {
    if updates != [] {
      var n := |updates| - 1;
      AllowedUpdatesEmpty(updates[..n]);
      assert forall i :: 0 <= i < n ==> updates[..n][i] == updates[i];
    }
  }

  /** A body whose keys are all allow-listed passes unchanged. */
  lemma {:induction false} AllowedUpdatesKeepsAllowed(updates: Fields)
    requires forall i :: 0 <= i < |updates| ==> updates[i].0 in AllowedFields
    ensures AllowedUpdates(updates) == updates
  {
    if updates != [] {
      var n := |updates| - 1;
      AllowedUpdatesKeepsAllowed(updates[..n]);
      assert updates == updates[..n] + [updates[n]];
    }
  }

  /** The UPDATE statement a PUT runs: one `column = ?` per allow-listed key,
      then `updated_at = CURRENT_TIMESTAMP`, and the placeholder values with
      the game id last. */
  datatype UpdateStatement = UpdateStatement(columns: seq<string>, values: seq<Value>)

  /** The pairs an UPDATE statement assigns, rebuilt from its two lists. */
  function Assignments(columns: seq<string>, values: seq<Value>): (r: Fields)
    requires |columns| <= |values|
    ensures |r| == |columns|
    ensures forall i :: 0 <= i < |columns| ==> r[i] == (columns[i], values[i])
  {
    seq(|columns|, i requires 0 <= i < |columns| => (columns[i], values[i]))
  }

  /** The `forEach` over the body's keys that fills `updateFields` and
      `values`; nothing when no key is allow-listed. */
  method BuildUpdate(updates: Fields, gameId: int) returns (r: Option<UpdateStatement>)
    ensures r.None? <==> AllowedUpdates(updates) == []
    ensures r.Some? ==>
              var allowed := AllowedUpdates(updates);
              && |r.value.columns| == |allowed|
              && |r.value.values| == |allowed| + 1
              && (forall i :: 0 <= i < |allowed| ==>
                    r.value.columns[i] == allowed[i].0 && r.value.values[i] == allowed[i].1)
              && r.value.values[|allowed|] == Int(gameId)
  {
    var updateFields: seq<string> := [];
    var values: seq<Value> := [];
    var i := 0;
    while i < |updates|
      invariant 0 <= i <= |updates|
      invariant |updateFields| == |values| == |AllowedUpdates(updates[..i])|
      invariant forall k :: 0 <= k < |values| ==>
                  updateFields[k] == AllowedUpdates(updates[..i])[k].0 &&
                  values[k] == AllowedUpdates(updates[..i])[k].1
    {
      assert updates[..i + 1][..i] == updates[..i];
      if updates[i].0 in AllowedFields {
        updateFields := updateFields + [updates[i].0];
        values := values + [updates[i].1];
      }
      i := i + 1;
    }
    assert updates[..i] == updates;
    if |updateFields| == 0 {
      return None;
    }
    values := values + [Int(gameId)];
    r := Some(UpdateStatement(updateFields, values));
  }

  // ---------------------------------------------------------------------------
  // Tables

  /** A games row, column by column. */
  type Game = map<string, Value>

  /** The row `INSERT INTO games (home_team, away_team)` creates: the schema
      defaults for every other column. */
  function NewGame(homeTeam: string, awayTeam: string): (g: Game)
    ensures IsActive(g)
    ensures forall k :: k in AllowedFields ==> k in g
  {
    map["home_team" := Str(homeTeam), "away_team" := Str(awayTeam),
        "home_score" := Int(0), "away_score" := Int(0), "quarter" := Int(1),
        "time_left" := Int(900), "is_clock_running" := Bool(false),
        "down" := Int(1), "distance" := Int(10), "yard_line" := Int(50),
        "possession" := Str("home"), "home_timeouts" := Int(3), "away_timeouts" := Int(3),
        "game_status" := Str("active")]
  }

  predicate IsActive(g: Game)
  {
    "game_status" in g && g["game_status"] == Str("active")
  }

  /** The SET list applied to a row, left to right. */
  function ApplyUpdates(g: Game, f: Fields): (r: Game)
    ensures forall k :: k in r <==> k in g || k in Keys(f)
  {
    if f == [] then g
    else
      assert Keys(f) == Keys(f[..|f| - 1]) + [f[|f| - 1].0];
      ApplyUpdates(g, f[..|f| - 1])[f[|f| - 1].0 := f[|f| - 1].1]
  }

  /** A column the list does not name keeps its value (or stays absent). */
  lemma {:induction false} ApplyUpdatesOther(g: Game, f: Fields, k: string)
    requires forall j :: 0 <= j < |f| ==> f[j].0 != k
    ensures k in ApplyUpdates(g, f) <==> k in g
    ensures k in g ==> ApplyUpdates(g, f)[k] == g[k]
  {
    if f != [] {
      ApplyUpdatesOther(g, f[..|f| - 1], k);
    }
  }

  /** A column holds the value of its last mention in the list. */
  lemma {:induction false} ApplyUpdatesLast(g: Game, f: Fields, i: nat)
    requires i < |f|
    requires forall j :: i < j < |f| ==> f[j].0 != f[i].0
    ensures f[i].0 in ApplyUpdates(g, f) && ApplyUpdates(g, f)[f[i].0] == f[i].1
  {
    var n := |f| - 1;
    if i < n {
      assert f[..n][i] == f[i];
      ApplyUpdatesLast(g, f[..n], i);
    }
  }

  /** The game row the client reads: the active game with the largest id. */
  ghost predicate IsLatestActive(games: map<int, Game>, id: int)
  {
    id in games && IsActive(games[id]) &&
    forall k :: k in games && IsActive(games[k]) ==> k <= id
  }

  datatype Play = Play(id: int, gameId: int, playText: string, team: Option<string>,
                       quarter: int, gameTime: int, possession: Option<string>)

  datatype User = User(id: int, username: string, passwordHash: string, role: string)

  /** The database: the three tables and their AUTOINCREMENT counters. */
  class Database {
    var games: map<int, Game>
    var plays: map<int, Play>
    var users: map<int, User>
    var lastGameId: int
    var lastPlayId: int
    var lastUserId: int

    /** Row ids never exceed their table's counter, a row's key is its id,
        and no two users share a name (`username TEXT UNIQUE`). */
    ghost predicate Valid()
      reads this
    {
      && (forall id :: id in games ==> id <= lastGameId)
      && (forall id :: id in plays ==> id <= lastPlayId && plays[id].id == id)
      && (forall id :: id in users ==> id <= lastUserId && users[id].id == id)
      && UniqueUsernames()
    }

    ghost predicate UniqueUsernames()
      reads this
    {
      forall a, b :: a in users && b in users && users[a].username == users[b].username ==> a == b
    }

    constructor ()
      ensures Valid()
      ensures games == map[] && plays == map[] && users == map[]
    {
      games := map[];
      plays := map[];
      users := map[];
      lastGameId := 0;
      lastPlayId := 0;
      lastUserId := 0;
    }

    /** `UPDATE games SET ... WHERE id = ?`: the number of rows changed. */
    method UpdateGame(id: int, f: Fields) returns (changes: int)
      requires Valid()
      modifies this
      ensures Valid()
      ensures id in old(games) ==> changes == 1 && games == old(games)[id := ApplyUpdates(old(games)[id], f)]
      ensures id !in old(games) ==> changes == 0 && games == old(games)
      ensures plays == old(plays) && users == old(users)
      ensures lastGameId == old(lastGameId) && lastPlayId == old(lastPlayId) && lastUserId == old(lastUserId)
    {
      if id in games {
        games := games[id := ApplyUpdates(games[id], f)];
        changes := 1;
      } else {
        changes := 0;
      }
    }

    /** `SELECT id FROM games WHERE game_status = "active" ORDER BY id DESC LIMIT 1` */
    method LatestActiveGame() returns (r: Option<int>)
      ensures r.Some? ==> r.value in games && IsActive(games[r.value]) &&
                          forall id :: id in games && IsActive(games[id]) ==> id <= r.value
      ensures r.None? ==> forall id :: id in games ==> !IsActive(games[id])
    {
      var remaining := games.Keys;
      r := None;
      while exists id :: id in remaining
        invariant remaining <= games.Keys
        invariant r.Some? ==> r.value in games && IsActive(games[r.value])
        invariant forall id :: id in games && id !in remaining && IsActive(games[id]) ==>
                    r.Some? && id <= r.value
        decreases remaining
      {
        var id :| id in remaining;
        if IsActive(games[id]) && (r.None? || id > r.value) {
          r := Some(id);
        }
        remaining := remaining - {id};
      }
    }

    /** `UPDATE games SET game_status = "completed" WHERE id = ?` */
    method CompleteGame(id: int)
      requires Valid()
      modifies this
      ensures Valid()
      ensures id in old(games) ==> games == old(games)[id := old(games)[id]["game_status" := Str("completed")]]
      ensures id !in old(games) ==> games == old(games)
      ensures plays == old(plays) && users == old(users)
      ensures lastGameId == old(lastGameId) && lastPlayId == old(lastPlayId) && lastUserId == old(lastUserId)
    {
      if id in games {
        games := games[id := games[id]["game_status" := Str("completed")]];
      }
    }

    /** `DELETE FROM plays WHERE game_id = ?` */
    method DeletePlaysOf(gameId: int)
      requires Valid()
      modifies this
      ensures Valid()
      ensures plays == map id | id in old(plays) && old(plays)[id].gameId != gameId :: old(plays)[id]
      ensures games == old(games) && users == old(users)
      ensures lastGameId == old(lastGameId) && lastPlayId == old(lastPlayId) && lastUserId == old(lastUserId)
    {
      plays := map id | id in plays && plays[id].gameId != gameId :: plays[id];
    }

    /** `INSERT INTO games (home_team, away_team) VALUES (?, ?)`: a fresh id
        above every id the table has handed out. */
    method InsertGame(homeTeam: string, awayTeam: string) returns (id: int)
      requires Valid()
      modifies this
      ensures Valid()
      ensures id == old(lastGameId) + 1 && id !in old(games)
      ensures games == old(games)[id := NewGame(homeTeam, awayTeam)]
      ensures lastGameId == id
      ensures plays == old(plays) && users == old(users)
      ensures lastPlayId == old(lastPlayId) && lastUserId == old(lastUserId)
    {
      lastGameId := lastGameId + 1;
      id := lastGameId;
      games := games[id := NewGame(homeTeam, awayTeam)];
    }

    /** `INSERT INTO plays (...)`: the stored row, with a fresh id. */
    method InsertPlay(gameId: int, playText: string, team: Option<string>, quarter: int,
                      gameTime: int, possession: Option<string>) returns (play: Play)
      requires Valid()
      modifies this
      ensures Valid()
      ensures play == Play(old(lastPlayId) + 1, gameId, playText, team, quarter, gameTime, possession)
      ensures play.id !in old(plays)
      ensures plays == old(plays)[play.id := play] && lastPlayId == play.id
      ensures games == old(games) && users == old(users)
      ensures lastGameId == old(lastGameId) && lastUserId == old(lastUserId)
    {
      lastPlayId := lastPlayId + 1;
      play := Play(lastPlayId, gameId, playText, team, quarter, gameTime, possession);
      plays := plays[play.id := play];
    }

    /** `DELETE FROM plays WHERE id = ?`: the number of rows removed. */
    method DeletePlay(id: int) returns (changes: int)
      requires Valid()
      modifies this
      ensures Valid()
      ensures id in old(plays) ==> changes == 1
      ensures id !in old(plays) ==> changes == 0
      ensures plays == old(plays) - {id}
      ensures games == old(games) && users == old(users)
      ensures lastGameId == old(lastGameId) && lastPlayId == old(lastPlayId) && lastUserId == old(lastUserId)
    {
      changes := if id in plays then 1 else 0;
      plays := plays - {id};
    }

    /** The first half of a reset: the latest active game, if any, is marked
        completed and its plays are deleted. */
    method ArchiveLatestActive()
      requires Valid()
      modifies this
      ensures Valid()
      ensures games.Keys == old(games).Keys
      ensures forall id :: id in old(games) && IsLatestActive(old(games), id) ==>
                games[id] == old(games)[id]["game_status" := Str("completed")]
      ensures forall id :: id in old(games) && !IsLatestActive(old(games), id) ==> games[id] == old(games)[id]
      ensures plays == map p | p in old(plays) && !IsLatestActive(old(games), old(plays)[p].gameId) :: old(plays)[p]
      ensures users == old(users)
      ensures lastGameId == old(lastGameId) && lastPlayId == old(lastPlayId) && lastUserId == old(lastUserId)
    {
      var latest := LatestActiveGame();
      if latest.Some? {
        assert forall id :: IsLatestActive(games, id) <==> id == latest.value;
        CompleteGame(latest.value);
        DeletePlaysOf(latest.value);
      } else {
        assert forall id :: !IsLatestActive(games, id);
        assert plays == map p | p in plays && !IsLatestActive(games, plays[p].gameId) :: plays[p];
      }
    }

    /** `SELECT * FROM plays WHERE game_id = ? ORDER BY id DESC`: that game's
        plays, newest first. */
    method PlaysOfGame(gameId: int) returns (ps: seq<Play>)
      requires Valid()
      ensures forall p :: p in ps <==> p.id in plays && plays[p.id] == p && p.gameId == gameId
      ensures forall i, j :: 0 <= i < j < |ps| ==> ps[i].id > ps[j].id
    {
      var table := plays;
      var remaining := set id | id in table && table[id].gameId == gameId;
      ps := [];
      while exists id :: id in remaining
        invariant remaining <= table.Keys
        invariant forall id :: id in remaining ==> table[id].gameId == gameId
        invariant forall p :: p in ps ==> p.id in table && table[p.id] == p && p.gameId == gameId && p.id !in remaining
        invariant forall id :: id in table && table[id].gameId == gameId ==> id in remaining || table[id] in ps
        invariant forall i, j :: 0 <= i < j < |ps| ==> ps[i].id > ps[j].id
        invariant forall i, id :: 0 <= i < |ps| && id in remaining ==> id < ps[i].id
        decreases remaining
      {
        var top := MaxOf(remaining);
        ps := ps + [table[top]];
        remaining := remaining - {top};
      }
    }

    /** `INSERT INTO users (username, password, role)`; nothing when the
        username is taken (the UNIQUE constraint). */
    method InsertUser(username: string, passwordHash: string, role: string) returns (r: Option<int>)
      requires Valid()
      modifies this
      ensures Valid()
      ensures (exists id :: id in old(users) && old(users)[id].username == username) ==>
                r.None? && users == old(users) && lastUserId == old(lastUserId)
      ensures (forall id :: id in old(users) ==> old(users)[id].username != username) ==>
                r == Some(old(lastUserId) + 1) && r.value !in old(users) && lastUserId == r.value &&
                users == old(users)[r.value := User(r.value, username, passwordHash, role)]
      ensures games == old(games) && plays == old(plays)
      ensures lastGameId == old(lastGameId) && lastPlayId == old(lastPlayId)
    {
      var taken := UsernameTaken(users, username);
      if taken {
        return None;
      }
      lastUserId := lastUserId + 1;
      users := users[lastUserId := User(lastUserId, username, passwordHash, role)];
      r := Some(lastUserId);
    }

    /** `SELECT * FROM users WHERE username = ?`: the id of a user with
        that name, or nothing. */
    method FindUser(username: string) returns (r: Option<int>)
      ensures r.Some? ==> r.value in users && users[r.value].username == username
      ensures r.None? ==> forall id :: id in users ==> users[id].username != username
    {
      var remaining := users.Keys;
      r := None;
      while exists id :: id in remaining
        invariant remaining <= users.Keys
        invariant r.None?
        invariant forall id :: id in users && id !in remaining ==> users[id].username != username
        decreases remaining
      {
        var id :| id in remaining;
        if users[id].username == username {
          return Some(id);
        }
        remaining := remaining - {id};
      }
    }
  }

  /** The largest element of a non-empty set of ids. */
  method MaxOf(s: set<int>) returns (m: int)
    requires exists x :: x in s
    ensures m in s && forall x :: x in s ==> x <= m
  {
    m :| m in s;
    var rest := s - {m};
    while exists x :: x in rest
      invariant rest <= s && m in s
      invariant forall x :: x in s && x !in rest ==> x <= m
      decreases rest
    {
      var x :| x in rest;
      if x > m {
        m := x;
      }
      rest := rest - {x};
    }
  }

  /** Whether some user already has the username. */
  method UsernameTaken(users: map<int, User>, username: string) returns (taken: bool)
    ensures taken <==> exists id :: id in users && users[id].username == username
  {
    var remaining := users.Keys;
    taken := false;
    while exists id :: id in remaining
      invariant remaining <= users.Keys
      invariant !taken
      invariant forall id :: id in users && id !in remaining ==> users[id].username != username
      decreases remaining
    {
      var id :| id in remaining;
      if users[id].username == username {
        return true;
      }
      remaining := remaining - {id};
    }
  }
}
