/** The route rules of the self-hosted SQLite server (server.js), where they
    differ from the hosted API: a PUT that matches no row still succeeds, a
    play is inserted without a required-field check, and a user is created
    without one. */
module ServerRoutes {
  import opened Common
  import opened Store
  import opened Auth

  /** PUT /api/game/:id: the token check and 400 when no key is allow-listed,
      as in the API; then success whether or not a row had that id. */
  method PutGame(db: Database, authHeader: Option<string>, verify: string -> Option<Claims>,
                 gameId: int, updates: Fields) returns (status: int, changes: int)
    requires db.Valid()
    modifies db
    ensures db.Valid()
    ensures db.plays == old(db.plays) && db.users == old(db.users)
    ensures Authenticate(authHeader, verify).Denied? ==>
              status == Authenticate(authHeader, verify).status && db.games == old(db.games)
    ensures Authenticate(authHeader, verify).Granted? && AllowedUpdates(updates) == [] ==>
              status == 400 && db.games == old(db.games)
    ensures Authenticate(authHeader, verify).Granted? && AllowedUpdates(updates) != [] ==>
              status == 200 &&
              (gameId !in old(db.games) ==> changes == 0 && db.games == old(db.games)) &&
              (gameId in old(db.games) ==>
                 changes == 1 &&
                 db.games == old(db.games)[gameId := ApplyUpdates(old(db.games)[gameId], AllowedUpdates(updates))])
  {
    changes := 0;
    var access := Authenticate(authHeader, verify);
    if access.Denied? {
      return access.status, 0;
    }
    var statement := BuildUpdate(updates, gameId);
    if statement.None? {
      return 400, 0;
    }
    var columns := statement.value.columns;
    var pairs := Assignments(columns, statement.value.values);
    assert pairs == AllowedUpdates(updates);
    changes := db.UpdateGame(gameId, pairs);
    status := 200;
  }

  /** POST /api/game/reset: archive the latest active game and delete its
      plays, then insert the new game, in that order. */
  method ResetGame(db: Database, authHeader: Option<string>, verify: string -> Option<Claims>)
    returns (status: int, newId: Option<int>)
    requires db.Valid()
    modifies db
    ensures db.Valid()
    ensures db.users == old(db.users)
    ensures Authenticate(authHeader, verify).Denied? ==>
              status == Authenticate(authHeader, verify).status && newId.None? &&
              db.games == old(db.games) && db.plays == old(db.plays)
    ensures Authenticate(authHeader, verify).Granted? ==>
              && status == 200 && newId.Some?
              && newId.value !in old(db.games)
              && db.games.Keys == old(db.games).Keys + {newId.value}
              && db.games[newId.value] == NewGame("Home Team", "Away Team")
              && IsLatestActive(db.games, newId.value)
              && (forall id :: id in old(db.games) && IsLatestActive(old(db.games), id) ==>
                    db.games[id] == old(db.games)[id]["game_status" := Str("completed")])
              && (forall id :: id in old(db.games) && !IsLatestActive(old(db.games), id) ==>
                    db.games[id] == old(db.games)[id])
              && db.plays == map p | p in old(db.plays) && !IsLatestActive(old(db.games), old(db.plays)[p].gameId)
                                   :: old(db.plays)[p]
  {
    var access := Authenticate(authHeader, verify);
    if access.Denied? {
      return access.status, None;
    }
    db.ArchiveLatestActive();
    ghost var before := db.games;
    var id := db.InsertGame("Home Team", "Away Team");
    assert forall k :: k in before && IsActive(before[k]) ==> k < id;
    newId := Some(id);
    status := 200;
  }

  /** POST /api/plays: no required-field check; the insert fails (500) only
      when a NOT NULL column (game_id, play_text, quarter, game_time) is
      missing, so an empty text or a zero game id is stored. */
  method PostPlay(db: Database, authHeader: Option<string>, verify: string -> Option<Claims>,
                  gameId: Option<int>, playText: Option<string>, team: Option<string>,
                  quarter: Option<int>, gameTime: Option<int>, possession: Option<string>)
    returns (status: int, play: Option<Play>)
    requires db.Valid()
    modifies db
    ensures db.Valid()
    ensures db.games == old(db.games) && db.users == old(db.users)
    ensures status != 200 <==> play.None?
    ensures status != 200 ==> db.plays == old(db.plays)
    ensures Authenticate(authHeader, verify).Denied? ==> status == Authenticate(authHeader, verify).status
    ensures (Authenticate(authHeader, verify).Granted? &&
             (gameId.None? || playText.None? || quarter.None? || gameTime.None?)) ==> status == 500
    ensures status == 200 <==>
              Authenticate(authHeader, verify).Granted? &&
              gameId.Some? && playText.Some? && quarter.Some? && gameTime.Some?
    ensures status == 200 ==>
              play.value.id !in old(db.plays) &&
              play.value == Play(play.value.id, gameId.value, playText.value, team,
                                 quarter.value, gameTime.value, possession) &&
              db.plays == old(db.plays)[play.value.id := play.value]
  {
    var access := Authenticate(authHeader, verify);
    if access.Denied? {
      return access.status, None;
    }
    if gameId.None? || playText.None? || quarter.None? || gameTime.None? {
      return 500, None;
    }
    var p := db.InsertPlay(gameId.value, playText.value, team, quarter.value, gameTime.value, possession);
    return 200, Some(p);
  }

  /** DELETE /api/plays/:id: 404 when the play is missing or the delete
      removed nothing, otherwise exactly that row is removed. */
  method DeletePlay(db: Database, authHeader: Option<string>, verify: string -> Option<Claims>,
                    playId: int) returns (status: int)
    requires db.Valid()
    modifies db
    ensures db.Valid()
    ensures db.games == old(db.games) && db.users == old(db.users)
    ensures Authenticate(authHeader, verify).Denied? ==>
              status == Authenticate(authHeader, verify).status && db.plays == old(db.plays)
    ensures Authenticate(authHeader, verify).Granted? && playId !in old(db.plays) ==>
              status == 404 && db.plays == old(db.plays)
    ensures Authenticate(authHeader, verify).Granted? && playId in old(db.plays) ==>
              status == 200 && db.plays == old(db.plays) - {playId}
  {
    var access := Authenticate(authHeader, verify);
    if access.Denied? {
      return access.status;
    }
    if playId !in db.plays {
      return 404;
    }
    var changes := db.DeletePlay(playId);
    if changes == 0 {
      return 404;
    }
    status := 200;
  }

  /** POST /api/users: 403 for a non-admin; no field check, so a missing
      password fails the hashing (500) and a missing username or role fails
      the NOT NULL insert (500); a taken username gives 400. */
  method PostUser(db: Database, authHeader: Option<string>, verify: string -> Option<Claims>,
                  hash: string -> string, username: Option<string>, password: Option<string>,
                  role: Option<string>) returns (status: int, userId: Option<int>)
    requires db.Valid()
    modifies db
    ensures db.Valid()
    ensures db.games == old(db.games) && db.plays == old(db.plays)
    ensures status == 200 <==> userId.Some?
    ensures status != 200 ==> db.users == old(db.users)
    ensures Authenticate(authHeader, verify).Denied? ==> status == Authenticate(authHeader, verify).status
    ensures Authenticate(authHeader, verify).Granted? && !IsAdmin(Authenticate(authHeader, verify).user) ==>
              status == 403
    ensures Authenticate(authHeader, verify).Granted? && IsAdmin(Authenticate(authHeader, verify).user) ==>
              && (password.None? || username.None? || role.None? ==> status == 500)
              && (password.Some? && username.Some? && role.Some? ==>
                    && ((exists id :: id in old(db.users) && old(db.users)[id].username == username.value)
                          ==> status == 400)
                    && ((forall id :: id in old(db.users) ==> old(db.users)[id].username != username.value)
                          ==> status == 200 && userId.value !in old(db.users) &&
                              db.users == old(db.users)[userId.value := User(userId.value, username.value,
                                                                          hash(password.value), role.value)]))
  {
    var access := Authenticate(authHeader, verify);
    if access.Denied? {
      return access.status, None;
    }
    if !IsAdmin(access.user) {
      return 403, None;
    }
    if password.None? || username.None? || role.None? {
      return 500, None;
    }
    userId := db.InsertUser(username.value, hash(password.value), role.value);
    status := if userId.None? then 400 else 200;
  }

  /** POST /api/login: no field check; a missing username matches nobody and
      a missing password fails the comparison, both 401. */
  method Login(db: Database, username: Option<string>, password: Option<string>,
               matches: (string, string) -> bool, sign: Claims -> string)
    returns (status: int, token: Option<string>)
    ensures status == 200 <==> token.Some?
    ensures status == 200 || status == 401
    ensures username.None? || password.None? ==> status == 401
    ensures status == 200 ==>
              username.Some? && password.Some? &&
              exists id :: id in db.users && db.users[id].username == username.value &&
                           matches(password.value, db.users[id].passwordHash) &&
                           token.value == sign(Claims(db.users[id].id, username.value, db.users[id].role))
    ensures db.UniqueUsernames() && username.Some? && password.Some? ==>
              forall id :: id in db.users && db.users[id].username == username.value ==>
                && (matches(password.value, db.users[id].passwordHash) ==>
                      status == 200 && token == Some(sign(Claims(db.users[id].id, username.value, db.users[id].role))))
                && (!matches(password.value, db.users[id].passwordHash) ==> status == 401)
  {
    if username.None? {
      return 401, None;
    }
    var user := db.FindUser(username.value);
    if user.None? || password.None? {
      return 401, None;
    }
    var k := user.value;
    assert db.users[k].username == username.value;
    var u := db.users[k];
    if !matches(password.value, u.passwordHash) {
      return 401, None;
    }
    token := Some(sign(Claims(u.id, u.username, u.role)));
    status := 200;
  }
}
