/** The route rules of the hosted API (football-api/index.js) over the
    in-memory tables: which status each request gets and what it changes. */
module ApiRoutes {
  import opened Common
  import opened Store
  import opened Auth

  /** PUT /api/game/:id: the token check, 400 when no key of the body is
      allow-listed, 404 when no row has that id, and otherwise the row gets
      the allow-listed pairs. */
  method PutGame(db: Database, authHeader: Option<string>, verify: string -> Option<Claims>,
                 gameId: int, updates: Fields) returns (status: int)
    requires db.Valid()
    modifies db
    ensures db.Valid()
    ensures db.plays == old(db.plays) && db.users == old(db.users)
    ensures Authenticate(authHeader, verify).Denied? ==>
              status == Authenticate(authHeader, verify).status && db.games == old(db.games)
    ensures Authenticate(authHeader, verify).Granted? && AllowedUpdates(updates) == [] ==>
              status == 400 && db.games == old(db.games)
    ensures Authenticate(authHeader, verify).Granted? && AllowedUpdates(updates) != [] &&
            gameId !in old(db.games) ==>
              status == 404 && db.games == old(db.games)
    ensures Authenticate(authHeader, verify).Granted? && AllowedUpdates(updates) != [] &&
            gameId in old(db.games) ==>
              status == 200 &&
              db.games == old(db.games)[gameId := ApplyUpdates(old(db.games)[gameId], AllowedUpdates(updates))]
  {
    var access := Authenticate(authHeader, verify);
    if access.Denied? {
      return access.status;
    }
    var statement := BuildUpdate(updates, gameId);
    if statement.None? {
      return 400;
    }
    var columns := statement.value.columns;
    var pairs := Assignments(columns, statement.value.values);
    assert pairs == AllowedUpdates(updates);
    var changes := db.UpdateGame(gameId, pairs);
    if changes == 0 {
      return 404;
    }
    status := 200;
  }

  /** GET /api/game: the latest active game, or nothing. */
  method GetGame(db: Database) returns (r: Option<Game>)
    ensures r.Some? ==> exists id :: IsLatestActive(db.games, id) && r.value == db.games[id]
    ensures r.None? ==> forall id :: id in db.games ==> !IsActive(db.games[id])
  {
    var latest := db.LatestActiveGame();
    if latest.None? {
      return None;
    }
    assert IsLatestActive(db.games, latest.value);
    r := Some(db.games[latest.value]);
  }

  /** POST /api/game/reset: the latest active game is marked completed and
      its plays deleted, then a new game with the schema defaults is
      inserted; that new game is the one GET /api/game returns next. */
  method ResetGame(db: Database, authHeader: Option<string>, verify: string -> Option<Claims>)
    returns (status: int, newId: Option<int>)
    requires db.Valid()
    modifies db
    ensures db.Valid()
    ensures db.users == old(db.users)
    ensures Authenticate(authHeader, verify).Denied? ==>
              status == Authenticate(authHeader, verify).status && newId.None? &&
              db.games == old(db.games) && db.plays == old(db.plays)
    ensures Authenticate(authHeader, verify).Granted? ==>
              && status == 200 && newId.Some?
              && newId.value !in old(db.games)
              && db.games.Keys == old(db.games).Keys + {newId.value}
              && db.games[newId.value] == NewGame("Home Team", "Away Team")
              && IsLatestActive(db.games, newId.value)
              && (forall id :: id in old(db.games) && IsLatestActive(old(db.games), id) ==>
                    db.games[id] == old(db.games)[id]["game_status" := Str("completed")])
              && (forall id :: id in old(db.games) && !IsLatestActive(old(db.games), id) ==>
                    db.games[id] == old(db.games)[id])
              && db.plays == map p | p in old(db.plays) && !IsLatestActive(old(db.games), old(db.plays)[p].gameId)
                                   :: old(db.plays)[p]
  {
    var access := Authenticate(authHeader, verify);
    if access.Denied? {
      return access.status, None;
    }
    db.ArchiveLatestActive();
    ghost var before := db.games;
    var id := db.InsertGame("Home Team", "Away Team");
    assert forall k :: k in before && IsActive(before[k]) ==> k < id;
    newId := Some(id);
    status := 200;
  }

  /** GET /api/plays/:gameId: that game's plays, newest first. */
  method GetPlays(db: Database, gameId: int) returns (ps: seq<Play>)
    requires db.Valid()
    ensures forall p :: p in ps <==> p.id in db.plays && db.plays[p.id] == p && p.gameId == gameId
    ensures forall i, j :: 0 <= i < j < |ps| ==> ps[i].id > ps[j].id
  {
    ps := db.PlaysOfGame(gameId);
  }

  /** The body of POST /api/plays; a key the client leaves out is None. */
  datatype PlayRequest = PlayRequest(gameId: Option<int>, playText: Option<string>, team: Option<string>,
                                     quarter: Option<int>, gameTime: Option<int>, possession: Option<string>)

  /** `!game_id || !play_text`: missing, zero or empty. */
  predicate MissingRequired(req: PlayRequest)
  {
    req.gameId.None? || req.gameId.value == 0 || req.playText.None? || req.playText.value == ""
  }

  /** POST /api/plays: 400 without a game id or a text; the NOT NULL columns
      quarter and game_time make the insert fail (500) when they are missing;
      otherwise the stored row is returned. */
  method PostPlay(db: Database, authHeader: Option<string>, verify: string -> Option<Claims>,
                  req: PlayRequest) returns (status: int, play: Option<Play>)
    requires db.Valid()
    modifies db
    ensures db.Valid()
    ensures db.games == old(db.games) && db.users == old(db.users)
    ensures status != 200 <==> play.None?
    ensures status != 200 ==> db.plays == old(db.plays)
    ensures Authenticate(authHeader, verify).Denied? ==> status == Authenticate(authHeader, verify).status
    ensures Authenticate(authHeader, verify).Granted? && MissingRequired(req) ==> status == 400
    ensures (Authenticate(authHeader, verify).Granted? && !MissingRequired(req) &&
             (req.quarter.None? || req.gameTime.None?)) ==> status == 500
    ensures status == 200 <==>
              Authenticate(authHeader, verify).Granted? && !MissingRequired(req) &&
              req.quarter.Some? && req.gameTime.Some?
    ensures status == 200 ==>
              play.value.id !in old(db.plays) &&
              play.value == Play(play.value.id, req.gameId.value, req.playText.value, req.team,
                                 req.quarter.value, req.gameTime.value, req.possession) &&
              db.plays == old(db.plays)[play.value.id := play.value]
  {
    var access := Authenticate(authHeader, verify);
    if access.Denied? {
      return access.status, None;
    }
    if MissingRequired(req) {
      return 400, None;
    }
    if req.quarter.None? || req.gameTime.None? {
      return 500, None;
    }
    var p := db.InsertPlay(req.gameId.value, req.playText.value, req.team, req.quarter.value,
                           req.gameTime.value, req.possession);
    return 200, Some(p);
  }

  /** DELETE /api/plays/:id: 404 when no play has the id, otherwise exactly
      that row is removed. */
  method DeletePlay(db: Database, authHeader: Option<string>, verify: string -> Option<Claims>,
                    playId: int) returns (status: int)
    requires db.Valid()
    modifies db
    ensures db.Valid()
    ensures db.games == old(db.games) && db.users == old(db.users)
    ensures Authenticate(authHeader, verify).Denied? ==>
              status == Authenticate(authHeader, verify).status && db.plays == old(db.plays)
    ensures Authenticate(authHeader, verify).Granted? && playId !in old(db.plays) ==>
              status == 404 && db.plays == old(db.plays)
    ensures Authenticate(authHeader, verify).Granted? && playId in old(db.plays) ==>
              status == 200 && db.plays == old(db.plays) - {playId}
  {
    var access := Authenticate(authHeader, verify);
    if access.Denied? {
      return access.status;
    }
    if playId !in db.plays {
      return 404;
    }
    var _ := db.DeletePlay(playId);
    status := 200;
  }

  /** GET /api/users: 403 for anyone but an admin. */
  function GetUsersStatus(authHeader: Option<string>, verify: string -> Option<Claims>): (status: int)
    ensures status == 200 <==> Authenticate(authHeader, verify).Granted? && IsAdmin(Authenticate(authHeader, verify).user)
    ensures Authenticate(authHeader, verify).Granted? && !IsAdmin(Authenticate(authHeader, verify).user) ==> status == 403
  {
    match Authenticate(authHeader, verify)
    case Denied(s) => s
    case Granted(user) => if IsAdmin(user) then 200 else 403
  }

  /** `!x` for a body string: missing or empty. */
  predicate Blank(s: Option<string>)
  {
    s.None? || s.value == ""
  }

  /** POST /api/users: 403 for a non-admin, 400 when a field is missing or
      the username is taken, otherwise a new user with the hashed password. */
  method PostUser(db: Database, authHeader: Option<string>, verify: string -> Option<Claims>,
                  hash: string -> string, username: Option<string>, password: Option<string>,
                  role: Option<string>) returns (status: int, userId: Option<int>)
    requires db.Valid()
    modifies db
    ensures db.Valid()
    ensures db.games == old(db.games) && db.plays == old(db.plays)
    ensures status == 200 <==> userId.Some?
    ensures status != 200 ==> db.users == old(db.users)
    ensures Authenticate(authHeader, verify).Denied? ==> status == Authenticate(authHeader, verify).status
    ensures Authenticate(authHeader, verify).Granted? && !IsAdmin(Authenticate(authHeader, verify).user) ==>
              status == 403
    ensures Authenticate(authHeader, verify).Granted? && IsAdmin(Authenticate(authHeader, verify).user) ==>
              && (Blank(username) || Blank(password) || Blank(role) ==> status == 400)
              && (!Blank(username) && !Blank(password) && !Blank(role) ==>
                    && ((exists id :: id in old(db.users) && old(db.users)[id].username == username.value)
                          ==> status == 400)
                    && ((forall id :: id in old(db.users) ==> old(db.users)[id].username != username.value)
                          ==> status == 200 && userId.value !in old(db.users) &&
                              db.users == old(db.users)[userId.value := User(userId.value, username.value,
                                                                          hash(password.value), role.value)]))
  {
    var access := Authenticate(authHeader, verify);
    if access.Denied? {
      return access.status, None;
    }
    if !IsAdmin(access.user) {
      return 403, None;
    }
    if Blank(username) || Blank(password) || Blank(role) {
      return 400, None;
    }
    userId := db.InsertUser(username.value, hash(password.value), role.value);
    status := if userId.None? then 400 else 200;
  }

  /** POST /api/login: 400 without a username or password, 401 for an unknown
      user or a wrong password, otherwise a token for the user's claims. */
  method Login(db: Database, username: Option<string>, password: Option<string>,
               matches: (string, string) -> bool, sign: Claims -> string)
    returns (status: int, token: Option<string>)
    ensures status == 200 <==> token.Some?
    ensures Blank(username) || Blank(password) ==> status == 400
    ensures (!Blank(username) && !Blank(password) &&
             (forall id :: id in db.users ==> db.users[id].username != username.value)) ==> status == 401
    ensures status == 200 ==>
              !Blank(username) && !Blank(password) &&
              exists id :: id in db.users && db.users[id].username == username.value &&
                           matches(password.value, db.users[id].passwordHash) &&
                           token.value == sign(Claims(db.users[id].id, username.value, db.users[id].role))
    ensures db.UniqueUsernames() && !Blank(username) && !Blank(password) ==>
              forall id :: id in db.users && db.users[id].username == username.value ==>
                && (matches(password.value, db.users[id].passwordHash) ==>
                      status == 200 && token == Some(sign(Claims(db.users[id].id, username.value, db.users[id].role))))
                && (!matches(password.value, db.users[id].passwordHash) ==> status == 401)
  {
    if Blank(username) || Blank(password) {
      return 400, None;
    }
    var user := db.FindUser(username.value);
    if user.None? {
      return 401, None;
    }
    var k := user.value;
    assert db.users[k].username == username.value;
    var u := db.users[k];
    if !matches(password.value, u.passwordHash) {
      return 401, None;
    }
    token := Some(sign(Claims(u.id, u.username, u.role)));
    status := 200;
  }
}
