/** The game session the client keeps (client/src/App.js): the situation
    fields each action overwrites, the clock tick, the time format, and the
    requests the actions send to the server, in the order they send them.
    A request is recorded only when a game id is known, as updateGame and
    addPlayToDB skip otherwise. */
module Session {
  import opened Common
  import opened Store

  /** The body addPlayToDB posts to /api/plays. */
  datatype PlayPost = PlayPost(gameId: int, playText: string, team: string, quarter: int,
                               gameTime: int, possession: Team)

  /** `${points} POINT${points !== 1 ? 'S' : ''}` and the named scores. */
  function ScoreText(points: int): (r: string)
    ensures points == 6 ==> r == "TOUCHDOWN"
    ensures points == 3 ==> r == "FIELD GOAL"
    ensures points == 2 ==> r == "SAFETY"
    ensures points == 1 ==> r == "1 POINT"
    ensures points !in {1, 2, 3, 6} ==> r == IntToString(points) + " POINTS"
  {
    if points == 6 then "TOUCHDOWN"
    else if points == 3 then "FIELD GOAL"
    else if points == 2 then "SAFETY"
    else IntToString(points) + " POINT" + (if points != 1 then "S" else "")
  }

  /** The counted texts, and only they, end in an S. */
  lemma ScoreTextLast(points: int)
    ensures var r := ScoreText(points);
            |r| >= 1 && (r[|r| - 1] == 'S' <==> points !in {1, 2, 3, 6})
  {
  }

  /** Different point values never share a default text: the named scores,
      "1 POINT" and the counted texts are all distinct. */
  lemma ScoreTextInjective(a: int, b: int)
    requires ScoreText(a) == ScoreText(b)
    ensures a == b
  {
    ScoreTextLast(a);
    ScoreTextLast(b);
    if a !in {1, 2, 3, 6} {
      var r := ScoreText(a);
      var suffix := " POINTS";
      assert r == IntToString(a) + suffix == IntToString(b) + suffix;
      assert IntToString(a) == r[..|r| - |suffix|] == IntToString(b);
      IntToStringInjective(a, b);
    }
  }

  /** One clock step: `prev <= 1 ? 0 : prev - 1`. */
  function TickTime(prev: int): (t: int)
    ensures t >= 0
    ensures prev >= 1 ==> t == prev - 1
    ensures prev <= 1 ==> t == 0
  {
    if prev <= 1 then 0 else prev - 1
  }

  /** The clock after n steps. */
  function TickTimes(prev: int, n: nat): int
  {
    if n == 0 then prev else TickTime(TickTimes(prev, n - 1))
  }

  /** From t seconds, n steps leave max(t - n, 0): the clock runs down one
      second per step and stops at zero. */
  lemma {:induction false} TickTimesRunsDown(t: nat, n: nat)
    ensures TickTimes(t, n) == if n <= t then t - n else 0
  {
    if n > 0 {
      TickTimesRunsDown(t, n - 1);
    }
  }

  /** formatTime: minutes, a colon, and the seconds as two digits. */
  function FormatTime(seconds: nat): string
  {
    NatToString(seconds / 60) + ":" + PadStart2(NatToString(seconds % 60))
  }

  lemma PadStart2Value(s: string)
    requires 1 <= |s| && AllDigits(s)
    ensures AllDigits(PadStart2(s)) && DigitsValue(PadStart2(s)) == DigitsValue(s)
  {
    if |s| == 1 {
      var p := PadStart2(s);
      assert p[..1] == "0";
    }
  }

  /** The formatted time reads back: the part before the colon is the
      minutes, the part after it two digits of seconds, and together they
      give the time. */
  lemma FormatTimeReadsBack(seconds: nat)
    ensures var m := NatToString(seconds / 60);
            var s := PadStart2(NatToString(seconds % 60));
            && FormatTime(seconds) == m + ":" + s
            && AllDigits(m) && AllDigits(s) && |s| == 2
            && DigitsValue(m) * 60 + DigitsValue(s) == seconds
  {
    NatToStringDigits(seconds / 60);
    NatToStringDigits(seconds % 60);
    var r := NatToString(seconds % 60);
    assert |r| <= 2 by {
      if seconds % 60 >= 10 {
        assert r == NatToString(seconds % 60 / 10) + [DigitChar(seconds % 60 % 10)];
      }
    }
    PadStart2Value(r);
  }

  /** updateGameSituation's conversion for the API: `yardLine` becomes
      `yard_line`, every other key is copied as it is. */
  function ApiKey(key: string): string
  {
    if key == "yardLine" then "yard_line" else key
  }

  function ApiUpdates(updates: Fields): (r: Fields)
  {
    if updates == [] then []
    else
      var n := |updates| - 1;
      SetField(ApiUpdates(updates[..n]), ApiKey(updates[n].0), updates[n].1)
  }

  /** The body key by key under its API names. */
  function RenameKeys(updates: Fields): Fields
  {
    seq(|updates|, i requires 0 <= i < |updates| => (ApiKey(updates[i].0), updates[i].1))
  }

  /** When no two keys of the body have the same API name, the conversion
      renames key by key and keeps the values and their order. */
  lemma {:induction false} ApiUpdatesRenames(updates: Fields)
    requires forall i, j :: 0 <= i < j < |updates| ==> ApiKey(updates[i].0) != ApiKey(updates[j].0)
    ensures ApiUpdates(updates) == RenameKeys(updates)
  {
    if updates != [] {
      var n := |updates| - 1;
      var prefix := updates[..n];
      ApiUpdatesRenames(prefix);
      var converted := RenameKeys(prefix);
      var key := ApiKey(updates[n].0);
      forall i | 0 <= i < n ensures converted[i].0 != key {
        assert prefix[i] == updates[i];
      }
      var whole := RenameKeys(updates);
      assert whole[..n] == converted by {
        forall i | 0 <= i < n ensures whole[i] == converted[i] {
          assert prefix[i] == updates[i];
        }
      }
      assert whole == whole[..n] + [(key, updates[n].1)];
    }
  }

  /** When the body names both `yardLine` and `yard_line`, the API body keeps
      the key where `yard_line` first appeared and the value of whichever
      came last: here, a body that sets `yard_line` and then `yardLine`. */
  lemma ApiUpdatesMergesYardLine(a: int, b: int)
    ensures ApiUpdates([("yard_line", Int(a)), ("yardLine", Int(b))]) == [("yard_line", Int(b))]
  {
    var body: Fields := [("yard_line", Int(a)), ("yardLine", Int(b))];
    var first: Fields := [("yard_line", Int(a))];
    assert body[..1] == first;
    assert first[..0] == [];
    assert ApiUpdates(first) == SetField([], "yard_line", Int(a)) == first;
    assert SetField(first, "yard_line", Int(b)) == [("yard_line", Int(b))] + first[1..];
  }

  /** The fields of App's state the scorekeeper actions touch. */
  datatype GameState = GameState(
    homeTeam: string, awayTeam: string, homeScore: int, awayScore: int,
    quarter: int, timeLeft: int, isClockRunning: bool,
    down: int, distance: int, yardLine: int, possession: Team,
    homeTimeouts: int, awayTimeouts: int, currentPlay: string)
  {
    /** The ranges the game actions keep. */
    predicate Valid()
    {
      && 1 <= down <= 4
      && 1 <= quarter <= 4
      && 0 <= homeTimeouts <= 3 && 0 <= awayTimeouts <= 3
      && timeLeft >= 0
    }

    function TimeoutsOf(team: Team): int
    {
      if team == Home then homeTimeouts else awayTimeouts
    }

    function Name(team: Team): string
    {
      TeamName(team, homeTeam, awayTeam)
    }
  }

  /** The state loadGameData shows for a new game. */
  const InitialState := GameState("Home Team", "Away Team", 0, 0, 1, 900, false, 1, 10, 50, Home, 3, 3, "")

  /** What addPlayToDB posts from the state its render captured: the given
      team, or the possessing team when none (or an empty one) is given. */
  function PostOf(st: GameState, gameId: int, playText: string, team: Option<string>): (p: PlayPost)
    ensures p.gameId == gameId && p.playText == playText
    ensures p.quarter == st.quarter && p.gameTime == st.timeLeft && p.possession == st.possession
    ensures team.Some? && team.value != "" ==> p.team == team.value
    ensures team.None? || team.value == "" ==> p.team == st.Name(st.possession)
  {
    PlayPost(gameId, playText, if team.Some? && team.value != "" then team.value else st.Name(st.possession),
             st.quarter, st.timeLeft, st.possession)
  }

  /** The request list an action adds: nothing when no game is loaded. */
  function IfLoaded<T>(gameId: Option<int>, x: T): seq<T>
  {
    if gameId.Some? then [x] else []
  }

  /** updateGameSituation's local setters: each known key with a value of
      the field's type overwrites the field (both spellings of the yard
      line), later keys winning. */
  function ApplySituation(st: GameState, updates: Fields): GameState
  {
    if updates == [] then st
    else
      var n := |updates| - 1;
      var s := ApplySituation(st, updates[..n]);
      var (key, v) := updates[n];
      if v.Int? then
        if key == "down" then s.(down := v.i)
        else if key == "distance" then s.(distance := v.i)
        else if key == "yardLine" || key == "yard_line" then s.(yardLine := v.i)
        else if key == "time_left" then s.(timeLeft := v.i)
        else if key == "quarter" then s.(quarter := v.i)
        else if key == "home_score" then s.(homeScore := v.i)
        else if key == "away_score" then s.(awayScore := v.i)
        else s
      else if key == "possession" && v.Str? && v.s in {"home", "away"} then
        s.(possession := if v.s == "home" then Home else Away)
      else s
  }

  /** The setters touch only the situation fields: team names, timeouts,
      the clock switch and the play box stay as they were. */
  lemma {:induction false} ApplySituationKeeps(st: GameState, updates: Fields)
    ensures var s := ApplySituation(st, updates);
            s.homeTeam == st.homeTeam && s.awayTeam == st.awayTeam &&
            s.homeTimeouts == st.homeTimeouts && s.awayTimeouts == st.awayTimeouts &&
            s.isClockRunning == st.isClockRunning && s.currentPlay == st.currentPlay
  {
    if updates != [] {
      ApplySituationKeeps(st, updates[..|updates| - 1]);
    }
  }

  /** A field whose key the body does not name keeps its value. */
  lemma {:induction false} ApplySituationUnnamed(st: GameState, updates: Fields)
    ensures "down" !in Keys(updates) ==> ApplySituation(st, updates).down == st.down
    ensures "quarter" !in Keys(updates) ==> ApplySituation(st, updates).quarter == st.quarter
    ensures "possession" !in Keys(updates) ==> ApplySituation(st, updates).possession == st.possession
  {
    if updates != [] {
      var n := |updates| - 1;
      assert Keys(updates[..n]) == Keys(updates)[..n];
      ApplySituationUnnamed(st, updates[..n]);
    }
  }

  /** The client's copy of the game, with the requests its actions have sent. */
  class GameSession {
    var st: GameState
    var gameId: Option<int>
    /** The bodies sent to PUT /api/game/:id, oldest first. */
    var sentUpdates: seq<Fields>
    /** The bodies sent to POST /api/plays, oldest first. */
    var sentPlays: seq<PlayPost>

    constructor (gameId: Option<int>)
      ensures st == InitialState && st.Valid()
      ensures this.gameId == gameId && sentUpdates == [] && sentPlays == []
    {
      st := InitialState;
      this.gameId := gameId;
      sentUpdates := [];
      sentPlays := [];
    }

    /** updateGame: the body goes out only when a game is loaded. */
    method SendUpdate(updates: Fields)
      modifies this`sentUpdates
      ensures sentUpdates == old(sentUpdates) + IfLoaded(gameId, updates)
    {
      if gameId.Some? {
        sentUpdates := sentUpdates + [updates];
      }
    }

    /** addPlayToDB from the captured state `at`. */
    method SendPlay(at: GameState, playText: string, team: Option<string>)
      modifies this`sentPlays
      ensures gameId.Some? ==> sentPlays == old(sentPlays) + [PostOf(at, gameId.value, playText, team)]
      ensures gameId.None? ==> sentPlays == old(sentPlays)
    {
      if gameId.Some? {
        sentPlays := sentPlays + [PostOf(at, gameId.value, playText, team)];
      }
    }

    /** The play list after an action: one more post logged with the state
        the action started from, when a game is loaded. */
    ghost predicate Logged(before: seq<PlayPost>, at: GameState, playText: string, team: Option<string>)
      reads this
    {
      sentPlays == before + (if gameId.Some? then [PostOf(at, gameId.value, playText, team)] else [])
    }

    /** addScore: only the scoring team's total moves, by `points`; the play
        text is the given one, or the default text for the points and the team. */
    method AddScore(team: Team, points: int, playDescription: string)
      modifies this
      ensures st == old(st).(homeScore := old(st.homeScore) + (if team == Home then points else 0),
                             awayScore := old(st.awayScore) + (if team == Away then points else 0))
      ensures sentUpdates == old(sentUpdates) +
                IfLoaded(gameId, [("home_score", Int(st.homeScore)), ("away_score", Int(st.awayScore))])
      ensures Logged(old(sentPlays), old(st),
                     if playDescription != "" then playDescription else ScoreText(points) + " - " + old(st.Name(team)),
                     Some(old(st.Name(team))))
      ensures gameId == old(gameId)
    {
      var at := st;
      var teamName := at.Name(team);
      var playText := if playDescription != "" then playDescription else ScoreText(points) + " - " + teamName;
      st := if team == Home then st.(homeScore := st.homeScore + points)
            else st.(awayScore := st.awayScore + points);
      SendUpdate([("home_score", Int(st.homeScore)), ("away_score", Int(st.awayScore))]);
      SendPlay(at, playText, Some(teamName));
    }

    /** nextDown: below fourth down the down advances; on fourth down the
        ball goes to the other team at first and ten and a turnover is logged
        (under the team that had the ball when the button was pressed). */
    method NextDown()
      modifies this
      ensures old(st.down) < 4 ==> st == old(st).(down := old(st.down) + 1)
      ensures old(st.down) >= 4 ==> st == old(st).(down := 1, possession := Flip(old(st.possession)), distance := 10)
      ensures sentUpdates == old(sentUpdates) +
                IfLoaded(gameId, [("down", Int(st.down)), ("possession", Str(TeamKey(st.possession))),
                                  ("distance", Int(st.distance))])
      ensures old(st.down) < 4 ==> sentPlays == old(sentPlays)
      ensures old(st.down) >= 4 ==>
                Logged(old(sentPlays), old(st), "Turnover on downs - " + st.Name(st.possession) + " takes possession", None)
      ensures old(st.Valid()) ==> st.Valid()
      ensures gameId == old(gameId)
    {
      var at := st;
      var newDown := if st.down < 4 then st.down + 1 else 1;
      var newPossession := if st.down >= 4 then Flip(st.possession) else st.possession;
      var newDistance := if st.down >= 4 then 10 else st.distance;
      st := st.(down := newDown, possession := newPossession, distance := newDistance);
      SendUpdate([("down", Int(newDown)), ("possession", Str(TeamKey(newPossession))), ("distance", Int(newDistance))]);
      if at.down >= 4 {
        SendPlay(at, "Turnover on downs - " + at.Name(newPossession) + " takes possession", None);
      }
    }

    /** firstDown: first and ten, nothing else changes. */
    method FirstDown()
      modifies this
      ensures st == old(st).(down := 1, distance := 10)
      ensures sentUpdates == old(sentUpdates) + IfLoaded(gameId, [("down", Int(1)), ("distance", Int(10))])
      ensures Logged(old(sentPlays), old(st), "FIRST DOWN - " + old(st.Name(st.possession)), None)
      ensures old(st.Valid()) ==> st.Valid()
      ensures gameId == old(gameId)
    {
      var at := st;
      st := st.(down := 1, distance := 10);
      SendUpdate([("down", Int(1)), ("distance", Int(10))]);
      SendPlay(at, "FIRST DOWN - " + at.Name(at.possession), None);
    }

    /** nextQuarter: before the fourth quarter, the next quarter with a full
        clock and three timeouts each; in the fourth quarter nothing happens. */
    method NextQuarter()
      modifies this
      ensures old(st.quarter) < 4 ==>
                && st == old(st).(quarter := old(st.quarter) + 1, timeLeft := 900, homeTimeouts := 3, awayTimeouts := 3)
                && sentUpdates == old(sentUpdates) +
                     IfLoaded(gameId, [("quarter", Int(st.quarter)), ("time_left", Int(900)),
                                       ("home_timeouts", Int(3)), ("away_timeouts", Int(3))])
                && Logged(old(sentPlays), old(st), "End of Quarter " + IntToString(old(st.quarter)), None)
      ensures old(st.quarter) >= 4 ==>
                st == old(st) && sentUpdates == old(sentUpdates) && sentPlays == old(sentPlays)
      ensures old(st.Valid()) ==> st.Valid()
      ensures gameId == old(gameId)
    {
      if st.quarter < 4 {
        var at := st;
        var newQuarter := st.quarter + 1;
        st := st.(quarter := newQuarter, timeLeft := 15 * 60, homeTimeouts := 3, awayTimeouts := 3);
        SendUpdate([("quarter", Int(newQuarter)), ("time_left", Int(15 * 60)),
                    ("home_timeouts", Int(3)), ("away_timeouts", Int(3))]);
        SendPlay(at, "End of Quarter " + IntToString(at.quarter), None);
      }
    }

    /** useTimeout: with a timeout left, that team loses one and the clock
        stops; with none left nothing happens. */
    method UseTimeout(team: Team)
      modifies this
      ensures old(st.TimeoutsOf(team)) > 0 ==>
                && st.TimeoutsOf(team) == old(st.TimeoutsOf(team)) - 1
                && st.TimeoutsOf(Flip(team)) == old(st.TimeoutsOf(Flip(team)))
                && st == old(st).(homeTimeouts := st.homeTimeouts, awayTimeouts := st.awayTimeouts,
                                  isClockRunning := false)
                && sentUpdates == old(sentUpdates) +
                     IfLoaded(gameId, [(TeamKey(team) + "_timeouts", Int(st.TimeoutsOf(team))),
                                       ("is_clock_running", Bool(false))])
                && Logged(old(sentPlays), old(st), "Timeout - " + old(st.Name(team)), None)
      ensures old(st.TimeoutsOf(team)) <= 0 ==>
                st == old(st) && sentUpdates == old(sentUpdates) && sentPlays == old(sentPlays)
      ensures old(st.Valid()) ==> st.Valid()
      ensures gameId == old(gameId)
    {
      if st.TimeoutsOf(team) > 0 {
        var at := st;
        var left := st.TimeoutsOf(team) - 1;
        st := if team == Home then st.(homeTimeouts := left) else st.(awayTimeouts := left);
        st := st.(isClockRunning := false);
        SendUpdate([(TeamKey(team) + "_timeouts", Int(left)), ("is_clock_running", Bool(false))]);
        SendPlay(at, "Timeout - " + at.Name(team), None);
      }
    }

    /** One second of the running clock: never below zero, and reaching zero
        stops the clock. */
    method Tick()
      modifies this
      ensures st.timeLeft == TickTime(old(st.timeLeft))
      ensures st.timeLeft == 0 ==>
                st == old(st).(timeLeft := 0, isClockRunning := false) &&
                sentUpdates == old(sentUpdates) + IfLoaded(gameId, [("time_left", Int(0)), ("is_clock_running", Bool(false))])
      ensures st.timeLeft != 0 ==>
                st == old(st).(timeLeft := st.timeLeft) &&
                sentUpdates == old(sentUpdates) + IfLoaded(gameId, [("time_left", Int(st.timeLeft))])
      ensures sentPlays == old(sentPlays)
      ensures old(st.Valid()) ==> st.Valid()
      ensures gameId == old(gameId)
    {
      var newTime := if st.timeLeft <= 1 then 0 else st.timeLeft - 1;
      if newTime == 0 {
        st := st.(timeLeft := 0, isClockRunning := false);
        SendUpdate([("time_left", Int(newTime)), ("is_clock_running", Bool(false))]);
      } else {
        st := st.(timeLeft := newTime);
        SendUpdate([("time_left", Int(newTime))]);
      }
    }

    /** updateGameSituation: the setters run key by key, then the body goes
        to the server with `yardLine` renamed. */
    method UpdateGameSituation(updates: Fields)
      modifies this
      ensures st == ApplySituation(old(st), updates)
      ensures sentUpdates == old(sentUpdates) + IfLoaded(gameId, ApiUpdates(updates))
      ensures sentPlays == old(sentPlays)
      ensures gameId == old(gameId)
    {
      var i := 0;
      ghost var start := st;
      while i < |updates|
        invariant 0 <= i <= |updates|
        invariant st == ApplySituation(start, updates[..i])
        invariant sentUpdates == old(sentUpdates) && sentPlays == old(sentPlays) && gameId == old(gameId)
      {
        var (key, v) := updates[i];
        assert updates[..i + 1][..i] == updates[..i];
        if v.Int? {
          if key == "down" { st := st.(down := v.i); }
          else if key == "distance" { st := st.(distance := v.i); }
          else if key == "yardLine" || key == "yard_line" { st := st.(yardLine := v.i); }
          else if key == "time_left" { st := st.(timeLeft := v.i); }
          else if key == "quarter" { st := st.(quarter := v.i); }
          else if key == "home_score" { st := st.(homeScore := v.i); }
          else if key == "away_score" { st := st.(awayScore := v.i); }
        } else if key == "possession" && v.Str? && v.s in {"home", "away"} {
          st := st.(possession := if v.s == "home" then Home else Away);
        }
        i := i + 1;
      }
      assert updates[..i] == updates;
      SendUpdate(ApiUpdates(updates));
    }

    /** updateTeamName: the team's name changes and goes to the server. */
    method UpdateTeamName(team: Team, name: string)
      modifies this
      ensures st == (if team == Home then old(st).(homeTeam := name) else old(st).(awayTeam := name))
      ensures st.Name(team) == name && st.Name(Flip(team)) == old(st.Name(Flip(team)))
      ensures sentUpdates == old(sentUpdates) + IfLoaded(gameId, [(TeamKey(team) + "_team", Str(name))])
      ensures sentPlays == old(sentPlays) && gameId == old(gameId)
    {
      st := if team == Home then st.(homeTeam := name) else st.(awayTeam := name);
      SendUpdate([(TeamKey(team) + "_team", Str(name))]);
    }

    /** addCustomPlay: a text that is not blank is posted trimmed and the
        play box is cleared; a blank one does nothing. */
    method AddCustomPlay(playText: string, team: Option<string>)
      modifies this
      ensures Trim(playText) == "" ==> st == old(st) && sentPlays == old(sentPlays)
      ensures Trim(playText) != "" ==>
                st == old(st).(currentPlay := "") && Logged(old(sentPlays), old(st), Trim(playText), team)
      ensures sentUpdates == old(sentUpdates) && gameId == old(gameId)
    {
      var text := Trim(playText);
      if text != "" {
        SendPlay(st, text, team);
        st := st.(currentPlay := "");
      }
    }
  }

  /** deletePlayByPlay's guard: the id of the play to delete, or nothing when
      no game is loaded, the index is outside the list or the play has no id. */
  function DeleteTarget(gameId: Option<int>, playByPlay: seq<Play>, playIndex: int): (r: Option<int>)
    ensures r.Some? <==> gameId.Some? && 0 <= playIndex < |playByPlay| && playByPlay[playIndex].id != 0
    ensures r.Some? ==> r.value == playByPlay[playIndex].id
  {
    if gameId.None? || playIndex < 0 || playIndex >= |playByPlay| then None
    else if playByPlay[playIndex].id == 0 then None
    else Some(playByPlay[playIndex].id)
  }
}
