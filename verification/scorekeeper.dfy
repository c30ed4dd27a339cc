/** The scoring panel of the scorekeeper screen
    (client/src/components/ScorekeeperView.js): field-goal distance, the
    point buttons, the score and quarter buttons, timeout restoring and the
    clock editor. Each button is modelled by the request it makes of the
    session (client/src/App.js). */
module Scorekeeper {
  import opened Common
  import opened Roster
  import opened Store
  import Session

  /** What a button asks of the session. */
  datatype Effect =
    | UpdateSituation(updates: Fields)              // updateGameSituation(updates)
    | AddScore(team: Team, points: int, text: string) // addScore(team, points, text)
    | AddCustomPlay(text: string, teamName: string)   // addCustomPlay(text, teamName)
    | NoEffect

  /** The score column of a team. */
  function ScoreKey(team: Team): string
  {
    if team == Home then "home_score" else "away_score"
  }

  /** The TD button: six points straight into the score, nothing logged. */
  function Touchdown(team: Team, homeScore: int, awayScore: int): (e: Effect)
    ensures e.UpdateSituation? && Keys(e.updates) == [ScoreKey(team)]
  {
    UpdateSituation([(ScoreKey(team), Int(if team == Home then homeScore + 6 else awayScore + 6))])
  }

  /** Applied by the session, the TD button raises that team's score by six
      and changes nothing else of the state (the session's
      updateGameSituation logs no play). */
  lemma TouchdownAddsSix(st: Session.GameState, team: Team)
    ensures var e := Touchdown(team, st.homeScore, st.awayScore);
            Session.ApplySituation(st, e.updates)
            == if team == Home then st.(homeScore := st.homeScore + 6) else st.(awayScore := st.awayScore + 6)
  {
    var e := Touchdown(team, st.homeScore, st.awayScore);
    assert e.updates[..0] == [];
  }

  /** The kick distance: from the ball to the goal the offense faces, plus 17
      (10 yards of end zone and 7 of snap). */
  function FieldGoalDistance(fieldDirection: Team, yardLine: int): (d: int)
  {
    if fieldDirection == Home then (100 - yardLine) + 17 else yardLine + 17
  }

  lemma FieldGoalDistanceFacts(yardLine: int)
    ensures FieldGoalDistance(Home, yardLine) + FieldGoalDistance(Away, yardLine) == 134
    ensures 1 <= yardLine <= 99 ==>
              18 <= FieldGoalDistance(Home, yardLine) <= 116 && 18 <= FieldGoalDistance(Away, yardLine) <= 116
    ensures FieldGoalDistance(Home, 17) == 100 && FieldGoalDistance(Away, 83) == 100
  {
  }

  /** `kickerName ? `${kickerName} ` : ''` */
  function KickerText(kickerName: Option<string>): (r: string)
    ensures kickerName.None? || kickerName.value == "" ==> r == ""
    ensures kickerName.Some? && kickerName.value != "" ==> r == kickerName.value + " "
  {
    if kickerName.Some? && kickerName.value != "" then kickerName.value + " " else ""
  }

  /** handleFieldGoal: a made kick scores 3 with the distance text; a missed
      one scores nothing and logs the same text marked MISSED. */
  function FieldGoal(team: Team, made: bool, fieldDirection: Team, yardLine: int,
                     homeTeam: string, awayTeam: string, rosters: Rosters, kickers: Kickers): (e: Effect)
    ensures made ==> e.AddScore? && e.team == team && e.points == 3
    ensures !made ==> e.AddCustomPlay? && e.teamName == TeamName(team, homeTeam, awayTeam)
    ensures e.AddScore? || e.AddCustomPlay?
  {
    var distance := IntToString(FieldGoalDistance(fieldDirection, yardLine));
    var teamName := TeamName(team, homeTeam, awayTeam);
    var kickerText := KickerText(KickerName(rosters, kickers, team));
    if made then AddScore(team, 3, distance + " Yard Field Goal - " + kickerText + ": " + teamName)
    else AddCustomPlay(distance + " Yard Field Goal MISSED - " + kickerText + ": " + teamName, teamName)
  }

  /** The missed text is the made text with " MISSED" after "Field Goal";
      both start with the distance, whose digits read back as the distance,
      and end with the team's name. */
  lemma FieldGoalTexts(team: Team, fieldDirection: Team, yardLine: int, homeTeam: string, awayTeam: string,
                       rosters: Rosters, kickers: Kickers)
    ensures var made := FieldGoal(team, true, fieldDirection, yardLine, homeTeam, awayTeam, rosters, kickers).text;
            var missed := FieldGoal(team, false, fieldDirection, yardLine, homeTeam, awayTeam, rosters, kickers).text;
            var d := FieldGoalDistance(fieldDirection, yardLine);
            var k := |IntToString(d)| + |" Yard Field Goal"|;
            var tail := ": " + TeamName(team, homeTeam, awayTeam);
            && k <= |made| && missed == made[..k] + " MISSED" + made[k..]
            && made[..k] == IntToString(d) + " Yard Field Goal"
            && (d >= 0 ==> AllDigits(made[..|IntToString(d)|]) && DigitsValue(made[..|IntToString(d)|]) == d)
            && |tail| <= |made| && made[|made| - |tail|..] == tail
  {
    var d := FieldGoalDistance(fieldDirection, yardLine);
    var kickerText := KickerText(KickerName(rosters, kickers, team));
    var teamName := TeamName(team, homeTeam, awayTeam);
    MissedInserted(IntToString(d), kickerText, teamName);
    if d >= 0 {
      NatToStringDigits(d);
    }
  }

  /** The two field-goal templates on the same distance, kicker and team. */
  lemma MissedInserted(distance: string, kickerText: string, teamName: string)
    ensures var made := distance + " Yard Field Goal - " + kickerText + ": " + teamName;
            var missed := distance + " Yard Field Goal MISSED - " + kickerText + ": " + teamName;
            var k := |distance| + |" Yard Field Goal"|;
            var tail := ": " + teamName;
            && k <= |made| && missed == made[..k] + " MISSED" + made[k..]
            && made[..k] == distance + " Yard Field Goal" && made[..|distance|] == distance
            && |tail| <= |made| && made[|made| - |tail|..] == tail
  {
    var rest := " - " + kickerText + ": " + teamName;
    var made := distance + " Yard Field Goal - " + kickerText + ": " + teamName;
    assert made == distance + " Yard Field Goal" + rest;
    var k := |distance| + |" Yard Field Goal"|;
    assert made[..k] == distance + " Yard Field Goal" && made[k..] == rest;
    assert made == (distance + " Yard Field Goal - " + kickerText) + (": " + teamName);
  }

  function Safety(team: Team, homeTeam: string, awayTeam: string): (e: Effect)
    ensures e.AddScore? && e.team == team && e.points == 2
  {
    AddScore(team, 2, "SAFETY - " + TeamName(team, homeTeam, awayTeam))
  }

  function TwoPointConversion(team: Team, homeTeam: string, awayTeam: string): (e: Effect)
    ensures e.AddScore? && e.team == team && e.points == 2
  {
    AddScore(team, 2, "2-POINT CONVERSION - " + TeamName(team, homeTeam, awayTeam))
  }

  function ExtraPoint(team: Team, homeTeam: string, awayTeam: string, rosters: Rosters, kickers: Kickers): (e: Effect)
    ensures e.AddScore? && e.team == team && e.points == 1
  {
    AddScore(team, 1, "Extra Point - " + KickerText(KickerName(rosters, kickers, team)) + ": "
                      + TeamName(team, homeTeam, awayTeam))
  }

  /** The point each scoring button is worth, and that each of them scores
      for the team whose button was pressed with a non-empty text. */
  lemma PointValues(team: Team, homeTeam: string, awayTeam: string, rosters: Rosters, kickers: Kickers,
                    fieldDirection: Team, yardLine: int)
    ensures Safety(team, homeTeam, awayTeam).points == 2
    ensures TwoPointConversion(team, homeTeam, awayTeam).points == 2
    ensures ExtraPoint(team, homeTeam, awayTeam, rosters, kickers).points == 1
    ensures FieldGoal(team, true, fieldDirection, yardLine, homeTeam, awayTeam, rosters, kickers).points == 3
    ensures forall e :: e in [Safety(team, homeTeam, awayTeam), TwoPointConversion(team, homeTeam, awayTeam),
                              ExtraPoint(team, homeTeam, awayTeam, rosters, kickers),
                              FieldGoal(team, true, fieldDirection, yardLine, homeTeam, awayTeam, rosters, kickers)]
                      ==> e.AddScore? && e.team == team && e.text != ""
  {
  }

  /** The −1 button: one point off, never below zero. */
  function ScoreMinusOne(team: Team, score: int): (e: Effect)
    ensures e.UpdateSituation? && |e.updates| == 1 && e.updates[0].0 == ScoreKey(team)
    ensures e.updates[0].1.Int? && e.updates[0].1.i >= 0
    ensures score >= 1 ==> e.updates[0].1.i == score - 1
    ensures score <= 0 ==> e.updates[0].1.i == 0
  {
    UpdateSituation([(ScoreKey(team), Int(if score - 1 < 0 then 0 else score - 1))])
  }

  /** The Next Quarter button of this panel wraps the fourth quarter to the
      first. */
  function NextQuarterButton(quarter: int): (e: Effect)
    ensures e.UpdateSituation? && Keys(e.updates) == ["quarter"] && e.updates[0].1.Int?
    ensures quarter != 4 ==> e.updates[0].1.i == quarter + 1
    ensures quarter == 4 ==> e.updates[0].1.i == 1
  {
    UpdateSituation([("quarter", Int(if quarter == 4 then 1 else quarter + 1))])
  }

  function NextQuarterValue(quarter: int): int
  {
    NextQuarterButton(quarter).updates[0].1.i
  }

  /** Four presses bring a quarter in 1..4 back to itself, and the value
      stays in 1..4. */
  lemma NextQuarterCycles(quarter: int)
    requires 1 <= quarter <= 4
    ensures 1 <= NextQuarterValue(quarter) <= 4
    ensures NextQuarterValue(NextQuarterValue(NextQuarterValue(NextQuarterValue(quarter)))) == quarter
    ensures NextQuarterValue(4) == 1
  {
  }

  /** handleRestoreTimeout as written: below three, it asks for the whole
      `timeouts` object with that team's count raised by one. */
  function RestoreTimeout(team: Team, homeTimeouts: int, awayTimeouts: int): (e: Effect)
    ensures (if team == Home then homeTimeouts else awayTimeouts) >= 3 <==> e.NoEffect?
    ensures e.UpdateSituation? ==> Keys(e.updates) == ["timeouts"] && e.updates[0].1.Pair?
    ensures e.UpdateSituation? && team == Home ==> e.updates[0].1 == Pair(homeTimeouts + 1, awayTimeouts)
    ensures e.UpdateSituation? && team == Away ==> e.updates[0].1 == Pair(homeTimeouts, awayTimeouts + 1)
  {
    var current := if team == Home then homeTimeouts else awayTimeouts;
    if current < 3 then
      UpdateSituation([("timeouts", if team == Home then Pair(current + 1, awayTimeouts)
                                    else Pair(homeTimeouts, current + 1))])
    else NoEffect
  }

  /** The request handleRestoreTimeout evidently means to make: the team's
      own timeout column, one higher. */
  function RestoreTimeoutFixed(team: Team, homeTimeouts: int, awayTimeouts: int): (e: Effect)
    ensures (if team == Home then homeTimeouts else awayTimeouts) >= 3 <==> e.NoEffect?
    ensures e.UpdateSituation? ==>
              e.updates == [(TeamKey(team) + "_timeouts", Int((if team == Home then homeTimeouts else awayTimeouts) + 1))]
  {
    var current := if team == Home then homeTimeouts else awayTimeouts;
    if current < 3 then UpdateSituation([(TeamKey(team) + "_timeouts", Int(current + 1))])
    else NoEffect
  }

  // ---------------------------------------------------------------------------
  // Clock editor

  /** The minutes and seconds boxes of the clock editor. */
  class ClockEditor {
    var minutes: int
    var seconds: int

    /** The range the editing controls keep the boxes in. */
    ghost predicate Valid()
      reads this
    {
      0 <= minutes <= 60 && 0 <= seconds <= 59
    }

    /** The number of seconds the boxes show. */
    function Total(): int
      reads this
    {
      minutes * 60 + seconds
    }

    /** The boxes start from the clock: `Math.floor(timeLeft / 60)` and
        `timeLeft % 60`. */
    constructor (timeLeft: nat)
      ensures minutes == timeLeft / 60 && seconds == timeLeft % 60
      ensures Total() == timeLeft
      ensures timeLeft <= 3659 ==> Valid()
    {
      minutes := timeLeft / 60;
      seconds := timeLeft % 60;
    }

    /** The effect that re-reads the clock, and handleTimeCancel. */
    method Sync(timeLeft: nat)
      modifies this
      ensures minutes == timeLeft / 60 && seconds == timeLeft % 60
      ensures Total() == timeLeft
    {
      minutes := timeLeft / 60;
      seconds := timeLeft % 60;
    }

    method IncrementMinutes()
      modifies this
      ensures minutes == (if old(minutes) + 1 < 60 then old(minutes) + 1 else 60)
      ensures seconds == old(seconds)
      ensures old(Valid()) ==> Valid()
    {
      minutes := if minutes + 1 < 60 then minutes + 1 else 60;
    }

    method DecrementMinutes()
      modifies this
      ensures minutes == (if old(minutes) - 1 > 0 then old(minutes) - 1 else 0)
      ensures seconds == old(seconds)
      ensures old(Valid()) ==> Valid()
    {
      minutes := if minutes - 1 > 0 then minutes - 1 else 0;
    }

    /** One second up: 59 rolls over to 0 and carries a minute, capped at 60. */
    method IncrementSeconds()
      modifies this
      ensures old(seconds) == 59 ==>
                seconds == 0 && minutes == (if old(minutes) + 1 < 60 then old(minutes) + 1 else 60)
      ensures old(seconds) != 59 ==> seconds == old(seconds) + 1 && minutes == old(minutes)
      ensures old(Valid()) ==> Valid()
      ensures old(Valid()) && old(Total()) < 3600 ==> Total() == old(Total()) + 1
      ensures old(minutes) == 60 && old(seconds) == 59 ==> Total() == 3600
    {
      if seconds == 59 {
        minutes := if minutes + 1 < 60 then minutes + 1 else 60;
        seconds := 0;
      } else {
        seconds := seconds + 1;
      }
    }

    /** One second down: 0 rolls over to 59 and borrows a minute, floored at 0. */
    method DecrementSeconds()
      modifies this
      ensures old(seconds) == 0 ==>
                seconds == 59 && minutes == (if old(minutes) - 1 > 0 then old(minutes) - 1 else 0)
      ensures old(seconds) != 0 ==> seconds == old(seconds) - 1 && minutes == old(minutes)
      ensures old(Valid()) ==> Valid()
      ensures old(Valid()) && old(Total()) > 0 ==> Total() == old(Total()) - 1
      ensures old(minutes) == 0 && old(seconds) == 0 ==> Total() == 59
    {
      if seconds == 0 {
        minutes := if minutes - 1 > 0 then minutes - 1 else 0;
        seconds := 59;
      } else {
        seconds := seconds - 1;
      }
    }

    /** Typing a number (`parseInt(value) || 0`) into the minutes box. */
    method MinutesChanged(value: int)
      modifies this
      ensures minutes == Clamp(value, 0, 60) && seconds == old(seconds)
      ensures old(Valid()) ==> Valid()
    {
      minutes := Clamp(value, 0, 60);
    }

    /** Typing a number into the seconds box. */
    method SecondsChanged(value: int)
      modifies this
      ensures seconds == Clamp(value, 0, 59) && minutes == old(minutes)
      ensures old(Valid()) ==> Valid()
    {
      seconds := Clamp(value, 0, 59);
    }

    /** handleTimeSet: the clock is set to the seconds the boxes show. */
    method TimeSet() returns (e: Effect)
      ensures e == UpdateSituation([("time_left", Int(Total()))])
      ensures Valid() ==> 0 <= Total() <= 3659
    {
      e := UpdateSituation([("time_left", Int(minutes * 60 + seconds))]);
    }

    /** handleResetClock: the boxes show 15:00 and the clock is set to 900. */
    method ResetClock() returns (e: Effect)
      modifies this
      ensures minutes == 15 && seconds == 0 && Valid()
      ensures e == UpdateSituation([("time_left", Int(900))])
      ensures Total() == 900
    {
      minutes := 15;
      seconds := 0;
      e := UpdateSituation([("time_left", Int(15 * 60))]);
    }
  }

  /** Reading the clock into the editor and setting it back gives the same
      time. */
  method SyncThenSet(timeLeft: nat) returns (e: Effect)
    ensures e == UpdateSituation([("time_left", Int(timeLeft))])
  {
    var editor := new ClockEditor(timeLeft);
    e := editor.TimeSet();
  }
}
