/** The play-outcome engine of the statistics panel
    (client/src/components/StatsManager.js): how one scrimmage play moves the
    down, distance, ball and possession (calculateNewSituation), where a
    kickoff or punt puts the ball, and the play text processPlay writes. */
module Engine {
  import opened Common
  import opened Roster

  /** The part of the game situation a play changes. `yardLine` is on the
      0..100 scale the engine uses. */
  datatype Situation = Situation(down: int, distance: int, yardLine: int, possession: Team)

  /** Which branch of calculateNewSituation was taken. */
  datatype Outcome = FirstDown | TurnoverOnDowns | Safety | Touchdown | Normal

  /** The object calculateNewSituation returns; `possession` is present only
      on the branches that hand the ball over. */
  datatype NewSituation = NewSituation(down: int, distance: int, yardLine: int,
                                       possession: Option<Team>, outcome: Outcome)

  /** A situation the scorekeeping screens can show. */
  predicate ValidSituation(s: Situation)
  {
    1 <= s.down <= 4 && s.distance >= 1 && 1 <= s.yardLine <= 99
  }

  /** Yards are negated when the play runs against the field direction. */
  function AdjustedYards(possession: Team, fieldDirection: Team, yards: int): (r: int)
    ensures fieldDirection == possession ==> r == yards
    ensures fieldDirection != possession ==> r == -yards
  {
    if fieldDirection != possession then -yards else yards
  }

  /** calculateNewSituation, branch for branch in the order the source tests
      them: first down, turnover on downs, safety, touchdown, normal. */
  function CalculateNewSituation(s: Situation, fieldDirection: Team, yards: int): (r: NewSituation)
    ensures r.possession.Some? <==> r.outcome in {TurnoverOnDowns, Safety, Touchdown}
    ensures r.possession.Some? ==> r.possession.value == Flip(s.possession)
    ensures r.outcome != Normal ==> r.down == 1 && r.distance == 10
    ensures 1 <= r.yardLine <= 99
  {
    var newYardLine := s.yardLine + AdjustedYards(s.possession, fieldDirection, yards);
    if yards >= s.distance then
      NewSituation(1, 10, Clamp(newYardLine, 1, 99), None, FirstDown)
    else if s.down == 4 then
      NewSituation(1, 10, Clamp(100 - newYardLine, 1, 99), Some(Flip(s.possession)), TurnoverOnDowns)
    else if newYardLine <= 0 then
      NewSituation(1, 10, 20, Some(Flip(s.possession)), Safety)
    else if newYardLine >= 100 then
      NewSituation(1, 10, 25, Some(Flip(s.possession)), Touchdown)
    else
      NewSituation(s.down + 1, s.distance - yards, Clamp(newYardLine, 1, 99), None, Normal)
  }

  /** The situation processPlay hands to updateGameSituation:
      `possession: newSituation.possession || possession`. */
  function Applied(s: Situation, r: NewSituation): (t: Situation)
    ensures t.down == r.down && t.distance == r.distance && t.yardLine == r.yardLine
    ensures r.possession.None? ==> t.possession == s.possession
    ensures r.possession.Some? ==> t.possession == r.possession.value
  {
    Situation(r.down, r.distance, r.yardLine,
              if r.possession.Some? then r.possession.value else s.possession)
  }

  /** The situation after a scrimmage play. Every play keeps a valid
      situation valid: down in 1..4, a positive distance and the ball in
      1..99 (20 and 25 included). */
  function NextSituation(s: Situation, fieldDirection: Team, yards: int): (r: Situation)
    ensures ValidSituation(s) ==> ValidSituation(r)
  {
    Applied(s, CalculateNewSituation(s, fieldDirection, yards))
  }

  /** The first-down test compares the raw yards with the distance, whatever
      the field direction: the direction only decides where the ball goes. */
  lemma FirstDownIgnoresDirection(s: Situation, yards: int)
    ensures CalculateNewSituation(s, Home, yards).outcome == FirstDown
            <==> CalculateNewSituation(s, Away, yards).outcome == FirstDown
    ensures CalculateNewSituation(s, Home, yards).outcome == FirstDown <==> yards >= s.distance
  {
  }

  /** The ball changes hands exactly on a turnover on downs, a safety or a
      touchdown; a first down and a normal play keep the possession. */
  lemma PossessionChangesIff(s: Situation, fieldDirection: Team, yards: int)
    ensures var r := CalculateNewSituation(s, fieldDirection, yards);
            (NextSituation(s, fieldDirection, yards).possession != s.possession)
            <==> r.outcome in {TurnoverOnDowns, Safety, Touchdown}
  {
  }

  /** Each outcome and what it leaves behind, stated from the play's inputs. */
  lemma OutcomeCharacterised(s: Situation, fieldDirection: Team, yards: int)
    ensures var r := CalculateNewSituation(s, fieldDirection, yards);
            var newYardLine := s.yardLine + AdjustedYards(s.possession, fieldDirection, yards);
            && (r.outcome == FirstDown <==> yards >= s.distance)
            && (r.outcome == TurnoverOnDowns <==> yards < s.distance && s.down == 4)
            && (r.outcome == Safety <==> yards < s.distance && s.down != 4 && newYardLine <= 0)
            && (r.outcome == Touchdown <==> yards < s.distance && s.down != 4 && newYardLine >= 100)
            && (r.outcome != Normal ==> r.down == 1 && r.distance == 10)
            && (r.outcome == Normal ==> r.down == s.down + 1 && 1 <= r.distance == s.distance - yards)
  {
  }

  /** Where each outcome leaves the ball and who has it: a first down or a
      normal play at the new yard line (kept in 1..99) for the same team; a
      turnover on downs at the mirrored yard line for the other team; the
      other team at its 20 after a safety and at its 25 after a touchdown. */
  lemma OutcomeBallPlacement(s: Situation, fieldDirection: Team, yards: int)
    ensures var r := CalculateNewSituation(s, fieldDirection, yards);
            var t := NextSituation(s, fieldDirection, yards);
            var newYardLine := s.yardLine + AdjustedYards(s.possession, fieldDirection, yards);
            && (r.outcome in {FirstDown, Normal} ==>
                  t.yardLine == Clamp(newYardLine, 1, 99) && t.possession == s.possession)
            && (r.outcome == TurnoverOnDowns ==>
                  t.yardLine == Clamp(100 - newYardLine, 1, 99) && t.possession == Flip(s.possession))
            && (r.outcome == Safety ==> t.yardLine == 20 && t.possession == Flip(s.possession))
            && (r.outcome == Touchdown ==> t.yardLine == 25 && t.possession == Flip(s.possession))
  {
  }

  /** A gain of at least the distance that crosses the goal line is scored by
      the engine as a first down at the 99, not as a touchdown. */
  lemma LongGainIsFirstDownAt99(s: Situation, yards: int)
    requires yards >= s.distance && yards >= 0
    requires s.yardLine + yards >= 100
    ensures CalculateNewSituation(s, s.possession, yards) == NewSituation(1, 10, 99, None, FirstDown)
  {
  }

  /** On fourth down a play that crosses a goal line is a turnover, never a
      safety or a touchdown. */
  lemma FourthDownIsTurnover(s: Situation, fieldDirection: Team, yards: int)
    requires s.down == 4 && yards < s.distance
    ensures CalculateNewSituation(s, fieldDirection, yards).outcome == TurnoverOnDowns
  {
  }

  /** An incomplete pass (no yards) on fourth down with yards to go mirrors
      the ball to 100 - yardLine for the other team. */
  lemma FourthDownIncompleteMirrors(s: Situation, fieldDirection: Team)
    requires s.down == 4 && s.distance > 0 && 1 <= s.yardLine <= 99
    ensures NextSituation(s, fieldDirection, 0)
            == Situation(1, 10, 100 - s.yardLine, Flip(s.possession))
  {
  }

  // ---------------------------------------------------------------------------
  // Kickoffs and punts

  /** `kickFieldSide === 'home' ? N : 100 - N` */
  function KickFieldPosition(fieldSide: Team, n: int): (y: int)
    ensures fieldSide == Home ==> y == n
    ensures fieldSide == Away ==> y == 100 - n
    ensures 0 <= n <= 100 ==> 0 <= y <= 100
  {
    if fieldSide == Home then n else 100 - n
  }

  lemma KickFieldPositionSides(n: int)
    ensures KickFieldPosition(Home, n) + KickFieldPosition(Away, n) == 100
    ensures KickFieldPosition(Home, 50) == KickFieldPosition(Away, 50) == 50
  {
  }

  // ---------------------------------------------------------------------------
  // Play text

  /** `${name ? `${name} ` : ''}` */
  function NamePrefix(name: string): (r: string)
    ensures name == "" ==> r == ""
    ensures name != "" ==> r == name + " "
  {
    if name == "" then "" else name + " "
  }

  /** `${yards > 0 ? '+' : ''}${yards}` */
  function SignedYards(yards: int): (r: string)
    ensures yards > 0 ==> r == "+" + NatToString(yards)
    ensures yards <= 0 ==> r == IntToString(yards)
  {
    (if yards > 0 then "+" else "") + IntToString(yards)
  }

  function RushText(rusher: string, yards: int): string
  {
    NamePrefix(rusher) + SignedYards(yards) + " yard rush"
  }

  function IncompletePassText(thrower: string, receiver: string): string
  {
    NamePrefix(thrower) + "incomplete pass" + (if receiver == "" then "" else " intended for " + receiver)
  }

  function PassText(thrower: string, receiver: string, yards: int, isComplete: bool): string
  {
    NamePrefix(thrower) + SignedYards(yards) + " yard pass"
    + (if receiver == "" then "" else " to " + receiver)
    + " " + (if isComplete then "(complete)" else "(incomplete)")
  }

  datatype KickKind = Kickoff | Punt

  /** `Kickoff|Punt by {kicker label or kicking team} to {field-side team} {N}` */
  function KickText(kind: KickKind, kicker: Option<string>, kickingTeam: string,
                    fieldSideTeam: string, n: nat): string
  {
    (if kind == Kickoff then "Kickoff by " else "Punt by ")
    + (if kicker.Some? && kicker.value != "" then kicker.value else kickingTeam)
    + " to " + fieldSideTeam + " " + NatToString(n)
  }

  /** The words processPlay appends for an outcome. */
  function OutcomeSuffix(o: Outcome): (r: string)
    ensures o == Normal <==> r == ""
  {
    match o
    case FirstDown => " - FIRST DOWN"
    case TurnoverOnDowns => " - TURNOVER ON DOWNS"
    case Safety => " - SAFETY"
    case Touchdown => " - TOUCHDOWN"
    case Normal => ""
  }

  // ---------------------------------------------------------------------------
  // processPlay

  datatype PlayType = RushPlay | PassPlay | KickoffPlay | PuntPlay

  /** The yardage box: empty, the incomplete mark `x`/`X`, or a number
      (`parseInt(yardage) || 0`, already read). */
  datatype Yardage = Blank | IncompleteMark | Yards(n: int)

  /** The play form of the statistics panel. */
  datatype PlayForm = PlayForm(
    playType: PlayType,
    yardage: Yardage,
    isComplete: bool,
    thrower: string,
    ballCarrier: string,
    kickReceivingTeam: Team,
    kickFieldSide: Team,
    kickYardLine: Option<nat>,
    fieldDirection: Team)

  /** What processPlay sends out: the new situation for updateGameSituation and
      the text and team name for addCustomPlay. */
  datatype PlayEffect = PlayEffect(situation: Situation, description: string, team: string)

  predicate IsKick(t: PlayType)
  {
    t == KickoffPlay || t == PuntPlay
  }

  /** The yards a scrimmage play counts: 0 for the incomplete mark. */
  function PlayYards(y: Yardage): int
  {
    if y.Yards? then y.n else 0
  }

  /** The text of a scrimmage play before any outcome suffix. */
  function ScrimmageText(rosters: Rosters, s: Situation, form: PlayForm): string
  {
    var yards := PlayYards(form.yardage);
    if form.playType == RushPlay then
      RushText(GetPlayerName(rosters, s.possession, form.ballCarrier), yards)
    else
      var thrower := GetPlayerName(rosters, s.possession, form.thrower);
      var receiver := GetPlayerName(rosters, s.possession, form.ballCarrier);
      if form.yardage == IncompleteMark then IncompletePassText(thrower, receiver)
      else PassText(thrower, receiver, yards, form.isComplete)
  }

  /** processPlay: nothing for a scrimmage play without yardage or a kick
      without a yard line; otherwise the new situation, the play text with at
      most one outcome suffix appended, and the team the play is logged for. */
  method ProcessPlay(rosters: Rosters, kickers: Kickers, s: Situation,
                     homeTeam: string, awayTeam: string, form: PlayForm)
    returns (r: Option<PlayEffect>)
    ensures IsKick(form.playType) ==> (r.None? <==> form.kickYardLine.None?)
    ensures !IsKick(form.playType) ==> (r.None? <==> form.yardage == Blank)
    ensures r.Some? && IsKick(form.playType) ==>
              r.value == PlayEffect(
                Situation(1, 10, KickFieldPosition(form.kickFieldSide, form.kickYardLine.value),
                          form.kickReceivingTeam),
                KickText(if form.playType == KickoffPlay then Kickoff else Punt,
                         KickerLabel(rosters, kickers, s.possession),
                         TeamName(s.possession, homeTeam, awayTeam),
                         TeamName(form.kickFieldSide, homeTeam, awayTeam),
                         form.kickYardLine.value),
                TeamName(s.possession, homeTeam, awayTeam))
    ensures r.Some? && !IsKick(form.playType) ==>
              var next := CalculateNewSituation(s, form.fieldDirection, PlayYards(form.yardage));
              r.value == PlayEffect(
                Applied(s, next),
                ScrimmageText(rosters, s, form) + OutcomeSuffix(next.outcome),
                TeamName(s.possession, homeTeam, awayTeam))
  {
    var starting := IsKick(form.playType);
    if !starting && form.yardage == Blank {
      return None;
    }
    if starting && form.kickYardLine.None? {
      return None;
    }
    var kickingTeam := TeamName(s.possession, homeTeam, awayTeam);
    if starting {
      var n := form.kickYardLine.value;
      var kind := if form.playType == KickoffPlay then Kickoff else Punt;
      var description := KickText(kind, KickerLabel(rosters, kickers, s.possession), kickingTeam,
                                  TeamName(form.kickFieldSide, homeTeam, awayTeam), n);
      var situation := Situation(1, 10, KickFieldPosition(form.kickFieldSide, n), form.kickReceivingTeam);
      return Some(PlayEffect(situation, description, kickingTeam));
    }
    var yards := PlayYards(form.yardage);
    var description := ScrimmageText(rosters, s, form);
    var next := CalculateNewSituation(s, form.fieldDirection, yards);
    if next.outcome == FirstDown {
      description := description + " - FIRST DOWN";
    }
    if next.outcome == TurnoverOnDowns {
      description := description + " - TURNOVER ON DOWNS";
    }
    if next.outcome == Safety {
      description := description + " - SAFETY";
    }
    if next.outcome == Touchdown {
      description := description + " - TOUCHDOWN";
    }
    r := Some(PlayEffect(Applied(s, next), description, kickingTeam));
  }
}
