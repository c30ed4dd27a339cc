/** The read-only game view (client/src/components/GamecastView.js): the ball
    position in football notation, the down ordinal, the timeout slots and the
    possession dividers of the play-by-play list. */
module Gamecast {
  import opened Common

  /** formatYardLineDisplay: "50" at midfield, the possessing team's name and
      the yard line on its own half, and the opponent's name and 100 - yardLine
      on the other half. */
  function FormatYardLineDisplay(yardLine: int, possession: Team, homeTeam: string, awayTeam: string): string
  {
    if yardLine == 50 then "50"
    else if yardLine < 50 then TeamName(possession, homeTeam, awayTeam) + " " + IntToString(yardLine)
    else TeamName(Flip(possession), homeTeam, awayTeam) + " " + IntToString(100 - yardLine)
  }

  lemma DisplayMidfield(possession: Team, homeTeam: string, awayTeam: string)
    ensures FormatYardLineDisplay(50, possession, homeTeam, awayTeam) == "50"
  {
  }

  /** On the possessing team's half the ball is shown against that team. */
  lemma DisplayOwnHalf(yardLine: int, possession: Team, homeTeam: string, awayTeam: string)
    requires yardLine < 50
    ensures FormatYardLineDisplay(yardLine, possession, homeTeam, awayTeam)
            == TeamName(possession, homeTeam, awayTeam) + " " + IntToString(yardLine)
  {
  }

  /** Past midfield the ball is shown against the opponent, counted from the
      opponent's goal line: 51..99 show as 49..1. */
  lemma DisplayOpponentHalf(yardLine: int, possession: Team, homeTeam: string, awayTeam: string)
    requires 50 < yardLine <= 99
    ensures var d := 100 - yardLine;
            1 <= d <= 49 &&
            FormatYardLineDisplay(yardLine, possession, homeTeam, awayTeam)
            == TeamName(Flip(possession), homeTeam, awayTeam) + " " + NatToString(d)
  {
  }

  /** The same spot seen from the other team's possession reads the same. */
  lemma DisplaySymmetric(yardLine: int, homeTeam: string, awayTeam: string)
    ensures FormatYardLineDisplay(yardLine, Home, homeTeam, awayTeam)
            == FormatYardLineDisplay(100 - yardLine, Away, homeTeam, awayTeam)
  {
  }

  /** `['st', 'nd', 'rd', 'th'][down-1]`; any other down indexes past the
      array and renders nothing. */
  function DownSuffix(down: int): (r: string)
    ensures 1 <= down <= 4 ==> r == ["st", "nd", "rd", "th"][down - 1]
    ensures !(1 <= down <= 4) ==> r == ""
  {
    if down == 1 then "st"
    else if down == 2 then "nd"
    else if down == 3 then "rd"
    else if down == 4 then "th"
    else ""
  }

  /** `{down}{suffix} & {distance}` */
  function DownAndDistance(down: int, distance: int): string
  {
    IntToString(down) + DownSuffix(down) + " & " + IntToString(distance)
  }

  /** For a down of 1..4 the line reads back: the down's digit, its ordinal
      suffix, " & ", then the digits of the distance. */
  lemma DownAndDistanceReadsBack(down: int, distance: int)
    requires 1 <= down <= 4 && distance >= 0
    ensures var r := DownAndDistance(down, distance);
            && |r| >= 7 && IsDigit(r[0]) && DigitValue(r[0]) == down
            && r[1..3] == ["st", "nd", "rd", "th"][down - 1] && r[3..6] == " & "
            && AllDigits(r[6..]) && DigitsValue(r[6..]) == distance
  {
    NatToStringDigits(distance);
    var r := DownAndDistance(down, distance);
    assert r == [DigitChar(down)] + DownSuffix(down) + " & " + NatToString(distance);
    assert r[6..] == NatToString(distance);
  }

  lemma DownAndDistanceExamples()
    ensures DownAndDistance(1, 10) == "1st & 10"
    ensures DownAndDistance(4, 2) == "4th & 2"
  {
  }

  /** The timeout indicator: `timeouts` filled slots then `3 - timeouts`
      empty ones; `Array(n)` throws a RangeError on a negative length, so a
      count outside 0..3 renders nothing (None). */
  function TimeoutSlots(timeouts: int): (r: Option<seq<bool>>)
    ensures r.Some? <==> 0 <= timeouts <= 3
    ensures r.Some? ==> |r.value| == 3 && forall i :: 0 <= i < 3 ==> (r.value[i] <==> i < timeouts)
  {
    if timeouts < 0 || 3 - timeouts < 0 then None
    else Some(seq(timeouts, _ => true) + seq(3 - timeouts, _ => false))
  }

  // ---------------------------------------------------------------------------
  // Possession dividers

  /** A divider heads the list and every play whose team differs from the
      play before it. */
  predicate ShowsDivider(teams: seq<string>, index: nat)
    requires index < |teams|
  {
    index == 0 || teams[index - 1] != teams[index]
  }

  /** Every play sits under a divider that names its own team: the nearest
      divider at or above it, with only plays of that team in between. */
  lemma {:induction false} DividerHeadsRun(teams: seq<string>, index: nat)
    requires index < |teams|
    ensures exists j :: 0 <= j <= index && ShowsDivider(teams, j) &&
                        forall k :: j <= k <= index ==> teams[k] == teams[index]
  {
    if ShowsDivider(teams, index) {
      assert forall k :: index <= k <= index ==> teams[k] == teams[index];
    } else {
      DividerHeadsRun(teams, index - 1);
      var j :| 0 <= j <= index - 1 && ShowsDivider(teams, j) &&
               forall k :: j <= k <= index - 1 ==> teams[k] == teams[index - 1];
      assert forall k :: j <= k <= index ==> teams[k] == teams[index];
    }
  }

  /** Two consecutive plays of the same team are never separated. */
  lemma NoDividerInsideRun(teams: seq<string>, index: nat)
    requires 0 < index < |teams| && teams[index - 1] == teams[index]
    ensures !ShowsDivider(teams, index)
  {
  }
}
