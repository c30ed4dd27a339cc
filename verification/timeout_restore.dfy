/** Restoring a timeout from the scorekeeper panel, end to end: the request
    the panel builds, what updateGameSituation makes of it locally and what
    the PUT route's allow-list keeps of it. As written the request names the
    key `timeouts`, which neither the local setters nor the allow-list know,
    so nothing changes anywhere; the corrected request names the team's own
    timeout column. */
module TimeoutRestore {
  import opened Common
  import opened Store
  import Session
  import Scorekeeper

  function CurrentTimeouts(team: Team, homeTimeouts: int, awayTimeouts: int): int
  {
    if team == Home then homeTimeouts else awayTimeouts
  }

  /** As written: below three timeouts, the request changes neither the
      client's state nor anything the PUT may write (the route answers 400
      for a body with no allow-listed key). */
  lemma RestoreTimeoutIsLost(team: Team, st: Session.GameState)
    requires CurrentTimeouts(team, st.homeTimeouts, st.awayTimeouts) < 3
    ensures var e := Scorekeeper.RestoreTimeout(team, st.homeTimeouts, st.awayTimeouts);
            && e.UpdateSituation?
            && AllowedUpdates(Session.ApiUpdates(e.updates)) == []
            && Session.ApplySituation(st, e.updates) == st
  {
    var e := Scorekeeper.RestoreTimeout(team, st.homeTimeouts, st.awayTimeouts);
    var body := e.updates;
    assert body[..0] == [];
    assert Session.ApiUpdates(body) == [("timeouts", body[0].1)];
    assert "timeouts" !in AllowedFields;
  }

  /** Corrected: below three timeouts, the one allow-listed pair is the
      team's timeout column raised by one, and writing it changes that
      column and no other. */
  lemma RestoreTimeoutFixedReachesRow(team: Team, homeTimeouts: int, awayTimeouts: int, g: Game)
    requires CurrentTimeouts(team, homeTimeouts, awayTimeouts) < 3
    ensures var e := Scorekeeper.RestoreTimeoutFixed(team, homeTimeouts, awayTimeouts);
            var column := TeamKey(team) + "_timeouts";
            var allowed := AllowedUpdates(Session.ApiUpdates(e.updates));
            && e.UpdateSituation?
            && allowed == [(column, Int(CurrentTimeouts(team, homeTimeouts, awayTimeouts) + 1))]
            && ApplyUpdates(g, allowed) == g[column := Int(CurrentTimeouts(team, homeTimeouts, awayTimeouts) + 1)]
  {
    var e := Scorekeeper.RestoreTimeoutFixed(team, homeTimeouts, awayTimeouts);
    var body := e.updates;
    var column := TeamKey(team) + "_timeouts";
    assert column in AllowedFields by {
      if team == Home {
        assert column == AllowedFields[11];
      } else {
        assert column == AllowedFields[12];
      }
    }
    assert body[..0] == [];
    assert Session.ApiUpdates(body) == body;
    assert body[..0] == [];
    assert AllowedUpdates(body) == body;
    assert ApplyUpdates(g, body) == ApplyUpdates(g, body[..0])[column := body[0].1];
  }
}
