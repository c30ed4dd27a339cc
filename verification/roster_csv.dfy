/** CSV import and export of a team roster (handleCSVImport and exportRoster
    of client/src/components/StatsManager.js). */
module RosterCsv {
  import opened Common
  import opened Roster
  import opened CsvLine
  import opened CsvImport

  /** The imported players go after the team's existing roster. */
  function AppendImported(rosters: Rosters, team: Team, players: seq<Player>): (r: Rosters)
    ensures r.Of(team) == rosters.Of(team) + players
    ensures r.Of(Flip(team)) == rosters.Of(Flip(team))
  {
    rosters.With(team, rosters.Of(team) + players)
  }

  const CsvHeader: string := "Number,Name,Position"

  function CsvRows(ps: seq<Player>): (r: seq<string>)
    ensures |r| == |ps| && forall i :: 0 <= i < |ps| ==> r[i] == CsvRow(ps[i])
  {
    if ps == [] then [] else [CsvRow(ps[0])] + CsvRows(ps[1..])
  }

  /** exportRoster: the header line, then one `number,name,position` line per
      player; nothing for an empty roster. */
  function ExportCsv(ps: seq<Player>): (r: Option<string>)
    ensures r.None? <==> ps == []
    ensures r.Some? ==> StartsWith(r.value, CsvHeader + "\n")
  {
    if ps == [] then None else Some(CsvHeader + "\n" + Join(CsvRows(ps), '\n'))
  }

  /** The players as the import re-creates them: the one from data line
      i + 1 gets id `now + i + 1`. */
  function WithImportIds(ps: seq<Player>, now: int): (r: seq<Player>)
    ensures |r| == |ps|
    ensures forall i :: 0 <= i < |ps| ==> r[i] == ps[i].(id := now + i + 1)
  {
    seq(|ps|, i requires 0 <= i < |ps| => ps[i].(id := now + i + 1))
  }

  /** Collecting lines that all parsed gives exactly their players. */
  lemma {:induction false} CollectAllParsed(parsed: seq<Option<Player>>, expected: seq<Player>)
    requires |parsed| == |expected|
    requires forall k :: 0 <= k < |parsed| ==> parsed[k] == Some(expected[k])
    ensures Collect(parsed) == expected
  {
    if parsed != [] {
      var n := |parsed| - 1;
      CollectAllParsed(parsed[..n], expected[..n]);
      assert expected == expected[..n] + [expected[n]];
    }
  }

  /** Round trip: importing an exported roster gives back its players, in
      order, each with the id the import assigns. */
  lemma ExportImportRoundTrip(ps: seq<Player>, now: int)
    requires ps != []
    requires forall i :: 0 <= i < |ps| ==> Exportable(ps[i])
    ensures CsvPlayers(Split(ExportCsv(ps).value, '\n'), now) == WithImportIds(ps, now)
  {
    var rows := CsvRows(ps);
    var lines := [CsvHeader] + rows;
    assert ExportCsv(ps).value == Join(lines, '\n') by {
      assert lines[1..] == rows;
    }
    forall i | 0 <= i < |lines| ensures '\n' !in lines[i] {
      if i > 0 {
        var p := ps[i - 1];
        assert rows[i - 1] == p.number + "," + p.name + "," + p.position;
      }
    }
    SplitJoin(lines, '\n');
    var parsed := ParsedLines(lines, now);
    var expected := WithImportIds(ps, now);
    forall k | 0 <= k < |parsed| ensures parsed[k] == Some(expected[k]) {
      ParseCsvRow(ps[k], now + k + 1);
    }
    CollectAllParsed(parsed, expected);
  }
}
