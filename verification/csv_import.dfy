/** The import loop of handleCSVImport (client/src/components/StatsManager.js):
    every data line of the file read as a player. */
module CsvImport {
  import opened Common
  import opened Roster
  import opened CsvLine

  /** What each data line of the file reads as: line k + 1 (line 0 is the
      header) with id `now + k + 1`. */
  function ParsedLines(lines: seq<string>, now: int): (r: seq<Option<Player>>)
    requires |lines| >= 1
    ensures |r| == |lines| - 1
    ensures forall k :: 0 <= k < |r| ==> r[k] == ParseCsvLine(lines[k + 1], now + k + 1)
  {
    seq(|lines| - 1, k requires 0 <= k < |lines| - 1 => ParseCsvLine(lines[k + 1], now + k + 1))
  }

  /** The players among the parsed lines, in line order. */
  function Collect(parsed: seq<Option<Player>>): (r: seq<Player>)
  {
    if parsed == [] then []
    else
      var last := parsed[|parsed| - 1];
      Collect(parsed[..|parsed| - 1]) + (if last.Some? then [last.value] else [])
  }

  /** The players an import of these lines produces. */
  function CsvPlayers(lines: seq<string>, now: int): seq<Player>
    requires |lines| >= 1
  {
    Collect(ParsedLines(lines, now))
  }

  /** Collect takes the parsed lines one at a time. */
  lemma CollectSnoc(parsed: seq<Option<Player>>, x: Option<Player>)
    ensures Collect(parsed + [x]) == Collect(parsed) + (if x.Some? then [x.value] else [])
  {
    assert (parsed + [x])[..|parsed|] == parsed;
  }

  /** The import loop of handleCSVImport over the lines of the file: collects
      the player of every data line. */
  method ImportLines(lines: seq<string>, now: int) returns (players: seq<Player>)
    requires |lines| >= 1
    ensures players == CsvPlayers(lines, now)
  {
    ghost var all := ParsedLines(lines, now);
    players := [];
    var i := 1;
    while i < |lines|
      invariant 1 <= i <= |lines|
      invariant players == Collect(all[..i - 1])
    {
      var parsed := ParseCsvLine(lines[i], now + i);
      assert parsed == all[i - 1];
      assert all[..i] == all[..i - 1] + [parsed];
      CollectSnoc(all[..i - 1], parsed);
      if parsed.Some? {
        players := players + [parsed.value];
      }
      i := i + 1;
    }
    assert all[..|lines| - 1] == all;
  }

  /** handleCSVImport on the file's text: split into lines, then the import loop. */
  method ImportCsv(csv: string, now: int) returns (players: seq<Player>)
    ensures players == CsvPlayers(Split(csv, '\n'), now)
  {
    players := ImportLines(Split(csv, '\n'), now);
  }
}
