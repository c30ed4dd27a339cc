/** One line of the roster file format: `number,name,position`. */
module CsvLine {
  import opened Common
  import opened Roster

  /** One data line of an imported file: trimmed, split on commas, each field
      trimmed; a player only when both number and name are non-empty. */
  function ParseCsvLine(raw: string, id: int): (r: Option<Player>)
    ensures r.Some? ==> r.value.id == id && |r.value.number| > 0 && |r.value.name| > 0
    ensures (forall j :: 0 <= j < |raw| ==> IsSpace(raw[j])) ==> r.None?
  {
    TrimTrims(raw);
    var line := Trim(raw);
    if |line| == 0 then None
    else
      var fields := Split(line, ',');
      var number := Trim(fields[0]);
      var name := if |fields| > 1 then Trim(fields[1]) else "";
      var position := if |fields| > 2 then Trim(fields[2]) else "";
      if |number| > 0 && |name| > 0 then Some(Player(id, number, name, position)) else None
  }

  /** The line exportRoster writes for a player. */
  function CsvRow(p: Player): string
  {
    p.number + "," + p.name + "," + p.position
  }

  /** A player whose fields survive the file format: no separators inside a
      field, no surrounding blanks, and a number and a name. */
  predicate Exportable(p: Player)
  {
    && p.number != "" && p.name != ""
    && ',' !in p.number && ',' !in p.name && ',' !in p.position
    && '\n' !in p.number && '\n' !in p.name && '\n' !in p.position
    && Trimmed(p.number) && Trimmed(p.name) && Trimmed(p.position)
  }

  lemma RowIsJoin(p: Player)
    ensures CsvRow(p) == Join([p.number, p.name, p.position], ',')
  {
    var fields := [p.number, p.name, p.position];
    assert fields[1..] == [p.name, p.position] && fields[1..][1..] == [p.position];
    assert Join([p.name, p.position], ',') == p.name + [','] + p.position;
  }

  lemma RowTrimmed(p: Player)
    requires p.number != "" && Trimmed(p.number) && Trimmed(p.position)
    ensures Trimmed(CsvRow(p)) && CsvRow(p) != ""
  {
    var row := CsvRow(p);
    assert row[0] == p.number[0];
    assert row[|row| - 1] == if p.position == "" then ',' else p.position[|p.position| - 1];
  }

  /** A row written by the export reads back as the same player. */
  lemma ParseCsvRow(p: Player, id: int)
    requires Exportable(p)
    ensures ParseCsvLine(CsvRow(p), id) == Some(Player(id, p.number, p.name, p.position))
  {
    var fields := [p.number, p.name, p.position];
    RowIsJoin(p);
    RowTrimmed(p);
    TrimTrims(CsvRow(p));
    SplitJoin(fields, ',');
    TrimTrims(p.number);
    TrimTrims(p.name);
    TrimTrims(p.position);
  }

  /** Which lines are kept: a line with no blanks around it, made of
      comma-free fields, gives a player exactly when its first two fields are
      non-blank, and the player holds the first three fields trimmed. */
  lemma ParseCsvLineFields(xs: seq<string>, id: int)
    requires |xs| >= 1 && forall i :: 0 <= i < |xs| ==> ',' !in xs[i]
    requires Trimmed(Join(xs, ','))
    ensures var name := if |xs| > 1 then Trim(xs[1]) else "";
            var position := if |xs| > 2 then Trim(xs[2]) else "";
            ParseCsvLine(Join(xs, ','), id)
            == if Trim(xs[0]) != "" && name != "" then Some(Player(id, Trim(xs[0]), name, position)) else None
  {
    var line := Join(xs, ',');
    TrimTrims(line);
    SplitJoin(xs, ',');
    if line == "" {
      assert |xs| == 1 && xs[0] == "";
      TrimTrims(xs[0]);
    }
  }

  /** A player read from a one-line entry has trimmed, separator-free
      fields, so the export can write it. */
  lemma ParsedPlayerExportable(raw: string, id: int)
    requires '\n' !in raw
    requires ParseCsvLine(raw, id).Some?
    ensures Exportable(ParseCsvLine(raw, id).value)
  {
    var line := Trim(raw);
    TrimKeeps(raw, '\n');
    var fields := Split(line, ',');
    SplitPieces(line, ',', '\n');
    TrimTrims(fields[0]);
    TrimKeeps(fields[0], ',');
    TrimKeeps(fields[0], '\n');
    TrimTrims(fields[1]);
    TrimKeeps(fields[1], ',');
    TrimKeeps(fields[1], '\n');
    if |fields| > 2 {
      TrimTrims(fields[2]);
      TrimKeeps(fields[2], ',');
      TrimKeeps(fields[2], '\n');
    }
  }

  /** Import then export then import: a player read from a line is written
      as a row that reads back as the same player. */
  lemma CsvLineRoundTrip(raw: string, id: int, id2: int)
    requires '\n' !in raw
    requires ParseCsvLine(raw, id).Some?
    ensures var p := ParseCsvLine(raw, id).value;
            ParseCsvLine(CsvRow(p), id2) == Some(p.(id := id2))
  {
    ParsedPlayerExportable(raw, id);
    ParseCsvRow(ParseCsvLine(raw, id).value, id2);
  }
}
