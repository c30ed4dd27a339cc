/** The player statistics panel (client/src/components/PlayerStatsManager.js):
    one entry per offensive roster player, the events the play texts credit
    to them, their summaries and the team totals. */
module PlayerStats {
  import opened Common
  import opened Roster
  import opened PlayParse

  // ---------------------------------------------------------------------------
  // Offensive players

  /** The position codes that mark a defensive player. */
  const DefensivePositions: seq<string> := ["db", "lb", "dl", "cb", "fs", "ss", "olb", "mlb", "ilb", "de", "dt", "nt"]

  /** `codes.some(code => lowered.includes(code))` */
  predicate ContainsAny(lowered: string, codes: seq<string>)
  {
    codes != [] && (Contains(lowered, codes[0]) || ContainsAny(lowered, codes[1..]))
  }

  lemma {:induction false} ContainsAnyIff(lowered: string, codes: seq<string>)
    ensures ContainsAny(lowered, codes) <==> exists i :: 0 <= i < |codes| && Contains(lowered, codes[i])
  {
    if codes != [] {
      ContainsAnyIff(lowered, codes[1..]);
      assert forall i :: 1 <= i < |codes| ==> codes[1..][i - 1] == codes[i];
    }
  }

  /** isOffensivePlayer: a blank position counts as offensive. */
  predicate IsOffensive(position: string)
  {
    position == "" || !ContainsAny(ToLower(position), DefensivePositions)
  }

  /** A player is offensive exactly when the position is blank or its lower
      case contains none of the twelve defensive codes. */
  lemma IsOffensiveIff(position: string)
    ensures IsOffensive(position) <==>
              position == "" ||
              forall i :: 0 <= i < |DefensivePositions| ==> !Contains(ToLower(position), DefensivePositions[i])
  {
    ContainsAnyIff(ToLower(position), DefensivePositions);
  }

  lemma ContainsAt(s: string, sub: string, i: nat)
    requires i + |sub| <= |s| && s[i..i + |sub|] == sub
    ensures Contains(s, sub)
    decreases i
  {
    if i > 0 {
      assert s[1..][i - 1..i - 1 + |sub|] == sub;
      ContainsAt(s[1..], sub, i - 1);
    }
  }

  /** A string without the first letter of a code does not contain it. */
  lemma {:induction false} NotContainsFirst(s: string, sub: string)
    requires sub != [] && sub[0] !in s
    ensures !Contains(s, sub)
    decreases |s|
  {
    if s != [] {
      assert s[1..] == s[1..] && forall c :: c in s[1..] ==> c in s;
      NotContainsFirst(s[1..], sub);
    }
  }

  /** A cornerback is defensive. */
  lemma CornerbackIsDefensive()
    ensures !IsOffensive("CB")
  {
    assert ToLower("CB") == "cb";
    ContainsAt("cb", "cb", 0);
    assert DefensivePositions[3] == "cb";
    ContainsAnyIff("cb", DefensivePositions);
  }

  /** The codes are found anywhere in the position: a "Punter" holds "nt"
      and counts as defensive. */
  lemma PunterIsDefensive()
    ensures !IsOffensive("Punter")
  {
    var lowered := ToLower("Punter");
    assert lowered == "punter";
    assert lowered[2..4] == "nt";
    ContainsAt(lowered, "nt", 2);
    assert DefensivePositions[11] == "nt";
    ContainsAnyIff(lowered, DefensivePositions);
  }

  /** A quarterback is offensive, and so is a blank position. */
  lemma OffensiveExamples()
    ensures IsOffensive("") && IsOffensive("QB")
  {
    assert ToLower("QB") == "qb";
    forall i | 0 <= i < |DefensivePositions|
      ensures !Contains("qb", DefensivePositions[i])
    {
      NotContainsFirst("qb", DefensivePositions[i]);
    }
    ContainsAnyIff("qb", DefensivePositions);
  }

  // ---------------------------------------------------------------------------
  // Entries

  /** One player's entry: who it is and the events credited so far. */
  datatype Entry = Entry(name: string, number: string, position: string, team: Team, plays: seq<Event>)

  /** The `playerPlays` object: keys in insertion order. */
  type Entries = seq<(string, Entry)>

  /** `${team}-${player.number}` */
  function EntryKey(team: Team, number: string): string
  {
    TeamKey(team) + "-" + number
  }

  predicate DistinctKeys(entries: Entries)
  {
    forall i, j :: 0 <= i < j < |entries| ==> entries[i].0 != entries[j].0
  }

  /** `obj[key] = e`: an existing key keeps its place, a new one goes last. */
  function Put(entries: Entries, key: string, e: Entry): (r: Entries)
  {
    if key in Keys(entries) then
      seq(|entries|, i requires 0 <= i < |entries| => if entries[i].0 == key then (key, e) else entries[i])
    else entries + [(key, e)]
  }

  /** Putting keeps the keys distinct, keeps every key, holds the new key,
      and adds no pair but the one put. */
  lemma PutSpec(entries: Entries, key: string, e: Entry)
    requires DistinctKeys(entries)
    ensures var r := Put(entries, key, e);
            && DistinctKeys(r)
            && key in Keys(r)
            && (forall k :: k in Keys(entries) ==> k in Keys(r))
            && (forall x :: x in r ==> x in entries || x == (key, e))
            && (key in Keys(entries) ==> |r| == |entries|)
            && (key !in Keys(entries) ==> r == entries + [(key, e)])
  {
    var r := Put(entries, key, e);
    if key in Keys(entries) {
      var i :| 0 <= i < |entries| && Keys(entries)[i] == key;
      assert Keys(r)[i] == key;
      forall k | k in Keys(entries) ensures k in Keys(r) {
        var j :| 0 <= j < |entries| && Keys(entries)[j] == k;
        assert Keys(r)[j] == k;
      }
    } else {
      assert Keys(r)[|entries|] == key;
      forall k | k in Keys(entries) ensures k in Keys(r) {
        var j :| 0 <= j < |entries| && Keys(entries)[j] == k;
        assert Keys(r)[j] == k;
      }
      forall i, j | 0 <= i < j < |r| ensures r[i].0 != r[j].0 {
        if j == |entries| {
          assert Keys(entries)[i] == r[i].0;
        }
      }
    }
  }

  /** The entry a roster player starts with. */
  function Fresh(team: Team, p: Player): Entry
  {
    Entry(p.name, p.number, p.position, team, [])
  }

  /** The seeding loop over one roster: every offensive player is put under
      its key, in roster order. */
  function SeedTeam(entries: Entries, team: Team, roster: seq<Player>): Entries
  {
    if roster == [] then entries
    else
      var n := |roster| - 1;
      var before := SeedTeam(entries, team, roster[..n]);
      if IsOffensive(roster[n].position) then Put(before, EntryKey(team, roster[n].number), Fresh(team, roster[n]))
      else before
  }

  /** What both effects seed: the home roster, then the away roster. */
  function Seeded(rosters: Rosters): Entries
  {
    SeedTeam(SeedTeam([], Home, rosters.home), Away, rosters.away)
  }

  /** A seeding keeps the keys distinct and every key it had; each pair it
      adds is a fresh offensive player of that roster under the player's
      key, and every offensive player of the roster has a key. */
  lemma {:induction false} SeedTeamShape(entries: Entries, team: Team, roster: seq<Player>)
    requires DistinctKeys(entries)
    ensures var r := SeedTeam(entries, team, roster);
            && DistinctKeys(r)
            && (forall k :: k in Keys(entries) ==> k in Keys(r))
            && (forall x :: x in r ==> x in entries || SeededFrom(x, team, roster))
            && (forall p :: p in roster && IsOffensive(p.position) ==> EntryKey(team, p.number) in Keys(r))
  {
    if roster != [] {
      var n := |roster| - 1;
      var before := SeedTeam(entries, team, roster[..n]);
      SeedTeamShape(entries, team, roster[..n]);
      assert roster == roster[..n] + [roster[n]];
      forall x | x in before && SeededFrom(x, team, roster[..n]) ensures SeededFrom(x, team, roster) {
        var p :| p in roster[..n] && IsOffensive(p.position) && x == (EntryKey(team, p.number), Fresh(team, p));
        assert p in roster;
      }
      if IsOffensive(roster[n].position) {
        PutSpec(before, EntryKey(team, roster[n].number), Fresh(team, roster[n]));
        assert SeededFrom((EntryKey(team, roster[n].number), Fresh(team, roster[n])), team, roster) by {
          assert roster[n] in roster;
        }
      }
    }
  }

  /** The pair is an offensive player of the roster, fresh, under its key. */
  ghost predicate SeededFrom(x: (string, Entry), team: Team, roster: seq<Player>)
  {
    exists p :: p in roster && IsOffensive(p.position) && x == (EntryKey(team, p.number), Fresh(team, p))
  }

  /** Both rosters seeded: distinct keys, only fresh offensive players of the
      right roster with no plays, and a key for every offensive player. */
  lemma SeededShape(rosters: Rosters)
    ensures var r := Seeded(rosters);
            && DistinctKeys(r)
            && (forall x :: x in r ==>
                  x.1.plays == [] && (SeededFrom(x, Home, rosters.home) || SeededFrom(x, Away, rosters.away)))
            && (forall p :: p in rosters.home && IsOffensive(p.position) ==> EntryKey(Home, p.number) in Keys(r))
            && (forall p :: p in rosters.away && IsOffensive(p.position) ==> EntryKey(Away, p.number) in Keys(r))
  {
    SeedTeamShape([], Home, rosters.home);
    SeedTeamShape(SeedTeam([], Home, rosters.home), Away, rosters.away);
  }

  // ---------------------------------------------------------------------------
  // Crediting events

  /** `team === homeTeam ? 'home' : 'away'` */
  function TeamOf(teamName: string, homeTeam: string): Team
  {
    if teamName == homeTeam then Home else Away
  }

  /** The first key, in order, whose entry is that team's player of that name. */
  function FirstMatch(entries: Entries, team: Team, name: string, from: nat): (r: Option<nat>)
    requires from <= |entries|
    ensures r.Some? ==> from <= r.value < |entries| && entries[r.value].1.team == team &&
                        entries[r.value].1.name == name
    ensures r.Some? ==> forall j :: from <= j < r.value ==> !(entries[j].1.team == team && entries[j].1.name == name)
    ensures r.None? ==> forall j :: from <= j < |entries| ==> !(entries[j].1.team == team && entries[j].1.name == name)
    decreases |entries| - from
  {
    if from == |entries| then None
    else if entries[from].1.team == team && entries[from].1.name == name then Some(from)
    else FirstMatch(entries, team, name, from + 1)
  }

  /** addPlayerPlay's effect: the event goes to the end of the first entry
      of that team and name; every other entry is left alone, and without a
      match nothing changes. */
  function WithEvent(entries: Entries, team: Team, name: string, ev: Event): (r: Entries)
    ensures |r| == |entries| && Keys(r) == Keys(entries)
    ensures forall i :: 0 <= i < |entries| && !(entries[i].1.team == team && entries[i].1.name == name) ==>
              r[i] == entries[i]
    ensures (forall i :: 0 <= i < |entries| ==> !(entries[i].1.team == team && entries[i].1.name == name)) ==>
              r == entries
    ensures forall i :: 0 <= i < |entries| && entries[i].1.team == team && entries[i].1.name == name ==>
              (forall j :: 0 <= j < i ==> !(entries[j].1.team == team && entries[j].1.name == name)) ==>
              r[i] == (entries[i].0, entries[i].1.(plays := entries[i].1.plays + [ev]))
  {
    match FirstMatch(entries, team, name, 0)
    case None => entries
    case Some(i) => entries[i := (entries[i].0, entries[i].1.(plays := entries[i].1.plays + [ev]))]
  }

  /** The credits of one play, in order. */
  function WithCredits(entries: Entries, team: Team, credits: seq<Credit>): (r: Entries)
    ensures |r| == |entries| && Keys(r) == Keys(entries)
  {
    if credits == [] then entries
    else
      var n := |credits| - 1;
      WithEvent(WithCredits(entries, team, credits[..n]), team, credits[n].name, credits[n].event)
  }

  /** A play as the panel receives it: the text, the team's name and the
      formatted time. */
  datatype PlayRecord = PlayRecord(description: string, team: string, time: string)

  /** The parse effect's loop over the plays, skipping empty texts. */
  function ParseAll(entries: Entries, homeTeam: string, plays: seq<PlayRecord>): (r: Entries)
    ensures |r| == |entries| && Keys(r) == Keys(entries)
  {
    if plays == [] then entries
    else
      var n := |plays| - 1;
      var before := ParseAll(entries, homeTeam, plays[..n]);
      var play := plays[n];
      if play.description == "" then before
      else WithCredits(before, TeamOf(play.team, homeTeam), ParsePlay(play.description, play.time, n))
  }

  /** A rush line for a plain name credits one rushing event with the rush's
      yards, to that name, so it lands where WithEvent puts it. */
  lemma RushCredited(entries: Entries, team: Team, name: string, yards: int, suffix: string, time: string, index: nat)
    requires PlainName(name)
    ensures var cs := ParsePlay(Engine.RushText(name, yards) + suffix, time, index);
            && |cs| == 1 && cs[0].name == name && cs[0].event.kind == Rushing && cs[0].event.yards == yards
            && WithCredits(entries, team, cs) == WithEvent(entries, team, name, cs[0].event)
  {
    var d := Engine.RushText(name, yards) + suffix;
    RushRoundTrip(name, yards, suffix, time, index);
    var cs := ParsePlay(d, time, index);
    assert cs[..0] == [];
  }

  /** The stats panel's state. */
  class PlayerStatsManager {
    var entries: Entries

    /** The seeding effect: an entry per offensive roster player. */
    constructor (rosters: Rosters)
      ensures entries == Seeded(rosters)
    {
      entries := [];
      new;
      SeedRoster(Home, rosters.home);
      SeedRoster(Away, rosters.away);
    }

    /** `rosters[team].forEach(...)` of the seeding effects. */
    method SeedRoster(team: Team, roster: seq<Player>)
      modifies this
      ensures entries == SeedTeam(old(entries), team, roster)
    {
      var i := 0;
      while i < |roster|
        invariant 0 <= i <= |roster|
        invariant entries == SeedTeam(old(entries), team, roster[..i])
      {
        assert roster[..i + 1][..i] == roster[..i];
        var p := roster[i];
        if IsOffensive(p.position) {
          entries := Put(entries, EntryKey(team, p.number), Fresh(team, p));
        }
        i := i + 1;
      }
      assert roster[..i] == roster;
    }

    /** addPlayerPlay: find the entry, push the event. */
    method AddPlayerPlay(team: Team, name: string, ev: Event)
      modifies this
      ensures entries == WithEvent(old(entries), team, name, ev)
    {
      var i := 0;
      while i < |entries| && !(entries[i].1.team == team && entries[i].1.name == name)
        invariant 0 <= i <= |entries|
        invariant forall j :: 0 <= j < i ==> !(entries[j].1.team == team && entries[j].1.name == name)
      {
        i := i + 1;
      }
      if i < |entries| {
        var (key, entry) := entries[i];
        entries := entries[i := (key, entry.(plays := entry.plays + [ev]))];
      }
    }

    /** parsePlayForPlayers: the play's events go to the players they name. */
    method ParsePlayForPlayers(description: string, teamName: string, homeTeam: string, time: string, index: nat)
      modifies this
      ensures entries == WithCredits(old(entries), TeamOf(teamName, homeTeam), ParsePlay(description, time, index))
    {
      var team := TeamOf(teamName, homeTeam);
      var credits := ParsePlay(description, time, index);
      var i := 0;
      while i < |credits|
        invariant 0 <= i <= |credits|
        invariant entries == WithCredits(old(entries), team, credits[..i])
      {
        assert credits[..i + 1][..i] == credits[..i];
        AddPlayerPlay(team, credits[i].name, credits[i].event);
        i := i + 1;
      }
      assert credits[..i] == credits;
    }

    /** The parse effect: with no plays nothing is redone; otherwise the
        entries are seeded afresh and every play with a text is parsed. */
    method Refresh(rosters: Rosters, homeTeam: string, plays: seq<PlayRecord>)
      modifies this
      ensures plays == [] ==> entries == old(entries)
      ensures plays != [] ==> entries == ParseAll(Seeded(rosters), homeTeam, plays)
    {
      if plays == [] {
        return;
      }
      entries := [];
      SeedRoster(Home, rosters.home);
      SeedRoster(Away, rosters.away);
      var i := 0;
      while i < |plays|
        invariant 0 <= i <= |plays|
        invariant entries == ParseAll(Seeded(rosters), homeTeam, plays[..i])
      {
        assert plays[..i + 1][..i] == plays[..i];
        if plays[i].description != "" {
          ParsePlayForPlayers(plays[i].description, plays[i].team, homeTeam, plays[i].time, i);
        }
        i := i + 1;
      }
      assert plays[..i] == plays;
    }
  }

  // ---------------------------------------------------------------------------
  // Summaries

  predicate IsPass(e: Event) { e.kind == Passing }
  predicate IsCompletion(e: Event) { e.kind == Passing && e.complete }
  predicate IsRush(e: Event) { e.kind == Rushing }
  predicate IsReception(e: Event) { e.kind == Receiving }
  predicate IsTouchdown(e: Event) { e.touchdown }

  /** How many events satisfy f. */
  function CountWhere(plays: seq<Event>, f: Event -> bool): (n: nat)
    ensures n <= |plays|
  {
    if plays == [] then 0 else CountWhere(plays[..|plays| - 1], f) + (if f(plays[|plays| - 1]) then 1 else 0)
  }

  /** The yards of the events that satisfy f. */
  function SumWhere(plays: seq<Event>, f: Event -> bool): int
  {
    if plays == [] then 0 else SumWhere(plays[..|plays| - 1], f) + (if f(plays[|plays| - 1]) then plays[|plays| - 1].yards else 0)
  }

  lemma {:induction false} CountWhereAppend(a: seq<Event>, b: seq<Event>, f: Event -> bool)
    ensures CountWhere(a + b, f) == CountWhere(a, f) + CountWhere(b, f)
    ensures SumWhere(a + b, f) == SumWhere(a, f) + SumWhere(b, f)
  {
    if b == [] {
      assert a + b == a;
    } else {
      var n := |b| - 1;
      CountWhereAppend(a, b[..n], f);
      assert (a + b)[..|a + b| - 1] == a + b[..n];
      assert (a + b)[|a + b| - 1] == b[n];
    }
  }

  /** When every event satisfying f satisfies g, f counts no more than g. */
  lemma {:induction false} CountWhereMonotone(plays: seq<Event>, f: Event -> bool, g: Event -> bool)
    requires forall e :: f(e) ==> g(e)
    ensures CountWhere(plays, f) <= CountWhere(plays, g)
  {
    if plays != [] {
      CountWhereMonotone(plays[..|plays| - 1], f, g);
    }
  }

  datatype Summary = Summary(passingYards: int, passingAttempts: nat, passingCompletions: nat,
                             rushingYards: int, rushingAttempts: nat, receivingYards: int,
                             receptions: nat, touchdowns: nat, totalYards: int)

  /** The summary the panel shows, stated event class by event class. */
  function SummaryOf(plays: seq<Event>): Summary
  {
    var passing := SumWhere(plays, IsCompletion);
    var rushing := SumWhere(plays, IsRush);
    var receiving := SumWhere(plays, IsReception);
    Summary(passing, CountWhere(plays, IsPass), CountWhere(plays, IsCompletion),
            rushing, CountWhere(plays, IsRush), receiving, CountWhere(plays, IsReception),
            CountWhere(plays, IsTouchdown), passing + rushing + receiving)
  }

  /** calculatePlayerSummary: one pass over the events with counters. */
  method CalculatePlayerSummary(plays: seq<Event>) returns (s: Summary)
    ensures s == SummaryOf(plays)
  {
    var passingYards, rushingYards, receivingYards := 0, 0, 0;
    var passingAttempts, passingCompletions, rushingAttempts, receptions, touchdowns := 0, 0, 0, 0, 0;
    var i := 0;
    while i < |plays|
      invariant 0 <= i <= |plays|
      invariant passingYards == SumWhere(plays[..i], IsCompletion)
      invariant passingAttempts == CountWhere(plays[..i], IsPass)
      invariant passingCompletions == CountWhere(plays[..i], IsCompletion)
      invariant rushingYards == SumWhere(plays[..i], IsRush)
      invariant rushingAttempts == CountWhere(plays[..i], IsRush)
      invariant receivingYards == SumWhere(plays[..i], IsReception)
      invariant receptions == CountWhere(plays[..i], IsReception)
      invariant touchdowns == CountWhere(plays[..i], IsTouchdown)
    {
      assert plays[..i + 1][..i] == plays[..i];
      var play := plays[i];
      if play.kind == Passing {
        passingAttempts := passingAttempts + 1;
        if play.complete {
          passingCompletions := passingCompletions + 1;
          passingYards := passingYards + play.yards;
        }
      } else if play.kind == Rushing {
        rushingAttempts := rushingAttempts + 1;
        rushingYards := rushingYards + play.yards;
      } else if play.kind == Receiving {
        receptions := receptions + 1;
        receivingYards := receivingYards + play.yards;
      }
      if play.touchdown {
        touchdowns := touchdowns + 1;
      }
      i := i + 1;
    }
    assert plays[..i] == plays;
    s := Summary(passingYards, passingAttempts, passingCompletions, rushingYards, rushingAttempts,
                 receivingYards, receptions, touchdowns, passingYards + rushingYards + receivingYards);
  }

  /** Completions never exceed attempts, and no count exceeds the events. */
  lemma SummaryBounds(plays: seq<Event>)
    ensures SummaryOf(plays).passingCompletions <= SummaryOf(plays).passingAttempts <= |plays|
    ensures SummaryOf(plays).touchdowns <= |plays|
    ensures SummaryOf(plays).totalYards ==
              SummaryOf(plays).passingYards + SummaryOf(plays).rushingYards + SummaryOf(plays).receivingYards
  {
    CountWhereMonotone(plays, IsCompletion, IsPass);
  }

  /** One more event adds to its own class only. */
  lemma SummaryOfRush(plays: seq<Event>, e: Event)
    requires e.kind == Rushing
    ensures var before := SummaryOf(plays);
            var after := SummaryOf(plays + [e]);
            after == before.(rushingYards := before.rushingYards + e.yards,
                             rushingAttempts := before.rushingAttempts + 1,
                             touchdowns := before.touchdowns + (if e.touchdown then 1 else 0),
                             totalYards := before.totalYards + e.yards)
  {
    assert (plays + [e])[..|plays|] == plays;
  }

  // ---------------------------------------------------------------------------
  // Team view

  /** Stable insertion of x into a list sorted by play count, descending:
      after every entry with at least as many plays. */
  function InsertByPlays(x: Entry, sorted: seq<Entry>): (r: seq<Entry>)
    ensures multiset(r) == multiset(sorted) + multiset{x}
    ensures |r| == |sorted| + 1
  {
    if sorted == [] then [x]
    else
      assert sorted == [sorted[0]] + sorted[1..];
      if |sorted[0].plays| >= |x.plays| then [sorted[0]] + InsertByPlays(x, sorted[1..])
      else [x] + sorted
  }

  predicate SortedByPlays(s: seq<Entry>)
  {
    forall i, j :: 0 <= i < j < |s| ==> |s[i].plays| >= |s[j].plays|
  }

  lemma {:induction false} InsertByPlaysSorted(x: Entry, sorted: seq<Entry>)
    requires SortedByPlays(sorted)
    ensures SortedByPlays(InsertByPlays(x, sorted))
  {
    if sorted != [] {
      if |sorted[0].plays| >= |x.plays| {
        var tail := sorted[1..];
        assert SortedByPlays(tail) by {
          forall i, j | 0 <= i < j < |tail| ensures |tail[i].plays| >= |tail[j].plays| {
            assert tail[i] == sorted[i + 1] && tail[j] == sorted[j + 1];
          }
        }
        InsertByPlaysSorted(x, tail);
        forall i | 0 <= i < |tail| ensures |tail[i].plays| <= |sorted[0].plays| {
          assert tail[i] == sorted[i + 1];
        }
        InsertByPlaysBound(x, tail, |sorted[0].plays|);
        ConsSorted(sorted[0], InsertByPlays(x, tail));
      } else {
        ConsSorted(x, sorted);
      }
    }
  }

  /** Inserting keeps every play count under a common bound. */
  lemma InsertByPlaysBound(x: Entry, s: seq<Entry>, bound: nat)
    requires |x.plays| <= bound && forall i :: 0 <= i < |s| ==> |s[i].plays| <= bound
    ensures forall i :: 0 <= i < |InsertByPlays(x, s)| ==> |InsertByPlays(x, s)[i].plays| <= bound
  {
    var r := InsertByPlays(x, s);
    forall i | 0 <= i < |r| ensures |r[i].plays| <= bound {
      assert r[i] in multiset(r);
      if r[i] != x {
        assert r[i] in multiset(s);
        var j :| 0 <= j < |s| && s[j] == r[i];
      }
    }
  }

  /** An entry with at least as many plays as all of a sorted list goes first. */
  lemma ConsSorted(h: Entry, r: seq<Entry>)
    requires SortedByPlays(r) && forall i :: 0 <= i < |r| ==> |r[i].plays| <= |h.plays|
    ensures SortedByPlays([h] + r)
  {
    var res := [h] + r;
    forall i, j | 0 <= i < j < |res| ensures |res[i].plays| >= |res[j].plays| {
      assert res[j] == r[j - 1];
      if i > 0 {
        assert res[i] == r[i - 1];
      }
    }
  }

  /** `[...].sort((a, b) => b.plays.length - a.plays.length)`, stable. */
  function SortByPlays(s: seq<Entry>): (r: seq<Entry>)
    ensures multiset(r) == multiset(s)
  {
    if s == [] then []
    else
      var n := |s| - 1;
      assert s == s[..n] + [s[n]];
      InsertByPlays(s[n], SortByPlays(s[..n]))
  }

  lemma {:induction false} SortByPlaysSorted(s: seq<Entry>)
    ensures SortedByPlays(SortByPlays(s))
  {
    if s != [] {
      SortByPlaysSorted(s[..|s| - 1]);
      InsertByPlaysSorted(s[|s| - 1], SortByPlays(s[..|s| - 1]));
    }
  }

  /** The entries with exactly c plays, in list order. */
  function WithCount(s: seq<Entry>, c: nat): (r: seq<Entry>)
    ensures forall i :: 0 <= i < |r| ==> |r[i].plays| == c
  {
    if s == [] then []
    else (if |s[0].plays| == c then [s[0]] else []) + WithCount(s[1..], c)
  }

  lemma {:induction false} WithCountAppend(a: seq<Entry>, b: seq<Entry>, c: nat)
    ensures WithCount(a + b, c) == WithCount(a, c) + WithCount(b, c)
  {
    if a == [] {
      assert a + b == b;
    } else {
      assert (a + b)[0] == a[0] && (a + b)[1..] == a[1..] + b;
      WithCountAppend(a[1..], b, c);
    }
  }

  lemma {:induction false} WithCountNone(s: seq<Entry>, c: nat)
    requires forall i :: 0 <= i < |s| ==> |s[i].plays| != c
    ensures WithCount(s, c) == []
  {
    if s != [] {
      WithCountNone(s[1..], c);
    }
  }

  /** Inserting into a sorted list puts x after every entry with the same
      play count, so equal counts keep their order. */
  lemma {:induction false} InsertByPlaysStable(x: Entry, sorted: seq<Entry>, c: nat)
    requires SortedByPlays(sorted)
    ensures WithCount(InsertByPlays(x, sorted), c)
            == WithCount(sorted, c) + (if |x.plays| == c then [x] else [])
  {
    var mark := if |x.plays| == c then [x] else [];
    if sorted == [] {
      WithCountSingle(x, c);
    } else if |sorted[0].plays| >= |x.plays| {
      var head := sorted[0];
      var tail := sorted[1..];
      var keep := if |head.plays| == c then [head] else [];
      SortedTail(sorted);
      InsertByPlaysStable(x, tail, c);
      WithCountCons(head, InsertByPlays(x, tail), c);
      assert InsertByPlays(x, sorted) == [head] + InsertByPlays(x, tail);
      ConsThenAppend(WithCount(InsertByPlays(x, sorted), c), keep, WithCount(InsertByPlays(x, tail), c),
                     WithCount(tail, c), mark, WithCount(sorted, c));
    } else {
      WithCountCons(x, sorted, c);
      if |x.plays| == c {
        SortedBelowHead(sorted, c);
        WithCountNone(sorted, c);
      }
    }
  }

  lemma ConsThenAppend<T>(whole: seq<T>, front: seq<T>, rest: seq<T>, middle: seq<T>, back: seq<T>, start: seq<T>)
    requires whole == front + rest && rest == middle + back && start == front + middle
    ensures whole == start + back
  {
  }

  lemma WithCountCons(h: Entry, t: seq<Entry>, c: nat)
    ensures WithCount([h] + t, c) == (if |h.plays| == c then [h] else []) + WithCount(t, c)
  {
    assert ([h] + t)[0] == h && ([h] + t)[1..] == t;
  }

  lemma SortedTail(sorted: seq<Entry>)
    requires sorted != [] && SortedByPlays(sorted)
    ensures SortedByPlays(sorted[1..])
  {
    var tail := sorted[1..];
    forall i, j | 0 <= i < j < |tail| ensures |tail[i].plays| >= |tail[j].plays| {
      assert tail[i] == sorted[i + 1] && tail[j] == sorted[j + 1];
    }
  }

  lemma SortedBelowHead(sorted: seq<Entry>, c: nat)
    requires sorted != [] && SortedByPlays(sorted) && |sorted[0].plays| < c
    ensures forall i :: 0 <= i < |sorted| ==> |sorted[i].plays| != c
  {
    forall i | 0 <= i < |sorted| ensures |sorted[i].plays| != c {
      assert |sorted[i].plays| <= |sorted[0].plays|;
    }
  }

  /** The sort is stable: the entries with any one play count come out in
      the order they went in. */
  lemma {:induction false} SortByPlaysStable(s: seq<Entry>, c: nat)
    ensures WithCount(SortByPlays(s), c) == WithCount(s, c)
  {
    if s != [] {
      var n := |s| - 1;
      var prev := SortByPlays(s[..n]);
      assert SortByPlays(s) == InsertByPlays(s[n], prev);
      InsertIntoSortedStable(s[n], s[..n], c);
      SortByPlaysStable(s[..n], c);
      WithCountSingle(s[n], c);
      SplitLast(s);
      WithCountAppend(s[..n], [s[n]], c);
    }
  }

  lemma SplitLast<T>(s: seq<T>)
    requires s != []
    ensures s[..|s| - 1] + [s[|s| - 1]] == s
  {
  }

  lemma InsertIntoSortedStable(x: Entry, s: seq<Entry>, c: nat)
    ensures WithCount(InsertByPlays(x, SortByPlays(s)), c)
            == WithCount(SortByPlays(s), c) + (if |x.plays| == c then [x] else [])
  {
    SortByPlaysSorted(s);
    InsertByPlaysStable(x, SortByPlays(s), c);
  }

  lemma WithCountSingle(e: Entry, c: nat)
    ensures WithCount([e], c) == if |e.plays| == c then [e] else []
  {
    assert [e][1..] == [];
  }

  /** `Object.values(playerPlays).filter(player => player.team === teamKey)` */
  function TeamEntries(entries: Entries, team: Team): (r: seq<Entry>)
    ensures forall e :: e in r <==> exists i :: 0 <= i < |entries| && entries[i].1 == e && e.team == team
  {
    if entries == [] then []
    else
      var n := |entries| - 1;
      var before := TeamEntries(entries[..n], team);
      assert forall i :: 0 <= i < n ==> entries[..n][i] == entries[i];
      if entries[n].1.team == team then before + [entries[n].1] else before
  }

  /** getTeamPlayers */
  function GetTeamPlayers(entries: Entries, team: Team): seq<Entry>
  {
    SortByPlays(TeamEntries(entries, team))
  }

  /** The team view lists exactly the team's entries (as a multiset), most
      plays first, players with equal play counts in their original order. */
  lemma GetTeamPlayersSpec(entries: Entries, team: Team)
    ensures multiset(GetTeamPlayers(entries, team)) == multiset(TeamEntries(entries, team))
    ensures SortedByPlays(GetTeamPlayers(entries, team))
    ensures forall c: nat :: WithCount(GetTeamPlayers(entries, team), c) == WithCount(TeamEntries(entries, team), c)
    ensures forall e :: e in GetTeamPlayers(entries, team) ==> e.team == team
  {
    SortByPlaysSorted(TeamEntries(entries, team));
    forall c: nat ensures WithCount(GetTeamPlayers(entries, team), c) == WithCount(TeamEntries(entries, team), c) {
      SortByPlaysStable(TeamEntries(entries, team), c);
    }
    forall e | e in GetTeamPlayers(entries, team) ensures e.team == team {
      assert e in multiset(TeamEntries(entries, team));
    }
  }

  datatype Totals = Totals(passing: int, rushing: int, receiving: int, touchdowns: nat)

  /** The team-totals reduce over the listed players' summaries. */
  function TeamTotals(players: seq<Entry>): Totals
  {
    if players == [] then Totals(0, 0, 0, 0)
    else
      var n := |players| - 1;
      var t := TeamTotals(players[..n]);
      var s := SummaryOf(players[n].plays);
      Totals(t.passing + s.passingYards, t.rushing + s.rushingYards, t.receiving + s.receivingYards,
             t.touchdowns + s.touchdowns)
  }

  /** All the listed players' events, in list order. */
  function AllPlays(players: seq<Entry>): seq<Event>
  {
    if players == [] then [] else AllPlays(players[..|players| - 1]) + players[|players| - 1].plays
  }

  /** The totals are the summary of all the players' events taken together. */
  lemma {:induction false} TeamTotalsAreSummary(players: seq<Entry>)
    ensures var t := TeamTotals(players);
            var s := SummaryOf(AllPlays(players));
            t == Totals(s.passingYards, s.rushingYards, s.receivingYards, s.touchdowns)
  {
    if players != [] {
      var n := |players| - 1;
      TeamTotalsAreSummary(players[..n]);
      var a := AllPlays(players[..n]);
      var b := players[n].plays;
      CountWhereAppend(a, b, IsCompletion);
      CountWhereAppend(a, b, IsRush);
      CountWhereAppend(a, b, IsReception);
      CountWhereAppend(a, b, IsTouchdown);
    }
  }
}
