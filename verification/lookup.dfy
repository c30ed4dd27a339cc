/** Player lookup by jersey number (client/src/components/PlayerLookup.js):
    every player of either roster wearing the number typed, home first. */
module Lookup {
  import opened Common
  import opened Roster

  /** A search result: the player, the name of its team and the team's key. */
  datatype Found = Found(player: Player, teamName: string, teamKey: string)

  /** One roster's players wearing `number`, in roster order, tagged. */
  function Matches(roster: seq<Player>, number: string, team: Team, homeTeam: string, awayTeam: string): (r: seq<Found>)
    ensures |r| <= |roster|
    ensures forall f :: f in r <==>
              exists p :: p in roster && p.number == number && f == Found(p, TeamName(team, homeTeam, awayTeam), TeamKey(team))
  {
    if roster == [] then []
    else
      var n := |roster| - 1;
      var before := Matches(roster[..n], number, team, homeTeam, awayTeam);
      assert roster == roster[..n] + [roster[n]];
      if roster[n].number == number then before + [Found(roster[n], TeamName(team, homeTeam, awayTeam), TeamKey(team))]
      else before
  }

  /** The search works player by player, so the results follow roster
      order: it distributes over concatenation and finds a single player
      exactly when it wears the number. */
  lemma {:induction false} MatchesAppend(a: seq<Player>, b: seq<Player>, number: string, team: Team,
                                         homeTeam: string, awayTeam: string)
    ensures Matches(a + b, number, team, homeTeam, awayTeam)
            == Matches(a, number, team, homeTeam, awayTeam) + Matches(b, number, team, homeTeam, awayTeam)
  {
    if b == [] {
      assert a + b == a;
    } else {
      var n := |b| - 1;
      assert (a + b)[..|a + b| - 1] == a + b[..n];
      assert (a + b)[|a + b| - 1] == b[n];
      MatchesAppend(a, b[..n], number, team, homeTeam, awayTeam);
    }
  }

  lemma MatchesSingle(p: Player, number: string, team: Team, homeTeam: string, awayTeam: string)
    ensures Matches([p], number, team, homeTeam, awayTeam)
            == if p.number == number then [Found(p, TeamName(team, homeTeam, awayTeam), TeamKey(team))] else []
  {
    assert [p][..0] == [];
  }

  /** What handleSearch sets as the results. */
  function SearchResults(rosters: Rosters, number: string, homeTeam: string, awayTeam: string): seq<Found>
  {
    if Trim(number) == [] then []
    else Matches(rosters.home, number, Home, homeTeam, awayTeam) + Matches(rosters.away, number, Away, homeTeam, awayTeam)
  }

  /** A blank query finds nobody; any other finds exactly the players wearing
      that very string, each with its team's name and key, home players
      before away players. */
  lemma SearchResultsSpec(rosters: Rosters, number: string, homeTeam: string, awayTeam: string)
    ensures var r := SearchResults(rosters, number, homeTeam, awayTeam);
            && ((forall j :: 0 <= j < |number| ==> IsSpace(number[j])) ==> r == [])
            && (forall f :: f in r ==> f.player.number == number && (f.teamKey == "home" || f.teamKey == "away"))
            && (forall f :: f in r && f.teamKey == "home" ==> f.player in rosters.home && f.teamName == homeTeam)
            && (forall f :: f in r && f.teamKey == "away" ==> f.player in rosters.away && f.teamName == awayTeam)
            && (forall i, j :: 0 <= i < j < |r| && r[i].teamKey == "away" ==> r[j].teamKey == "away")
            && (Trim(number) != [] ==>
                  r == Matches(rosters.home, number, Home, homeTeam, awayTeam)
                       + Matches(rosters.away, number, Away, homeTeam, awayTeam))
            && (Trim(number) != [] ==>
                  (forall p :: p in rosters.home && p.number == number ==> Found(p, homeTeam, "home") in r) &&
                  (forall p :: p in rosters.away && p.number == number ==> Found(p, awayTeam, "away") in r))
  {
    TrimTrims(number);
    var h := Matches(rosters.home, number, Home, homeTeam, awayTeam);
    var a := Matches(rosters.away, number, Away, homeTeam, awayTeam);
    if Trim(number) != [] {
      var r := h + a;
      forall k | 0 <= k < |h| ensures r[k].teamKey == "home" {
        assert r[k] == h[k] && h[k] in h;
      }
      forall k | |h| <= k < |r| ensures r[k].teamKey == "away" {
        assert r[k] == a[k - |h|] && a[k - |h|] in a;
      }
    }
  }

  /** Players are found by their untrimmed query: when no jersey number has
      spaces around it, a query with a space around the digits finds nobody. */
  lemma PaddedQueryFindsNobody(rosters: Rosters, number: string, homeTeam: string, awayTeam: string)
    requires forall p :: (p in rosters.home || p in rosters.away) ==> Trimmed(p.number)
    requires !Trimmed(number)
    ensures SearchResults(rosters, number, homeTeam, awayTeam) == []
  {
    MatchesNone(rosters.home, number, Home, homeTeam, awayTeam);
    MatchesNone(rosters.away, number, Away, homeTeam, awayTeam);
  }

  lemma {:induction false} MatchesNone(roster: seq<Player>, number: string, team: Team, homeTeam: string, awayTeam: string)
    requires forall p :: p in roster ==> p.number != number
    ensures Matches(roster, number, team, homeTeam, awayTeam) == []
  {
    if roster != [] {
      var n := |roster| - 1;
      assert forall p :: p in roster[..n] ==> p in roster;
      assert roster[n] in roster;
      MatchesNone(roster[..n], number, team, homeTeam, awayTeam);
    }
  }

  /** The lookup panel's state. */
  class PlayerLookup {
    var searchNumber: string
    var searchResults: seq<Found>

    constructor ()
      ensures searchNumber == "" && searchResults == []
    {
      searchNumber := "";
      searchResults := [];
    }

    /** handleSearch: keep the query; a blank one clears the results, any
        other collects the matching home players, then the away ones. */
    method HandleSearch(rosters: Rosters, homeTeam: string, awayTeam: string, number: string)
      modifies this
      ensures searchNumber == number
      ensures searchResults == SearchResults(rosters, number, homeTeam, awayTeam)
    {
      searchNumber := number;
      if Trim(number) == [] {
        searchResults := [];
        return;
      }
      var results: seq<Found> := [];
      results := Collect(results, rosters.home, number, Home, homeTeam, awayTeam);
      results := Collect(results, rosters.away, number, Away, homeTeam, awayTeam);
      searchResults := results;
    }

    /** The filter and push loop over one roster. */
    static method Collect(results: seq<Found>, roster: seq<Player>, number: string, team: Team, homeTeam: string, awayTeam: string)
      returns (r: seq<Found>)
      ensures r == results + Matches(roster, number, team, homeTeam, awayTeam)
    {
      r := results;
      var i := 0;
      while i < |roster|
        invariant 0 <= i <= |roster|
        invariant r == results + Matches(roster[..i], number, team, homeTeam, awayTeam)
      {
        assert roster[..i + 1][..i] == roster[..i];
        if roster[i].number == number {
          r := r + [Found(roster[i], TeamName(team, homeTeam, awayTeam), TeamKey(team))];
        }
        i := i + 1;
      }
      assert roster[..i] == roster;
    }
  }
}
