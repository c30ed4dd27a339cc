/** Roster store of the statistics panel (client/src/components/StatsManager.js):
    the two teams' ordered player lists, the per-team kicker assignment, the
    lookups the play form uses, and the CSV import and export of a roster. */
module Roster {
  import opened Common

  /** A roster entry; `id` is the creation timestamp the source assigns. */
  datatype Player = Player(id: int, number: string, name: string, position: string)

  datatype Rosters = Rosters(home: seq<Player>, away: seq<Player>)
  {
    function Of(t: Team): seq<Player>
    {
      if t == Home then home else away
    }

    function With(t: Team, ps: seq<Player>): (r: Rosters)
      ensures r.Of(t) == ps && r.Of(Flip(t)) == Of(Flip(t))
    {
      if t == Home then this.(home := ps) else this.(away := ps)
    }
  }

  /** The kicker assignment: a player id or nothing, per team. */
  datatype Kickers = Kickers(home: Option<int>, away: Option<int>)
  {
    function Of(t: Team): Option<int>
    {
      if t == Home then home else away
    }

    function With(t: Team, k: Option<int>): (r: Kickers)
      ensures r.Of(t) == k && r.Of(Flip(t)) == Of(Flip(t))
    {
      if t == Home then this.(home := k) else this.(away := k)
    }
  }

  // ---------------------------------------------------------------------------
  // Lookups

  /** `roster.find(p => p.number === number)` */
  function FindByNumber(ps: seq<Player>, number: string): (r: Option<nat>)
    ensures r.Some? ==> r.value < |ps| && ps[r.value].number == number &&
                        forall j :: 0 <= j < r.value ==> ps[j].number != number
    ensures r.None? ==> forall j :: 0 <= j < |ps| ==> ps[j].number != number
  {
    if ps == [] then None
    else if ps[0].number == number then Some(0)
    else match FindByNumber(ps[1..], number)
      case None => None
      case Some(k) => Some(k + 1)
  }

  /** `roster.find(p => p.id === id)` */
  function FindById(ps: seq<Player>, id: int): (r: Option<nat>)
    ensures r.Some? ==> r.value < |ps| && ps[r.value].id == id &&
                        forall j :: 0 <= j < r.value ==> ps[j].id != id
    ensures r.None? ==> forall j :: 0 <= j < |ps| ==> ps[j].id != id
  {
    if ps == [] then None
    else if ps[0].id == id then Some(0)
    else match FindById(ps[1..], id)
      case None => None
      case Some(k) => Some(k + 1)
  }

  /** getPlayerName: the name of the first player of `team` wearing `number`,
      `#number` when nobody does, and the empty string for an empty number. */
  function GetPlayerName(rosters: Rosters, team: Team, number: string): (r: string)
    ensures number == "" ==> r == ""
    ensures number != "" && FindByNumber(rosters.Of(team), number).None? ==> r == "#" + number
    ensures number != "" && FindByNumber(rosters.Of(team), number).Some? ==>
              r == rosters.Of(team)[FindByNumber(rosters.Of(team), number).value].name
    ensures number != "" && r != "#" + number ==>
              exists k :: 0 <= k < |rosters.Of(team)| && rosters.Of(team)[k].number == number &&
                          r == rosters.Of(team)[k].name &&
                          forall j :: 0 <= j < k ==> rosters.Of(team)[j].number != number
  {
    if number == "" then ""
    else match FindByNumber(rosters.Of(team), number)
      case Some(k) => rosters.Of(team)[k].name
      case None => "#" + number
  }

  /** getKickerName of the play form: "name #number" of the assigned kicker,
      nothing when no kicker is assigned or the id is not on the roster. */
  function KickerLabel(rosters: Rosters, kickers: Kickers, team: Team): (r: Option<string>)
    ensures kickers.Of(team).None? || kickers.Of(team) == Some(0) ==> r.None?
    ensures kickers.Of(team).Some? && FindById(rosters.Of(team), kickers.Of(team).value).None? ==> r.None?
    ensures kickers.Of(team).Some? && kickers.Of(team).value != 0 &&
            FindById(rosters.Of(team), kickers.Of(team).value).Some? ==>
              var k := FindById(rosters.Of(team), kickers.Of(team).value).value;
              r == Some(rosters.Of(team)[k].name + " #" + rosters.Of(team)[k].number)
    ensures r.Some? ==> exists p :: p in rosters.Of(team) && Some(p.id) == kickers.Of(team) &&
                                    r.value == p.name + " #" + p.number
  {
    match kickers.Of(team)
    case None => None
    case Some(id) =>
      if id == 0 then None
      else match FindById(rosters.Of(team), id)
        case None => None
        case Some(k) => Some(rosters.Of(team)[k].name + " #" + rosters.Of(team)[k].number)
  }

  /** getKickerName of the scoring panel (ScorekeeperView): the bare name. */
  function KickerName(rosters: Rosters, kickers: Kickers, team: Team): (r: Option<string>)
    ensures kickers.Of(team).None? || kickers.Of(team) == Some(0) ==> r.None?
    ensures kickers.Of(team).Some? && FindById(rosters.Of(team), kickers.Of(team).value).None? ==> r.None?
    ensures kickers.Of(team).Some? && kickers.Of(team).value != 0 &&
            FindById(rosters.Of(team), kickers.Of(team).value).Some? ==>
              r == Some(rosters.Of(team)[FindById(rosters.Of(team), kickers.Of(team).value).value].name)
    ensures r.Some? ==> exists p :: p in rosters.Of(team) && Some(p.id) == kickers.Of(team) &&
                                    r.value == p.name
  {
    match kickers.Of(team)
    case None => None
    case Some(id) =>
      if id == 0 then None
      else match FindById(rosters.Of(team), id)
        case None => None
        case Some(k) => Some(rosters.Of(team)[k].name)
  }

  /** ASCII `toLowerCase`. */
  function ToLower(s: string): (r: string)
    ensures |r| == |s|
  {
    if s == [] then []
    else [if 'A' <= s[0] <= 'Z' then (s[0] as int + 32) as char else s[0]] + ToLower(s[1..])
  }

  /** `positions.some(pos => lowered === pos.toLowerCase())` */
  predicate MatchesAny(lowered: string, positions: seq<string>)
  {
    positions != [] && (lowered == ToLower(positions[0]) || MatchesAny(lowered, positions[1..]))
  }

  /** The filter test of getPlayersByPosition: the player's position equals one
      of `positions`, ignoring case. */
  predicate HasPosition(p: Player, positions: seq<string>)
  {
    MatchesAny(ToLower(p.position), positions)
  }

  lemma {:induction false} MatchesAnyIff(lowered: string, positions: seq<string>)
    ensures MatchesAny(lowered, positions) <==> exists k :: 0 <= k < |positions| && lowered == ToLower(positions[k])
  {
    if positions != [] {
      MatchesAnyIff(lowered, positions[1..]);
      if MatchesAny(lowered, positions[1..]) {
        var k :| 0 <= k < |positions| - 1 && lowered == ToLower(positions[1..][k]);
        assert lowered == ToLower(positions[k + 1]);
      }
      if exists k :: 0 <= k < |positions| && lowered == ToLower(positions[k]) {
        var k :| 0 <= k < |positions| && lowered == ToLower(positions[k]);
        if k > 0 {
          assert lowered == ToLower(positions[1..][k - 1]);
        }
      }
    }
  }

  function FilterPosition(ps: seq<Player>, positions: seq<string>, keep: bool): (r: seq<Player>)
    ensures forall i :: 0 <= i < |r| ==> HasPosition(r[i], positions) == keep
  {
    if ps == [] then []
    else (if HasPosition(ps[0], positions) == keep then [ps[0]] else [])
         + FilterPosition(ps[1..], positions, keep)
  }

  /** The filter keeps exactly the players whose match result is `keep`. */
  lemma {:induction false} FilterPositionMembers(ps: seq<Player>, positions: seq<string>, keep: bool)
    ensures forall p :: p in FilterPosition(ps, positions, keep) <==> p in ps && HasPosition(p, positions) == keep
  {
    if ps != [] {
      FilterPositionMembers(ps[1..], positions, keep);
      assert ps == [ps[0]] + ps[1..];
    }
  }

  /** The filter works player by player: it distributes over concatenation
      and keeps a single player exactly when its match result is `keep`, so
      the kept players appear in roster order. */
  lemma {:induction false} FilterPositionAppend(a: seq<Player>, b: seq<Player>, positions: seq<string>, keep: bool)
    ensures FilterPosition(a + b, positions, keep) == FilterPosition(a, positions, keep) + FilterPosition(b, positions, keep)
  {
    if a != [] {
      FilterPositionAppend(a[1..], b, positions, keep);
      assert (a + b)[1..] == a[1..] + b;
    } else {
      assert a + b == b;
    }
  }

  lemma FilterPositionSingle(p: Player, positions: seq<string>, keep: bool)
    ensures FilterPosition([p], positions, keep) == if HasPosition(p, positions) == keep then [p] else []
  {
    assert [p][1..] == [];
  }

  /** The matching and the non-matching players together are the roster. */
  lemma {:induction false} FilterPositionSplits(ps: seq<Player>, positions: seq<string>)
    ensures multiset(FilterPosition(ps, positions, true) + FilterPosition(ps, positions, false))
            == multiset(ps)
  {
    if ps != [] {
      FilterPositionSplits(ps[1..], positions);
      assert ps == [ps[0]] + ps[1..];
    }
  }

  /** getPlayersByPosition: the possessing team's players whose position
      matches one of `positions` (case-insensitively), followed, when
      `includeOthers`, by all the rest; roster order is kept in each part. */
  function GetPlayersByPosition(rosters: Rosters, possession: Team, positions: seq<string>,
                                includeOthers: bool): (r: seq<Player>)
    ensures !includeOthers ==> forall p :: p in r <==> p in rosters.Of(possession) && HasPosition(p, positions)
    ensures !includeOthers ==> r == FilterPosition(rosters.Of(possession), positions, true)
    ensures includeOthers ==> multiset(r) == multiset(rosters.Of(possession))
    ensures includeOthers ==> var front := FilterPosition(rosters.Of(possession), positions, true);
                              |front| <= |r| && r[..|front|] == front &&
                              r[|front|..] == FilterPosition(rosters.Of(possession), positions, false)
    ensures includeOthers ==> forall i, j :: 0 <= i < j < |r| && !HasPosition(r[i], positions) ==>
                                             !HasPosition(r[j], positions)
  {
    var ps := rosters.Of(possession);
    FilterPositionSplits(ps, positions);
    FilterPositionMembers(ps, positions, true);
    if includeOthers then FilterPosition(ps, positions, true) + FilterPosition(ps, positions, false)
    else FilterPosition(ps, positions, true)
  }

  // ---------------------------------------------------------------------------
  // Roster edits

  /** addPlayer: appends the form's player with a fresh id, unless its number
      or name is empty. */
  function AddPlayer(rosters: Rosters, team: Team, number: string, name: string, position: string,
                     freshId: int): (r: Rosters)
    ensures number == "" || name == "" ==> r == rosters
    ensures number != "" && name != "" ==>
              r.Of(team) == rosters.Of(team) + [Player(freshId, number, name, position)]
    ensures r.Of(Flip(team)) == rosters.Of(Flip(team))
  {
    if number == "" || name == "" then rosters
    else rosters.With(team, rosters.Of(team) + [Player(freshId, number, name, position)])
  }

  /** `roster.filter(player => player.id !== id)` */
  function WithoutId(ps: seq<Player>, id: int): (r: seq<Player>)
    ensures forall p :: p in r <==> p in ps && p.id != id
    ensures |r| <= |ps|
    ensures FindById(ps, id).None? ==> r == ps
  {
    if ps == [] then []
    else (if ps[0].id != id then [ps[0]] else []) + WithoutId(ps[1..], id)
  }

  /** Every kept player keeps all its copies. */
  lemma {:induction false} WithoutIdCounts(ps: seq<Player>, id: int, p: Player)
    ensures multiset(WithoutId(ps, id))[p] == if p.id != id then multiset(ps)[p] else 0
  {
    if ps != [] {
      WithoutIdCounts(ps[1..], id, p);
      assert ps == [ps[0]] + ps[1..];
    }
  }

  /** The filter works player by player, so the kept players stay in roster
      order: it distributes over concatenation and keeps a single player
      exactly when its id differs. */
  lemma {:induction false} WithoutIdAppend(a: seq<Player>, b: seq<Player>, id: int)
    ensures WithoutId(a + b, id) == WithoutId(a, id) + WithoutId(b, id)
  {
    if a != [] {
      var head := if a[0].id != id then [a[0]] else [];
      assert (a + b)[0] == a[0];
      assert (a + b)[1..] == a[1..] + b;
      assert WithoutId(a + b, id) == head + WithoutId(a[1..] + b, id);
      WithoutIdAppend(a[1..], b, id);
      assert WithoutId(a, id) == head + WithoutId(a[1..], id);
    } else {
      assert a + b == b;
    }
  }

  lemma WithoutIdSingle(p: Player, id: int)
    ensures WithoutId([p], id) == if p.id != id then [p] else []
  {
    assert [p][1..] == [];
  }

  /** removePlayer: drops every player with that id from the team's roster
      and clears the team's kicker when it was that id. */
  function RemovePlayer(rosters: Rosters, kickers: Kickers, team: Team, id: int): (r: (Rosters, Kickers))
    ensures forall p :: p in r.0.Of(team) <==> p in rosters.Of(team) && p.id != id
    ensures r.0.Of(team) == WithoutId(rosters.Of(team), id)
    ensures r.0.Of(Flip(team)) == rosters.Of(Flip(team))
    ensures kickers.Of(team) == Some(id) ==> r.1.Of(team).None?
    ensures kickers.Of(team) != Some(id) ==> r.1 == kickers
    ensures r.1.Of(Flip(team)) == kickers.Of(Flip(team))
  {
    var rs := rosters.With(team, WithoutId(rosters.Of(team), id));
    if kickers.Of(team) == Some(id) then (rs, kickers.With(team, None)) else (rs, kickers)
  }

  /** assignKicker: sets (or, with None, clears) one team's kicker. */
  function AssignKicker(kickers: Kickers, team: Team, id: Option<int>): (r: Kickers)
    ensures r.Of(team) == id && r.Of(Flip(team)) == kickers.Of(Flip(team))
  {
    kickers.With(team, id)
  }
}
