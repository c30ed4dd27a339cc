/** The statistics aggregator's reading of play text
    (client/src/components/PlayerStatsManager.js, parsePlayForPlayers). Each
    regular expression is a recogniser over the characters: the player name
    `(.+?)` is the shortest non-empty prefix, free of line terminators, after
    which the rest of the pattern matches; every other piece is a run of
    disjoint character classes, so it matches in one way only. */
module PlayParse {
  import opened Common
  import Engine

  // ---------------------------------------------------------------------------
  // Pattern pieces

  /** `\d*` from i: the end of the run of digits. */
  function SkipDigits(s: string, i: nat): (k: nat)
    requires i <= |s|
    ensures i <= k <= |s|
    decreases |s| - i
  {
    if i < |s| && IsDigit(s[i]) then SkipDigits(s, i + 1) else i
  }

  lemma {:induction false} SkipDigitsSkips(s: string, i: nat)
    requires i <= |s|
    ensures var k := SkipDigits(s, i);
            AllDigits(s[i..k]) && (k == |s| || !IsDigit(s[k]))
    decreases |s| - i
  {
    if i < |s| && IsDigit(s[i]) {
      SkipDigitsSkips(s, i + 1);
      var k := SkipDigits(s, i);
      assert s[i..k] == [s[i]] + s[i + 1..k];
    }
  }

  /** `lit` appears at position i. */
  predicate At(s: string, i: nat, lit: string)
  {
    i + |lit| <= |s| && s[i..i + |lit|] == lit
  }

  /** `\s*lit` (or `\s+lit` when `atLeastOne`) from i: the end of `lit`. */
  function SpacesThen(s: string, i: nat, lit: string, atLeastOne: bool): (r: Option<nat>)
    requires i <= |s|
    ensures r.Some? ==> i + |lit| <= r.value <= |s|
  {
    var j := SkipSpaces(s, i);
    if (atLeastOne && j == i) || !At(s, j, lit) then None else Some(j + |lit|)
  }

  /** `parseInt` of a sign and a run of digits. */
  function SignedValue(s: string, a: nat, b: nat, c: nat): int
    requires a <= b <= c <= |s|
  {
    SkipDigitsSkips(s, b);
    if SkipDigits(s, b) != c then 0
    else if b > a && s[a] == '-' then -(DigitsValue(s[b..c]) as int) else DigitsValue(s[b..c])
  }

  /** `[+-]?\d+` at a: its value and its end. */
  function SignedNumber(s: string, a: nat): (r: Option<(int, nat)>)
    requires a <= |s|
    ensures r.Some? ==> a < r.value.1 <= |s|
  {
    var b := if a < |s| && (s[a] == '+' || s[a] == '-') then a + 1 else a;
    var c := SkipDigits(s, b);
    if c == b then None else Some((SignedValue(s, a, b, c), c))
  }

  /** Some character of s[lo..hi] is not a line terminator, so `.` can match it. */
  predicate HasNonTerminator(s: string, lo: nat, hi: nat)
    requires lo <= hi <= |s|
    decreases hi - lo
  {
    lo < hi && (!IsLineTerminator(s[lo]) || HasNonTerminator(s, lo + 1, hi))
  }

  // ---------------------------------------------------------------------------
  // The four patterns after their leading name group

  /** The four patterns; the bare incomplete pass both with the receiver
      group as written and as corrected. */
  datatype Pattern = Rush | Pass | BareIncomplete | BareIncompleteAsWritten | TouchdownMention

  /** What a pattern captures after the name. */
  datatype Tail = Tail(yards: int, receiver: string, complete: bool)

  /** `\s*\((complete|incomplete)\)` at e: whether the pass was complete. */
  function CloseTail(s: string, e: nat): Option<bool>
    requires e <= |s|
  {
    var g := SkipSpaces(s, e);
    if At(s, g, "(complete)") then Some(true)
    else if At(s, g, "(incomplete)") then Some(false)
    else None
  }

  /** The lazy receiver `(.+?)` from q: the first end e after which the
      closing `(complete)` or `(incomplete)` matches. */
  function ReceiverSearch(s: string, q: nat, e: nat): (r: Option<(nat, bool)>)
    requires q < e
    ensures r.Some? ==> e <= r.value.0 <= |s|
    decreases |s| - e
  {
    if e > |s| || IsLineTerminator(s[e - 1]) then None
    else match CloseTail(s, e)
      case Some(c) => Some((e, c))
      case None => ReceiverSearch(s, q, e + 1)
  }

  /** `\s+to\s+(.+?)\s*\((complete|incomplete)\)` from p. When the receiver
      cannot start after the spaces, the engine gives `\s+` back one space at
      a time and the receiver is a single space, which trims to "". */
  function PassReceiver(s: string, p: nat): Option<(string, bool)>
    requires p <= |s|
  {
    match SpacesThen(s, p, "to", true)
    case None => None
    case Some(f) =>
      var q := SkipSpaces(s, f);
      if q == f then None
      else match ReceiverSearch(s, q, q + 1)
        case Some((e, c)) => Some((Trim(s[q..e]), c))
        case None =>
          match CloseTail(s, q)
          case Some(c) => if HasNonTerminator(s, f + 1, q) then Some(("", c)) else None
          case None => None
  }

  /** `\s+intended\s+for\s+(.+?)` from c, as written: the lazy group with
      nothing after it takes one character (a space, when only spaces are
      left, which trims to ""). None when the optional part does not match. */
  function IntendedForAsWritten(s: string, c: nat): Option<string>
    requires c <= |s|
  {
    match SpacesThen(s, c, "intended", true)
    case None => None
    case Some(d) =>
      match SpacesThen(s, d, "for", true)
      case None => None
      case Some(f) =>
        var h := SkipSpaces(s, f);
        if h == f then None
        else if h < |s| then Some([s[h]])
        else if HasNonTerminator(s, f + 1, h) then Some("")
        else None
  }

  /** The end of the receiver's name from h: the first ` - ` (where the
      outcome suffix begins), line terminator or the end of the text. */
  function NameEnd(s: string, h: nat): (e: nat)
    requires h <= |s|
    ensures h <= e <= |s|
    decreases |s| - h
  {
    if h == |s| || IsLineTerminator(s[h]) || At(s, h, " - ") then h else NameEnd(s, h + 1)
  }

  /** The receiver the `intended for` part is meant to carry: the whole name
      up to the outcome suffix, trimmed. */
  function IntendedFor(s: string, c: nat): Option<string>
    requires c <= |s|
  {
    match SpacesThen(s, c, "intended", true)
    case None => None
    case Some(d) =>
      match SpacesThen(s, d, "for", true)
      case None => None
      case Some(f) =>
        var h := SkipSpaces(s, f);
        if h == f then None else Some(Trim(s[h..NameEnd(s, h)]))
  }

  /** `incompleteMatch[2]?.trim() || 'Unknown'` */
  function TargetOrUnknown(t: Option<string>): (r: string)
    ensures r != ""
  {
    if t.None? || t.value == "" then "Unknown" else t.value
  }

  /** `\s*([+-]?\d+)\s*yard\s+rush` at k. */
  function RushTail(s: string, k: nat): Option<Tail>
    requires k <= |s|
  {
    match SignedNumber(s, SkipSpaces(s, k))
    case None => None
    case Some((y, c)) =>
      match SpacesThen(s, c, "yard", false)
      case None => None
      case Some(d) => if SpacesThen(s, d, "rush", true).Some? then Some(Tail(y, "", false)) else None
  }

  /** `\s*([+-]?\d+)\s*yard\s+pass\s+to\s+(.+?)\s*\((complete|incomplete)\)` at k. */
  function PassTail(s: string, k: nat): Option<Tail>
    requires k <= |s|
  {
    match SignedNumber(s, SkipSpaces(s, k))
    case None => None
    case Some((y, c)) =>
      match SpacesThen(s, c, "yard", false)
      case None => None
      case Some(d) =>
        match SpacesThen(s, d, "pass", true)
        case None => None
        case Some(p) =>
          match PassReceiver(s, p)
          case None => None
          case Some((receiver, complete)) => Some(Tail(y, receiver, complete))
  }

  /** `\s*incomplete\s+pass(?:\s+intended\s+for\s+(.+?))?` at k, the target
      read by `targetOf`. */
  function BareTail(s: string, k: nat, asWritten: bool): (r: Option<Tail>)
    requires k <= |s|
    ensures r.Some? ==> r.value.receiver != ""
  {
    match SpacesThen(s, k, "incomplete", false)
    case None => None
    case Some(a) =>
      match SpacesThen(s, a, "pass", true)
      case None => None
      case Some(b) =>
        var target := if asWritten then IntendedForAsWritten(s, b) else IntendedFor(s, b);
        Some(Tail(0, TargetOrUnknown(target), false))
  }

  /** `\s*(?:\+|\-)?(\d+)?\s*yard` at k; the sign is not captured, so the
      yards are the digits' value (0 without digits). */
  function MentionTail(s: string, k: nat): Option<Tail>
    requires k <= |s|
  {
    var a := SkipSpaces(s, k);
    var b := if a < |s| && (s[a] == '+' || s[a] == '-') then a + 1 else a;
    var c := SkipDigits(s, b);
    if SpacesThen(s, c, "yard", false).None? then None
    else Some(Tail(if c == b then 0 else SignedValue(s, b, b, c), "", false))
  }

  /** The pattern after the name group, matched at position k. */
  function TailAt(pattern: Pattern, s: string, k: nat): Option<Tail>
    requires k <= |s|
  {
    match pattern
    case Rush => RushTail(s, k)
    case Pass => PassTail(s, k)
    case BareIncomplete => BareTail(s, k, false)
    case BareIncompleteAsWritten => BareTail(s, k, true)
    case TouchdownMention => MentionTail(s, k)
  }

  /** What the pattern gives after each possible end of the name group. */
  function TailsOf(pattern: Pattern, s: string): (r: seq<Option<Tail>>)
    ensures |r| == |s| + 1
  {
    seq(|s| + 1, k requires 0 <= k <= |s| => TailAt(pattern, s, k))
  }

  /** The first end k >= from of a non-empty name group free of line
      terminators after which the rest of the pattern matches. */
  function FirstEnd(s: string, tails: seq<Option<Tail>>, from: nat): (r: Option<(nat, Tail)>)
    requires 1 <= from && |tails| == |s| + 1
    ensures r.Some? ==> from <= r.value.0 <= |s| && tails[r.value.0] == Some(r.value.1)
    decreases |s| + 1 - from
  {
    if from > |s| || IsLineTerminator(s[from - 1]) then None
    else match tails[from]
      case Some(t) => Some((from, t))
      case None => FirstEnd(s, tails, from + 1)
  }

  /** `^(.+?)` followed by the pattern: the lazy name group ends at the first
      end that lets the pattern match. */
  function LazyMatch(pattern: Pattern, s: string, from: nat): (r: Option<(nat, Tail)>)
    requires 1 <= from
    ensures r.Some? ==> from <= r.value.0 <= |s|
  {
    FirstEnd(s, TailsOf(pattern, s), from)
  }

  lemma {:induction false} FirstEndAt(s: string, tails: seq<Option<Tail>>, from: nat, k: nat)
    requires 1 <= from <= k <= |s| && |tails| == |s| + 1
    requires NoLineTerminators(s[from - 1..k])
    requires forall j :: from <= j < k ==> tails[j].None?
    requires tails[k].Some?
    ensures FirstEnd(s, tails, from) == Some((k, tails[k].value))
    decreases k - from
  {
    assert s[from - 1] == s[from - 1..k][0];
    if from < k {
      assert s[from..k] == s[from - 1..k][1..];
      FirstEndAt(s, tails, from + 1, k);
    }
  }

  lemma {:induction false} FirstEndIsFirst(s: string, tails: seq<Option<Tail>>, from: nat)
    requires 1 <= from && |tails| == |s| + 1
    ensures var r := FirstEnd(s, tails, from);
            r.Some? ==> forall j :: from <= j < r.value.0 ==> tails[j].None?
    decreases |s| + 1 - from
  {
    if from <= |s| && !IsLineTerminator(s[from - 1]) && tails[from].None? {
      FirstEndIsFirst(s, tails, from + 1);
    }
  }

  /** The lazy group ends at the first position where the pattern matches:
      the match found is the one at k when the name up to k is free of line
      terminators and no earlier end lets the pattern match. */
  lemma LazyMatchFirst(pattern: Pattern, s: string, from: nat, k: nat)
    requires 1 <= from <= k <= |s|
    requires NoLineTerminators(s[from - 1..k])
    requires forall j :: from <= j < k ==> TailAt(pattern, s, j).None?
    requires TailAt(pattern, s, k).Some?
    ensures LazyMatch(pattern, s, from) == Some((k, TailAt(pattern, s, k).value))
  {
    var tails := TailsOf(pattern, s);
    assert forall j :: from <= j < k ==> tails[j] == TailAt(pattern, s, j);
    assert tails[k] == TailAt(pattern, s, k);
    FirstEndAt(s, tails, from, k);
  }

  /** Whatever the lazy group matches, it is the first end that works. */
  lemma LazyMatchIsFirst(pattern: Pattern, s: string, from: nat)
    requires 1 <= from
    ensures var r := LazyMatch(pattern, s, from);
            r.Some? ==> TailAt(pattern, s, r.value.0) == Some(r.value.1) &&
                        forall j :: from <= j < r.value.0 ==> TailAt(pattern, s, j).None?
  {
    var tails := TailsOf(pattern, s);
    FirstEndIsFirst(s, tails, from);
    var r := LazyMatch(pattern, s, from);
    if r.Some? {
      forall j | from <= j < r.value.0 ensures TailAt(pattern, s, j).None? {
        assert tails[j] == TailAt(pattern, s, j);
      }
    }
  }

  // ---------------------------------------------------------------------------
  // Events

  datatype EventKind = Rushing | Passing | Receiving | TouchdownPlay

  datatype PlayResult = TD | Gain | Loss | Complete | Incomplete | NoGain

  /** One entry of a player's `plays` list; `target` and `passer` are "" where
      the source leaves them out. */
  datatype Event = Event(kind: EventKind, yards: int, complete: bool, touchdown: bool,
                         result: PlayResult, target: string, passer: string,
                         description: string, time: string, playIndex: nat)

  /** An event for the player of that name. */
  datatype Credit = Credit(name: string, event: Event)

  /** A credit list of at most two events, each about text d and play
      number index. */
  predicate CreditsOf(credits: seq<Credit>, d: string, index: nat)
  {
    |credits| <= 2 && forall i :: 0 <= i < |credits| ==> credits[i].event.description == d && credits[i].event.playIndex == index
  }

  /** The rush branch: one rushing event for the trimmed name. */
  function RushCredits(d: string, k: nat, t: Tail, td: bool, time: string, index: nat): (r: seq<Credit>)
    requires k <= |d|
    ensures CreditsOf(r, d, index)
  {
    [Credit(Trim(d[..k]), Event(Rushing, t.yards, false, td, if td then TD else if t.yards > 0 then Gain else Loss,
                                "", "", d, time, index))]
  }

  /** The pass branch: a passing event for the thrower, and a receiving event
      for the receiver when the pass is complete. */
  function PassCredits(d: string, k: nat, t: Tail, td: bool, time: string, index: nat): (r: seq<Credit>)
    requires k <= |d|
    ensures CreditsOf(r, d, index)
  {
    var qb := Trim(d[..k]);
    [Credit(qb, Event(Passing, if t.complete then t.yards else 0, t.complete, td,
                      if td then TD else if t.complete then Complete else Incomplete,
                      t.receiver, "", d, time, index))]
    + (if t.complete
       then [Credit(t.receiver, Event(Receiving, t.yards, false, td,
                                      if td then TD else if t.yards > 0 then Gain else NoGain,
                                      "", qb, d, time, index))]
       else [])
  }

  /** The bare incomplete branch: one passing event with no yards. */
  function BareCredits(d: string, k: nat, t: Tail, time: string, index: nat): (r: seq<Credit>)
    requires k <= |d|
    ensures CreditsOf(r, d, index)
  {
    [Credit(Trim(d[..k]), Event(Passing, 0, false, false, Incomplete, t.receiver, "", d, time, index))]
  }

  /** The touchdown mention branch: one touchdown event. */
  function MentionCredits(d: string, k: nat, t: Tail, time: string, index: nat): (r: seq<Credit>)
    requires k <= |d|
    ensures CreditsOf(r, d, index)
  {
    [Credit(Trim(d[..k]), Event(TouchdownPlay, t.yards, false, true, TD, "", "", d, time, index))]
  }

  /** parsePlayForPlayers: the patterns in order rush, pass with a receiver,
      bare incomplete pass, and (only when the text mentions TOUCHDOWN) a
      name before `yard`; the first that matches gives the events. */
  function ParsePlay(d: string, time: string, index: nat): (credits: seq<Credit>)
    ensures CreditsOf(credits, d, index)
  {
    var td := Contains(d, "TOUCHDOWN");
    match LazyMatch(Rush, d, 1)
    case Some((k, t)) => RushCredits(d, k, t, td, time, index)
    case None =>
      match LazyMatch(Pass, d, 1)
      case Some((k, t)) => PassCredits(d, k, t, td, time, index)
      case None =>
        match LazyMatch(BareIncomplete, d, 1)
        case Some((k, t)) => BareCredits(d, k, t, time, index)
        case None =>
          if !td then []
          else match LazyMatch(TouchdownMention, d, 1)
            case Some((k, t)) => MentionCredits(d, k, t, time, index)
            case None => []
  }

  /** What the pattern kinds give: a rush one rushing event; a pass a passing
      event with yards only when complete, plus a receiving event with the
      same yards when complete; a bare incomplete pass one passing event with
      no yards; no event from a text none of them matches. */
  lemma ParsePlayShapes(d: string, time: string, index: nat)
    ensures var cs := ParsePlay(d, time, index);
            && (LazyMatch(Rush, d, 1).Some? ==>
                  |cs| == 1 && cs[0].event.kind == Rushing &&
                  cs[0].event.yards == LazyMatch(Rush, d, 1).value.1.yards)
            && (LazyMatch(Rush, d, 1).None? && LazyMatch(Pass, d, 1).Some? ==>
                  var t := LazyMatch(Pass, d, 1).value.1;
                  && cs[0].event.kind == Passing && cs[0].event.complete == t.complete
                  && cs[0].event.yards == (if t.complete then t.yards else 0)
                  && (t.complete <==> |cs| == 2)
                  && (t.complete ==> cs[1].event.kind == Receiving && cs[1].event.yards == t.yards &&
                                     cs[1].name == t.receiver && cs[1].event.passer == cs[0].name))
            && (LazyMatch(Rush, d, 1).None? && LazyMatch(Pass, d, 1).None? && LazyMatch(BareIncomplete, d, 1).Some? ==>
                  |cs| == 1 && cs[0].event.kind == Passing && !cs[0].event.complete && cs[0].event.yards == 0 &&
                  cs[0].event.target != "")
            && ((LazyMatch(Rush, d, 1).None? && LazyMatch(Pass, d, 1).None? && LazyMatch(BareIncomplete, d, 1).None? &&
                  !Contains(d, "TOUCHDOWN")) ==> cs == [])
  {
    LazyMatchIsFirst(BareIncomplete, d, 1);
  }

  // ---------------------------------------------------------------------------
  // Round trip with the play formatter

  /** A name a rush line can carry and give back: not empty, no surrounding
      spaces, no digits, no line terminators. */
  predicate PlainName(name: string)
  {
    name != [] && Trimmed(name) && NoDigits(name) && NoLineTerminators(name)
  }

  lemma SkipSpacesStops(s: string, i: nat, m: nat)
    requires i <= m < |s| && !IsSpace(s[m])
    ensures SkipSpaces(s, i) <= m
  {
    SkipSpacesSkips(s, i);
  }

  /** Inside a plain name no number starts: a position before the name's
      end never begins `\s*[+-]?\d`. */
  lemma NoNumberInName(name: string, rest: string, j: nat)
    requires PlainName(name) && j < |name|
    requires |rest| >= 1 && rest[0] == ' '
    ensures SignedNumber(name + rest, SkipSpaces(name + rest, j)).None?
  {
    var s := name + rest;
    assert !IsSpace(s[|name| - 1]);
    SkipSpacesStops(s, j, |name| - 1);
    var a := SkipSpaces(s, j);
    assert !IsDigit(s[a]);
    var b := if a < |s| && (s[a] == '+' || s[a] == '-') then a + 1 else a;
    assert b < |s| && !IsDigit(s[b]) by {
      if b == |name| {
        assert s[b] == ' ';
      } else {
        assert s[b] == name[b];
      }
    }
  }

  /** No end inside a plain name lets the rush pattern match. */
  lemma NoRushInName(d: string, name: string, rest: string)
    requires PlainName(name) && d == name + rest && |rest| >= 1 && rest[0] == ' '
    ensures forall j :: 1 <= j < |name| ==> TailAt(Rush, d, j).None?
  {
    forall j | 1 <= j < |name|
      ensures TailAt(Rush, d, j).None?
    {
      NoNumberInName(name, rest, j);
    }
  }

  /** A run of digits followed by a non-digit: `\d*` ends after the run. */
  lemma DigitRunAt(s: string, b: nat, ds: string)
    requires |ds| >= 1 && AllDigits(ds)
    requires b + |ds| < |s| && s[b..b + |ds|] == ds && !IsDigit(s[b + |ds|])
    ensures SkipDigits(s, b) == b + |ds| && IsDigit(s[b])
  {
    assert s[b] == ds[0];
    SkipDigitsFrom(s, b, b + |ds|);
  }

  /** `+` or `-`, then a run of digits and a non-digit: the run's value with
      that sign. */
  lemma SignedDigitsAt(s: string, a: nat, sign: char, ds: string)
    requires sign == '+' || sign == '-'
    requires |ds| >= 1 && AllDigits(ds)
    requires a + 1 + |ds| < |s| && s[a] == sign
    requires s[a + 1..a + 1 + |ds|] == ds && !IsDigit(s[a + 1 + |ds|])
    ensures SignedNumber(s, a) ==
              Some((if sign == '-' then -(DigitsValue(ds) as int) else DigitsValue(ds), a + 1 + |ds|))
  {
    DigitRunAt(s, a + 1, ds);
  }

  /** A run of digits and a non-digit, with no sign: the run's value. */
  lemma UnsignedDigitsAt(s: string, a: nat, ds: string)
    requires |ds| >= 1 && AllDigits(ds)
    requires a + |ds| < |s| && s[a..a + |ds|] == ds && !IsDigit(s[a + |ds|])
    ensures SignedNumber(s, a) == Some((DigitsValue(ds) as int, a + |ds|))
  {
    DigitRunAt(s, a, ds);
  }

  /** The text of the signed yards, case by case: a plus sign before a
      positive number, a minus sign before a negative one, the digits alone
      for zero. */
  predicate YardsText(yards: int, t: string)
  {
    && (yards > 0 ==> t == ['+'] + NatToString(yards))
    && (yards < 0 ==> t == ['-'] + NatToString(-yards))
    && (yards == 0 ==> t == NatToString(0))
  }

  /** The formatter writes its signed yards that way. */
  lemma SignedYardsCases(yards: int)
    ensures YardsText(yards, Engine.SignedYards(yards))
  {
  }

  /** The signed yards read back as the same number. */
  lemma SignedYardsReadBack(s: string, a: nat, yards: int, t: string)
    requires YardsText(yards, t)
    requires a + |t| < |s| && s[a..a + |t|] == t && !IsDigit(s[a + |t|])
    ensures SignedNumber(s, a) == Some((yards, a + |t|))
  {
    if yards > 0 {
      SignedTextReadBack(s, a, t, '+', yards);
    } else if yards < 0 {
      SignedTextReadBack(s, a, t, '-', -yards);
    } else {
      NatToStringDigits(0);
      UnsignedDigitsAt(s, a, t);
    }
  }

  /** A sign and the digits of n, followed by a non-digit, read back. */
  lemma SignedTextReadBack(s: string, a: nat, t: string, sign: char, n: nat)
    requires sign == '+' || sign == '-'
    requires t == [sign] + NatToString(n)
    requires a + |t| < |s| && s[a..a + |t|] == t && !IsDigit(s[a + |t|])
    ensures SignedNumber(s, a) == Some((if sign == '-' then -(n as int) else n, a + |t|))
  {
    NatToStringDigits(n);
    var ds := t[1..];
    assert ds == NatToString(n);
    assert s[a + 1..a + 1 + |ds|] == ds;
    assert s[a] == t[0];
    SignedDigitsAt(s, a, sign, ds);
  }

  lemma {:induction false} SkipDigitsFrom(s: string, b: nat, c: nat)
    requires b <= c < |s| && AllDigits(s[b..c]) && !IsDigit(s[c])
    ensures SkipDigits(s, b) == c
    decreases c - b
  {
    if b < c {
      assert s[b] == s[b..c][0];
      assert s[b + 1..c] == s[b..c][1..];
      SkipDigitsFrom(s, b + 1, c);
    }
  }

  lemma SkipOneSpace(s: string, i: nat)
    requires i + 1 < |s| && IsSpace(s[i]) && !IsSpace(s[i + 1])
    ensures SkipSpaces(s, i) == i + 1
  {
  }

  /** ` word` at i: the spaces are skipped and the word is found. */
  lemma SpaceThenWord(s: string, i: nat, word: string)
    requires |word| >= 1 && !IsSpace(word[0])
    requires i + 1 + |word| <= |s| && s[i] == ' ' && s[i + 1..i + 1 + |word|] == word
    ensures SpacesThen(s, i, word, true) == Some(i + 1 + |word|)
    ensures SpacesThen(s, i, word, false) == Some(i + 1 + |word|)
  {
    assert s[i + 1] == word[0];
    SkipOneSpace(s, i);
  }

  /** A space, a number ending at c and ` yard rush` at k: the rush tail
      matches there with that number. */
  lemma RushTailAt(s: string, k: nat, c: nat, yards: int)
    requires k + 1 < c && c + 10 <= |s| && s[k] == ' ' && !IsSpace(s[k + 1])
    requires SignedNumber(s, k + 1) == Some((yards, c))
    requires s[c] == ' ' && s[c + 1..c + 5] == "yard" && s[c + 5] == ' ' && s[c + 6..c + 10] == "rush"
    ensures RushTail(s, k) == Some(Tail(yards, "", false))
  {
    SkipOneSpace(s, k);
    SpaceThenWord(s, c, "yard");
    SpaceThenWord(s, c + 5, "rush");
  }

  /** The pieces of a rush line: the name, a space, the yards text, then
      ` yard rush`. */
  lemma RushLinePieces(name: string, t: string, rest: string)
    ensures var d := name + " " + t + " yard rush" + rest;
            var k := |name|;
            var c := k + 1 + |t|;
            && |d| == c + 10 + |rest|
            && d[..k] == name && d[k] == ' ' && d[k + 1..c] == t
            && d[c] == ' ' && d[c + 1..c + 5] == "yard" && d[c + 5] == ' ' && d[c + 6..c + 10] == "rush"
  {
  }

  /** In a rush line the yards text after the name reads back as the yards. */
  lemma RushLineNumber(name: string, yards: int, suffix: string, t: string, d: string)
    requires YardsText(yards, t)
    requires d == name + " " + t + " yard rush" + suffix
    ensures SignedNumber(d, |name| + 1) == Some((yards, |name| + 1 + |t|))
  {
    RushLinePieces(name, t, suffix);
    SignedYardsReadBack(d, |name| + 1, yards, t);
  }

  /** In a rush line whose number reads back, the rush tail matches after the
      name. */
  lemma RushLineTail(name: string, yards: int, suffix: string, t: string, d: string)
    requires |t| >= 1 && !IsSpace(t[0])
    requires d == name + " " + t + " yard rush" + suffix
    requires SignedNumber(d, |name| + 1) == Some((yards, |name| + 1 + |t|))
    ensures RushTail(d, |name|) == Some(Tail(yards, "", false))
  {
    RushLinePieces(name, t, suffix);
    RushTailAt(d, |name|, |name| + 1 + |t|, yards);
  }

  /** A rush line the formatter writes for a plain name parses back into one
      rushing event for that name with the same yards, whatever outcome text
      follows it. */
  lemma RushRoundTrip(name: string, yards: int, suffix: string, time: string, index: nat)
    requires PlainName(name)
    ensures var d := Engine.RushText(name, yards) + suffix;
            var td := Contains(d, "TOUCHDOWN");
            ParsePlay(d, time, index) ==
              [Credit(name, Event(Rushing, yards, false, td, if td then TD else if yards > 0 then Gain else Loss,
                                  "", "", d, time, index))]
  {
    var d := Engine.RushText(name, yards) + suffix;
    RushLineMatch(name, yards, suffix);
    ParseRush(d, |name|, Tail(yards, "", false), time, index);
    TrimTrims(name);
  }

  /** A text the rush pattern matches gives one rushing event. */
  lemma ParseRush(d: string, k: nat, t: Tail, time: string, index: nat)
    requires k <= |d| && LazyMatch(Rush, d, 1) == Some((k, t))
    ensures var td := Contains(d, "TOUCHDOWN");
            ParsePlay(d, time, index) ==
              [Credit(Trim(d[..k]), Event(Rushing, t.yards, false, td, if td then TD else if t.yards > 0 then Gain else Loss,
                                          "", "", d, time, index))]
  {
  }

  /** In a rush line for a plain name the rush pattern first matches right
      after the name, with the rush's yards. */
  lemma RushLineMatch(name: string, yards: int, suffix: string)
    requires PlainName(name)
    ensures LazyMatch(Rush, Engine.RushText(name, yards) + suffix, 1) == Some((|name|, Tail(yards, "", false)))
    ensures (Engine.RushText(name, yards) + suffix)[..|name|] == name
  {
    var t := Engine.SignedYards(yards);
    var d := Engine.RushText(name, yards) + suffix;
    assert d == name + " " + t + " yard rush" + suffix;
    SignedYardsCases(yards);
    RushMatchAt(name, yards, suffix, t, d);
  }

  /** The same, for the pieces of the line. */
  lemma RushMatchAt(name: string, yards: int, suffix: string, t: string, d: string)
    requires PlainName(name) && YardsText(yards, t)
    requires d == name + " " + t + " yard rush" + suffix
    ensures LazyMatch(Rush, d, 1) == Some((|name|, Tail(yards, "", false)))
    ensures d[..|name|] == name
  {
    var k := |name|;
    var rest := " " + t + " yard rush" + suffix;
    assert d == name + rest;
    YardsTextStart(yards, t);
    RushLineNumber(name, yards, suffix, t, d);
    RushLineTail(name, yards, suffix, t, d);
    NoRushInName(d, name, rest);
    assert d[0..k] == name;
    LazyMatchFirst(Rush, d, 1, k);
  }

  /** The formatter's signed yards start with a sign or a digit. */
  lemma YardsTextStart(yards: int, t: string)
    requires YardsText(yards, t)
    ensures |t| >= 1 && !IsSpace(t[0])
  {
    NatToStringDigits(if yards > 0 then yards else if yards < 0 then -yards else 0);
  }

  // ---------------------------------------------------------------------------
  // Incomplete passes: the receiver the `intended for` group captures

  /** A receiver name the formatter can write after `intended for` and the
      corrected group can read back: plain, and never a space followed by a
      dash (which would look like the start of an outcome suffix). */
  predicate ReceiverName(r: string)
  {
    PlainName(r) && forall j :: 0 <= j < |r| - 1 ==> !(r[j] == ' ' && r[j + 1] == '-')
  }

  /** A thrower name in which the word `incomplete` does not occur. */
  predicate ThrowerName(name: string)
  {
    PlainName(name) && forall a: nat :: a < |name| ==> !At(name, a, "incomplete")
  }

  /** The literal between thrower and receiver in an incomplete-pass line. */
  const IntendedLiteral := " " + "incomplete" + " " + "pass" + " " + "intended" + " " + "for" + " "

  /** The pieces of an incomplete-pass line with a receiver. */
  lemma IncompleteLinePieces(d: string, p: string, r: string, suffix: string)
    requires d == p + IntendedLiteral + r + suffix
    ensures var k := |p|;
            && |d| == k + 30 + |r| + |suffix|
            && d[..k] == p && d[k..k + 30] == IntendedLiteral
            && d[k + 30..k + 30 + |r|] == r && d[k + 30 + |r|..] == suffix
  {
  }

  /** The words of the literal between thrower and receiver. */
  lemma IntendedLiteralWords(d: string, p: string, rest: string)
    requires d == p + IntendedLiteral + rest
    ensures var k := |p|;
            && k + 30 <= |d|
            && d[k] == ' ' && d[k + 1..k + 11] == "incomplete" && d[k + 11] == ' '
            && d[k + 12..k + 16] == "pass" && d[k + 16] == ' ' && d[k + 17..k + 25] == "intended"
            && d[k + 25] == ' ' && d[k + 26..k + 29] == "for" && d[k + 29] == ' '
  {
  }

  /** The literal carries no digits. */
  lemma IntendedLiteralNoDigits()
    ensures NoDigits(IntendedLiteral)
  {
  }

  /** The formatter's incomplete-pass text with a thrower and a receiver. */
  lemma IncompleteText(thrower: string, receiver: string)
    requires thrower != [] && receiver != []
    ensures Engine.IncompletePassText(thrower, receiver) == thrower + IntendedLiteral + receiver
  {
    assert Engine.NamePrefix(thrower) == thrower + " ";
  }

  lemma AtSpaceDash(s: string, i: nat)
    ensures At(s, i, " - ") ==> i + 1 < |s| && s[i] == ' ' && s[i + 1] == '-'
  {
    if At(s, i, " - ") {
      assert s[i..i + 3][0] == s[i] && s[i..i + 3][1] == s[i + 1];
    }
  }

  /** At the j-th character of a receiver name the name does not stop. */
  lemma NoStopInName(s: string, i: nat, r: string, j: nat)
    requires ReceiverName(r) && i < |s| && j < |r| && s[i] == r[j]
    requires j + 1 < |r| ==> i + 1 < |s| && s[i + 1] == r[j + 1]
    ensures !IsLineTerminator(s[i]) && !At(s, i, " - ")
  {
    AtSpaceDash(s, i);
    if j + 1 == |r| {
      assert !IsSpace(r[j]);
    }
  }

  /** NameEnd stops at e when nothing before it stops the name. */
  lemma {:induction false} NameEndFrom(s: string, h: nat, e: nat)
    requires h <= e <= |s|
    requires forall i :: h <= i < e ==> !IsLineTerminator(s[i]) && !At(s, i, " - ")
    requires e == |s| || At(s, e, " - ")
    ensures NameEnd(s, h) == e
    decreases e - h
  {
    if h < e {
      NameEndFrom(s, h + 1, e);
    }
  }

  /** After any prefix, a receiver name followed by nothing or by an outcome
      suffix ends exactly where the suffix begins. */
  lemma NameEndAfter(pre: string, r: string, suffix: string)
    requires ReceiverName(r)
    requires suffix == [] || (|suffix| >= 3 && suffix[..3] == " - ")
    ensures NameEnd(pre + r + suffix, |pre|) == |pre| + |r|
  {
    var s := pre + r + suffix;
    var h, e := |pre|, |pre| + |r|;
    assert s[h..e] == r;
    NoStopsIn(s, h, r);
    assert s[e..] == suffix;
    SuffixStops(s, e, suffix);
    NameEndFrom(s, h, e);
  }

  /** Nothing inside a receiver name stops it. */
  lemma NoStopsIn(s: string, h: nat, r: string)
    requires ReceiverName(r) && h + |r| <= |s| && s[h..h + |r|] == r
    ensures forall i :: h <= i < h + |r| ==> !IsLineTerminator(s[i]) && !At(s, i, " - ")
  {
    forall i | h <= i < h + |r|
      ensures !IsLineTerminator(s[i]) && !At(s, i, " - ")
    {
      var j := i - h;
      assert s[i] == s[h..h + |r|][j];
      if j + 1 < |r| {
        assert s[i + 1] == s[h..h + |r|][j + 1];
      }
      NoStopInName(s, i, r, j);
    }
  }

  /** An outcome suffix, or the end of the text, stops the name. */
  lemma SuffixStops(s: string, e: nat, suffix: string)
    requires e <= |s| && s[e..] == suffix
    requires suffix == [] || (|suffix| >= 3 && suffix[..3] == " - ")
    ensures e == |s| || At(s, e, " - ")
  {
    if suffix != [] {
      assert s[e..e + 3] == suffix[..3];
    }
  }

  /** At the end of the thrower's name the bare pattern matches: the
      corrected group captures the whole receiver, the group as written only
      its first character. */
  lemma BareTailAt(d: string, k: nat, r: string)
    requires k + 30 + |r| <= |d|
    requires d[k] == ' ' && d[k + 1..k + 11] == "incomplete" && d[k + 11] == ' '
    requires d[k + 12..k + 16] == "pass" && d[k + 16] == ' ' && d[k + 17..k + 25] == "intended"
    requires d[k + 25] == ' ' && d[k + 26..k + 29] == "for" && d[k + 29] == ' '
    requires d[k + 30..k + 30 + |r|] == r && PlainName(r)
    requires NameEnd(d, k + 30) == k + 30 + |r|
    ensures BareTail(d, k, false) == Some(Tail(0, r, false))
    ensures BareTail(d, k, true) == Some(Tail(0, [r[0]], false))
  {
    SpaceThenWord(d, k, "incomplete");
    SpaceThenWord(d, k + 11, "pass");
    IntendedForAt(d, k + 16, r);
    IntendedForAsWrittenAt(d, k + 16, r);
  }

  /** The spaces and words of ` intended for ` at c, then the receiver. */
  predicate IntendedForAhead(d: string, c: nat, r: string)
  {
    && c + 14 + |r| <= |d| && PlainName(r)
    && d[c] == ' ' && d[c + 1..c + 9] == "intended"
    && d[c + 9] == ' ' && d[c + 10..c + 13] == "for" && d[c + 13] == ' '
    && d[c + 14..c + 14 + |r|] == r
  }

  /** The spaces and words of ` intended for ` are found and the receiver
      starts right after them. */
  lemma IntendedForStart(d: string, c: nat, r: string)
    requires IntendedForAhead(d, c, r)
    ensures SpacesThen(d, c, "intended", true) == Some(c + 9)
    ensures SpacesThen(d, c + 9, "for", true) == Some(c + 13)
    ensures SkipSpaces(d, c + 13) == c + 14 && c + 14 < |d| && d[c + 14] == r[0]
  {
    SpaceThenWord(d, c, "intended");
    SpaceThenWord(d, c + 9, "for");
    assert d[c + 14] == r[0];
    SkipOneSpace(d, c + 13);
  }

  /** Corrected: the group captures the receiver up to where its name ends. */
  lemma IntendedForAt(d: string, c: nat, r: string)
    requires IntendedForAhead(d, c, r)
    requires NameEnd(d, c + 14) == c + 14 + |r|
    ensures IntendedFor(d, c) == Some(r)
  {
    IntendedForStart(d, c, r);
    TrimTrims(r);
  }

  /** As written: the group captures the receiver's first character. */
  lemma IntendedForAsWrittenAt(d: string, c: nat, r: string)
    requires IntendedForAhead(d, c, r)
    ensures IntendedForAsWritten(d, c) == Some([r[0]])
  {
    IntendedForStart(d, c, r);
  }

  lemma IncompleteNoSpaces()
    ensures forall m :: 0 <= m < 10 ==> !IsSpace("incomplete"[m])
  {
  }

  /** Inside a thrower's name the word `incomplete` never begins: it would
      have to start inside the name, or run into the space after it. */
  lemma NoIncompleteInName(name: string, rest: string, j: nat)
    requires ThrowerName(name) && j < |name|
    requires |rest| >= 1 && rest[0] == ' '
    ensures SpacesThen(name + rest, j, "incomplete", false).None?
  {
    var s := name + rest;
    assert !IsSpace(s[|name| - 1]);
    SkipSpacesStops(s, j, |name| - 1);
    var a := SkipSpaces(s, j);
    if a + 10 <= |name| {
      assert s[a..a + 10] == name[a..a + 10];
      assert !At(name, a, "incomplete");
    } else if a + 10 <= |s| {
      var m := |name| - a;
      assert s[a..a + 10][m] == ' ';
      IncompleteNoSpaces();
    }
  }

  /** No end inside the thrower's name lets the bare pattern match. */
  lemma NoBareInThrower(d: string, thrower: string, rest: string, pattern: Pattern)
    requires ThrowerName(thrower) && d == thrower + rest && |rest| >= 1 && rest[0] == ' '
    requires pattern == BareIncomplete || pattern == BareIncompleteAsWritten
    ensures forall j :: 1 <= j < |thrower| ==> TailAt(pattern, d, j).None?
  {
    forall j | 1 <= j < |thrower|
      ensures TailAt(pattern, d, j).None?
    {
      NoIncompleteInName(thrower, rest, j);
      BareTailNeedsWord(d, j, pattern == BareIncompleteAsWritten);
    }
  }

  /** Without the word `incomplete` the bare pattern does not match. */
  lemma BareTailNeedsWord(s: string, j: nat, asWritten: bool)
    requires j <= |s| && SpacesThen(s, j, "incomplete", false).None?
    ensures BareTail(s, j, asWritten).None?
  {
  }

  lemma NoDigitsAppend(a: string, b: string)
    requires NoDigits(a) && NoDigits(b)
    ensures NoDigits(a + b)
  {
  }

  /** The outcome suffixes carry no digits and start with ` - ` unless empty. */
  lemma OutcomeSuffixShape(o: Engine.Outcome)
    ensures var suffix := Engine.OutcomeSuffix(o);
            NoDigits(suffix) && (suffix == [] || (|suffix| >= 3 && suffix[..3] == " - "))
  {
  }

  /** A text without digits holds no number, so neither the rush nor the
      pass pattern matches anywhere in it. */
  lemma NoDigitsNoYards(s: string)
    requires NoDigits(s)
    ensures LazyMatch(Rush, s, 1).None? && LazyMatch(Pass, s, 1).None?
  {
    forall a: nat | a <= |s| ensures SignedNumber(s, a).None? {
      var b := if a < |s| && (s[a] == '+' || s[a] == '-') then a + 1 else a;
      assert b == |s| || !IsDigit(s[b]);
    }
    LazyMatchIsFirst(Rush, s, 1);
    LazyMatchIsFirst(Pass, s, 1);
  }

  /** An incomplete-pass line with a receiver, as the formatter writes it:
      the pieces, no digits, and the receiver's name ending at the suffix. */
  lemma IncompleteLine(thrower: string, receiver: string, o: Engine.Outcome)
    requires ThrowerName(thrower) && ReceiverName(receiver)
    ensures var suffix := Engine.OutcomeSuffix(o);
            var d := Engine.IncompletePassText(thrower, receiver) + suffix;
            && d == thrower + IntendedLiteral + receiver + suffix
            && NoDigits(d)
            && NameEnd(d, |thrower| + 30) == |thrower| + 30 + |receiver|
  {
    var suffix := Engine.OutcomeSuffix(o);
    IncompleteText(thrower, receiver);
    OutcomeSuffixShape(o);
    IntendedLiteralNoDigits();
    NoDigitsAppend(thrower, IntendedLiteral);
    NoDigitsAppend(thrower + IntendedLiteral, receiver);
    NoDigitsAppend(thrower + IntendedLiteral + receiver, suffix);
    NameEndAfter(thrower + IntendedLiteral, receiver, suffix);
  }

  /** Right after the thrower's name the bare pattern matches. */
  lemma BareTailAfterThrower(d: string, thrower: string, receiver: string, suffix: string)
    requires PlainName(receiver)
    requires d == thrower + IntendedLiteral + receiver + suffix
    requires NameEnd(d, |thrower| + 30) == |thrower| + 30 + |receiver|
    ensures BareTail(d, |thrower|, false) == Some(Tail(0, receiver, false))
    ensures BareTail(d, |thrower|, true) == Some(Tail(0, [receiver[0]], false))
  {
    IncompleteLinePieces(d, thrower, receiver, suffix);
    IntendedLiteralWords(d, thrower, receiver + suffix);
    BareTailAt(d, |thrower|, receiver);
  }

  /** Where the bare pattern first matches in a line of these pieces: right
      after the thrower's name, with either receiver group. */
  lemma IncompleteMatchAt(d: string, thrower: string, receiver: string, suffix: string, pattern: Pattern)
    requires ThrowerName(thrower) && PlainName(receiver)
    requires d == thrower + IntendedLiteral + receiver + suffix
    requires NameEnd(d, |thrower| + 30) == |thrower| + 30 + |receiver|
    requires pattern == BareIncomplete || pattern == BareIncompleteAsWritten
    ensures LazyMatch(pattern, d, 1) ==
              Some((|thrower|, Tail(0, if pattern == BareIncomplete then receiver else [receiver[0]], false)))
  {
    var k := |thrower|;
    var rest := IntendedLiteral + receiver + suffix;
    assert d == thrower + rest;
    BareTailAfterThrower(d, thrower, receiver, suffix);
    NoBareInThrower(d, thrower, rest, pattern);
    assert d[0..k] == thrower;
    LazyMatchFirst(pattern, d, 1, k);
  }

  /** Where the bare pattern first matches in a formatted incomplete-pass
      line. */
  lemma IncompleteLineMatch(thrower: string, receiver: string, o: Engine.Outcome, pattern: Pattern)
    requires ThrowerName(thrower) && ReceiverName(receiver)
    requires pattern == BareIncomplete || pattern == BareIncompleteAsWritten
    ensures var d := Engine.IncompletePassText(thrower, receiver) + Engine.OutcomeSuffix(o);
            LazyMatch(pattern, d, 1) ==
              Some((|thrower|, Tail(0, if pattern == BareIncomplete then receiver else [receiver[0]], false)))
  {
    var d := Engine.IncompletePassText(thrower, receiver) + Engine.OutcomeSuffix(o);
    IncompleteLine(thrower, receiver, o);
    IncompleteMatchAt(d, thrower, receiver, Engine.OutcomeSuffix(o), pattern);
  }

  /** As written, the lazy receiver group with nothing after it stops after
      one character: the target recorded for an incomplete pass is the first
      letter of the receiver's name, which differs from the name whenever it
      is longer than one letter. */
  lemma IncompleteTargetAsWritten(thrower: string, receiver: string, o: Engine.Outcome)
    requires ThrowerName(thrower) && ReceiverName(receiver)
    ensures var d := Engine.IncompletePassText(thrower, receiver) + Engine.OutcomeSuffix(o);
            var m := LazyMatch(BareIncompleteAsWritten, d, 1);
            && m.Some? && m.value.1.receiver == [receiver[0]]
            && (|receiver| >= 2 ==> m.value.1.receiver != receiver)
  {
    IncompleteLineMatch(thrower, receiver, o, BareIncompleteAsWritten);
  }

  /** Corrected, an incomplete-pass line the formatter writes parses back
      into one incomplete passing event for the thrower whose target is the
      whole receiver name, whatever outcome suffix follows. */
  lemma IncompleteRoundTrip(thrower: string, receiver: string, o: Engine.Outcome, time: string, index: nat)
    requires ThrowerName(thrower) && ReceiverName(receiver)
    ensures var d := Engine.IncompletePassText(thrower, receiver) + Engine.OutcomeSuffix(o);
            ParsePlay(d, time, index) ==
              [Credit(thrower, Event(Passing, 0, false, false, Incomplete, receiver, "", d, time, index))]
  {
    var d := Engine.IncompletePassText(thrower, receiver) + Engine.OutcomeSuffix(o);
    IncompleteLine(thrower, receiver, o);
    NoDigitsNoYards(d);
    IncompleteLineMatch(thrower, receiver, o, BareIncomplete);
    IncompleteLinePieces(d, thrower, receiver, Engine.OutcomeSuffix(o));
    TrimTrims(thrower);
  }
}
