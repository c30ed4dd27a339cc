/** Shared vocabulary of the scorekeeper model: teams, optional values, clamping,
    and the JavaScript string primitives the source relies on (`trim`,
    `includes`, `split`, `join`, `padStart`, number-to-string and `parseInt`
    on a run of decimal digits). */
module Common {

  /** The two sides of a game; the source spells them 'home' and 'away'. */
  datatype Team = Home | Away

  function Flip(t: Team): (r: Team)
    ensures r != t
  {
    if t == Home then Away else Home
  }

  /** The keys of an insertion-ordered object, `Object.keys(obj)`. */
  function Keys<V>(pairs: seq<(string, V)>): (r: seq<string>)
    ensures |r| == |pairs| && forall i :: 0 <= i < |pairs| ==> r[i] == pairs[i].0
  {
    seq(|pairs|, i requires 0 <= i < |pairs| => pairs[i].0)
  }

  /** The string key the source uses for a team ('home' / 'away'). */
  function TeamKey(t: Team): string
  {
    if t == Home then "home" else "away"
  }

  /** `team === 'home' ? homeTeam : awayTeam` */
  function TeamName(t: Team, homeTeam: string, awayTeam: string): string
  {
    if t == Home then homeTeam else awayTeam
  }

  datatype Option<T> = None | Some(value: T)

  /** `Math.max(lo, Math.min(hi, v))` */
  function Clamp(v: int, lo: int, hi: int): (r: int)
    requires lo <= hi
    ensures lo <= r <= hi
    ensures lo <= v <= hi ==> r == v
    ensures v < lo ==> r == lo
    ensures v > hi ==> r == hi
  {
    if v < lo then lo else if v > hi then hi else v
  }

  // ---------------------------------------------------------------------------
  // Character classes

  predicate IsDigit(c: char)
  {
    '0' <= c <= '9'
  }

  /** The characters of the JavaScript regular-expression class `\s`, which is
      also the set `String.prototype.trim` removes. */
  predicate IsSpace(c: char)
  {
    c == '\t' || c == '\n' || c == '\U{000B}' || c == '\U{000C}' || c == '\r' ||
    c == ' ' || c == '\U{00A0}' || c == '\U{1680}' ||
    ('\U{2000}' <= c <= '\U{200A}') ||
    c == '\U{2028}' || c == '\U{2029}' || c == '\U{202F}' || c == '\U{205F}' ||
    c == '\U{3000}' || c == '\U{FEFF}'
  }

  /** The characters the regular-expression `.` does not match. */
  predicate IsLineTerminator(c: char)
  {
    c == '\n' || c == '\r' || c == '\U{2028}' || c == '\U{2029}'
  }

  lemma LineTerminatorIsSpace(c: char)
    requires IsLineTerminator(c)
    ensures IsSpace(c)
  {
  }

  predicate AllDigits(s: string)
  {
    forall i :: 0 <= i < |s| ==> IsDigit(s[i])
  }

  predicate NoDigits(s: string)
  {
    forall i :: 0 <= i < |s| ==> !IsDigit(s[i])
  }

  predicate NoLineTerminators(s: string)
  {
    forall i :: 0 <= i < |s| ==> !IsLineTerminator(s[i])
  }

  /** A string `trim` leaves unchanged. */
  predicate Trimmed(s: string)
  {
    s == [] || (!IsSpace(s[0]) && !IsSpace(s[|s| - 1]))
  }

  // ---------------------------------------------------------------------------
  // Decimal numerals

  function DigitChar(d: nat): (c: char)
    requires d < 10
    ensures IsDigit(c)
  {
    ['0', '1', '2', '3', '4', '5', '6', '7', '8', '9'][d]
  }

  function DigitValue(c: char): (d: nat)
    requires IsDigit(c)
    ensures d < 10
  {
    (c as int - '0' as int) as nat
  }

  lemma DigitRoundTrip(d: nat)
    requires d < 10
    ensures DigitValue(DigitChar(d)) == d
  {
  }

  /** Decimal rendering of a natural number, as `String(n)` gives it. */
  function NatToString(n: nat): (s: string)
    decreases n
  {
    if n < 10 then [DigitChar(n)] else NatToString(n / 10) + [DigitChar(n % 10)]
  }

  /** Value of a run of decimal digits, as `parseInt` reads it. */
  function DigitsValue(s: string): (v: nat)
    requires AllDigits(s)
  {
    if s == [] then 0 else DigitsValue(s[..|s| - 1]) * 10 + DigitValue(s[|s| - 1])
  }

  lemma {:induction false} NatToStringDigits(n: nat)
    ensures |NatToString(n)| >= 1
    ensures AllDigits(NatToString(n))
    ensures DigitsValue(NatToString(n)) == n
    decreases n
  {
    if n < 10 {
      DigitRoundTrip(n);
    } else {
      NatToStringDigits(n / 10);
      var s := NatToString(n);
      assert s[..|s| - 1] == NatToString(n / 10);
      DigitRoundTrip(n % 10);
    }
  }

  /** `String(i)` for an integer: a minus sign before the magnitude when negative. */
  function IntToString(i: int): (s: string)
  {
    if i < 0 then "-" + NatToString(-i) else NatToString(i)
  }

  /** A minus sign leads exactly the negative numbers. */
  lemma IntToStringSign(i: int)
    ensures |IntToString(i)| >= 1 && (IntToString(i)[0] == '-' <==> i < 0)
  {
    NatToStringDigits(if i < 0 then -i else i);
    if i >= 0 {
      assert IsDigit(NatToString(i)[0]);
    }
  }

  /** Distinct integers are written differently. */
  lemma IntToStringInjective(a: int, b: int)
    requires IntToString(a) == IntToString(b)
    ensures a == b
  {
    IntToStringSign(a);
    IntToStringSign(b);
    var s := IntToString(a);
    NatToStringDigits(if a < 0 then -a else a);
    NatToStringDigits(if b < 0 then -b else b);
    if a < 0 {
      assert NatToString(-a) == s[1..] == NatToString(-b);
    }
  }

  /** `padStart(2, '0')` */
  function PadStart2(s: string): (r: string)
    ensures |s| >= 2 ==> r == s
    ensures |s| < 2 ==> |r| == 2 && r[2 - |s|..] == s
  {
    if |s| == 0 then "00" else if |s| == 1 then "0" + s else s
  }

  // ---------------------------------------------------------------------------
  // Searching

  predicate StartsWith(s: string, p: string)
  {
    |p| <= |s| && s[..|p|] == p
  }

  /** `s.includes(sub)` */
  predicate Contains(s: string, sub: string)
    decreases |s|
  {
    StartsWith(s, sub) || (s != [] && Contains(s[1..], sub))
  }

  // ---------------------------------------------------------------------------
  // trim

  /** The first index at or after `i` that is not a `\s` character. */
  function SkipSpaces(s: string, i: nat): (k: nat)
    requires i <= |s|
    ensures i <= k <= |s|
    decreases |s| - i
  {
    if i < |s| && IsSpace(s[i]) then SkipSpaces(s, i + 1) else i
  }

  /** The end of `s[lo..hi]` once trailing `\s` characters are dropped. */
  function SkipSpacesBack(s: string, lo: nat, hi: nat): (k: nat)
    requires lo <= hi <= |s|
    ensures lo <= k <= hi
    decreases hi
  {
    if lo < hi && IsSpace(s[hi - 1]) then SkipSpacesBack(s, lo, hi - 1) else hi
  }

  lemma {:induction false} SkipSpacesSkips(s: string, i: nat)
    requires i <= |s|
    ensures var k := SkipSpaces(s, i);
            (k == |s| || !IsSpace(s[k])) && forall j :: i <= j < k ==> IsSpace(s[j])
    decreases |s| - i
  {
    if i < |s| && IsSpace(s[i]) {
      SkipSpacesSkips(s, i + 1);
    }
  }

  lemma {:induction false} SkipSpacesBackSkips(s: string, lo: nat, hi: nat)
    requires lo <= hi <= |s|
    ensures var k := SkipSpacesBack(s, lo, hi);
            (k == lo || !IsSpace(s[k - 1])) && forall j :: k <= j < hi ==> IsSpace(s[j])
    decreases hi
  {
    if lo < hi && IsSpace(s[hi - 1]) {
      SkipSpacesBackSkips(s, lo, hi - 1);
    }
  }

  /** `s.trim()`: drops leading and trailing `\s` characters. */
  function Trim(s: string): (r: string)
    ensures |r| <= |s|
  {
    var a := SkipSpaces(s, 0);
    s[a..SkipSpacesBack(s, a, |s|)]
  }

  /** `trim` removes exactly the surrounding `\s` characters: what is left is
      trimmed, and a trimmed string is left as it is. */
  lemma TrimTrims(s: string)
    ensures Trimmed(Trim(s))
    ensures Trimmed(s) ==> Trim(s) == s
    ensures Trim(s) == [] <==> forall j :: 0 <= j < |s| ==> IsSpace(s[j])
  {
    var a := SkipSpaces(s, 0);
    SkipSpacesSkips(s, 0);
    SkipSpacesBackSkips(s, a, |s|);
  }

  // ---------------------------------------------------------------------------
  // split / join on a single separator character

  /** `s.split(c)`: the pieces between occurrences of `c`; always at least one. */
  function Split(s: string, c: char): (r: seq<string>)
    ensures |r| >= 1
  {
    SplitFrom(s, c, 0, 0)
  }

  /** The pieces of `s[start..]`, the current piece having been scanned up to `i`. */
  function SplitFrom(s: string, c: char, start: nat, i: nat): (r: seq<string>)
    requires start <= i <= |s|
    ensures |r| >= 1
    decreases |s| - i
  {
    if i == |s| then [s[start..]]
    else if s[i] == c then [s[start..i]] + SplitFrom(s, c, i + 1, i + 1)
    else SplitFrom(s, c, start, i + 1)
  }

  /** `xs.join(c)` */
  function Join(xs: seq<string>, c: char): (s: string)
  {
    if xs == [] then "" else if |xs| == 1 then xs[0] else xs[0] + [c] + Join(xs[1..], c)
  }

  /** Joining the pieces back with the separator gives the original string. */
  lemma JoinSplit(s: string, c: char)
    ensures Join(Split(s, c), c) == s
  {
    JoinSplitFrom(s, c, 0, 0);
  }

  lemma {:induction false} JoinSplitFrom(s: string, c: char, start: nat, i: nat)
    requires start <= i <= |s|
    ensures Join(SplitFrom(s, c, start, i), c) == s[start..]
    decreases |s| - i
  {
    if i == |s| {
    } else if s[i] == c {
      var rest := SplitFrom(s, c, i + 1, i + 1);
      JoinSplitFrom(s, c, i + 1, i + 1);
      var r := [s[start..i]] + rest;
      assert r[1..] == rest;
      calc {
        Join(r, c);
        s[start..i] + [c] + Join(rest, c);
        s[start..i] + [c] + s[i + 1..];
        { assert s[i] == c; }
        s[start..];
      }
    } else {
      JoinSplitFrom(s, c, start, i + 1);
    }
  }

  /** No piece holds the separator, and a piece holds only characters of the
      split string. */
  lemma SplitPieces(s: string, c: char, d: char)
    ensures forall k :: 0 <= k < |Split(s, c)| ==> c !in Split(s, c)[k] && (d !in s ==> d !in Split(s, c)[k])
  {
    SplitFromPieces(s, c, d, 0, 0);
  }

  lemma {:induction false} SplitFromPieces(s: string, c: char, d: char, start: nat, i: nat)
    requires start <= i <= |s|
    requires forall k :: start <= k < i ==> s[k] != c
    ensures forall k :: 0 <= k < |SplitFrom(s, c, start, i)| ==>
              c !in SplitFrom(s, c, start, i)[k] && (d !in s ==> d !in SplitFrom(s, c, start, i)[k])
    decreases |s| - i
  {
    if i == |s| {
      assert forall j :: 0 <= j < |s[start..]| ==> s[start..][j] == s[start + j];
    } else if s[i] == c {
      assert forall j :: 0 <= j < |s[start..i]| ==> s[start..i][j] == s[start + j];
      SplitFromPieces(s, c, d, i + 1, i + 1);
    } else {
      SplitFromPieces(s, c, d, start, i + 1);
    }
  }

  /** Trimming only removes characters. */
  lemma TrimKeeps(s: string, d: char)
    ensures d !in s ==> d !in Trim(s)
  {
    var a := SkipSpaces(s, 0);
    var b := SkipSpacesBack(s, a, |s|);
    assert forall j :: 0 <= j < |s[a..b]| ==> s[a..b][j] == s[a + j];
  }

  /** Splitting a join of separator-free pieces gives the pieces back. */
  lemma SplitJoin(xs: seq<string>, c: char)
    requires |xs| >= 1
    requires forall i :: 0 <= i < |xs| ==> c !in xs[i]
    ensures Split(Join(xs, c), c) == xs
  {
    SplitFromJoin(Join(xs, c), c, 0, 0, xs);
  }

  lemma {:induction false} SplitFromJoin(s: string, c: char, start: nat, i: nat, xs: seq<string>)
    requires |xs| >= 1
    requires forall k :: 0 <= k < |xs| ==> c !in xs[k]
    requires start <= i <= start + |xs[0]| && start <= |s|
    requires s[start..] == Join(xs, c)
    ensures i <= |s| && SplitFrom(s, c, start, i) == xs
    decreases |s| - i
  {
    if |xs| == 1 {
      if i < |s| {
        assert s[i] == xs[0][i - start];
        SplitFromJoin(s, c, start, i + 1, xs);
      }
    } else {
      var rest := Join(xs[1..], c);
      assert s[start..] == xs[0] + [c] + rest;
      if i == start + |xs[0]| {
        assert s[i] == c;
        assert s[start..i] == xs[0];
        assert s[i + 1..] == rest;
        SplitFromJoin(s, c, i + 1, i + 1, xs[1..]);
        assert xs == [xs[0]] + xs[1..];
      } else {
        assert s[i] == xs[0][i - start];
        SplitFromJoin(s, c, start, i + 1, xs);
      }
    }
  }
}
