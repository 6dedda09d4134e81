/**
 * The four fixed patterns and the literal targets the statement parser rewrites with, and
 * the left-to-right scan shared by `String.replace`, `String.replaceAll` and
 * `String.replaceFirst`: at each position the pattern is tried; on a match the replacement
 * is emitted and scanning resumes after the match, otherwise the character is copied.
 * None of the patterns can match the empty string, so the scan always makes progress.
 */
module Rewrite {
  import opened Text

  datatype Pattern =
    | Literal(text: String)  // a plain target, as in `String.replace` and `replaceFirst(" ", ...)`
    | DayMonth               // [0-9]{2}\.[0-9]{2}\.
    | RefCode                // PN:[0-9]{3}
    | Amount                 // ([0-9]{1,3}\.)?[0-9]{1,3},[0-9]{2}

  /** What a match is turned into: a fixed text, or the match with a text after or before it. */
  datatype Replacement =
    | With(text: String)     // "\t", ""
    | Append(suffix: String) // "$1" + year
    | Prepend(prefix: String) // "-$1"

  function Apply(r: Replacement, m: String): String
  {
    match r
    case With(t) => t
    case Append(t) => m + t
    case Prepend(t) => t + m
  }

  /** `s[i..i + k]` are `k` digits. */
  predicate DigitsAt(s: String, i: nat, k: nat)
  {
    i + k <= |s| && forall j :: i <= j < i + k ==> IsDigit(s[j])
  }

  /** `k` digits at `i`, then the character `c`. */
  predicate DigitsThen(s: String, i: nat, k: nat, c: char)
  {
    DigitsAt(s, i, k) && i + k < |s| && s[i + k] == c
  }

  /**
   * Length of `[0-9]{1,3},[0-9]{2}` at `i`, 0 when it does not match. The greedy
   * quantifier tries three digits first, then two, then one.
   */
  function AmountTailLen(s: String, i: nat): (n: nat)
    ensures n == 0 || (4 <= n <= 6 && i + n <= |s| && IsDigit(s[i + n - 1]))
  {
    if DigitsThen(s, i, 3, ',') && DigitsAt(s, i + 4, 2) then 6
    else if DigitsThen(s, i, 2, ',') && DigitsAt(s, i + 3, 2) then 5
    else if DigitsThen(s, i, 1, ',') && DigitsAt(s, i + 2, 2) then 4
    else 0
  }

  /** `m` is exactly `[0-9]{1,3},[0-9]{2}`. */
  predicate IsAmountTail(m: String)
  {
    exists k :: 1 <= k <= 3 && |m| == k + 3 && DigitsThen(m, 0, k, ',') && DigitsAt(m, k + 1, 2)
  }

  /** `m` is exactly `([0-9]{1,3}\.)?[0-9]{1,3},[0-9]{2}`. */
  predicate IsAmountText(m: String)
  {
    IsAmountTail(m) || exists j :: 1 <= j <= 3 && j + 1 <= |m| && DigitsThen(m, 0, j, '.') && IsAmountTail(m[j + 1..])
  }

  /** Digits ended by a non-digit fix their own count and the character that ends them. */
  lemma DigitsThenUnique(s: String, i: nat, j: nat, k: nat, c: char, d: char)
    requires !IsDigit(c) && !IsDigit(d)
    requires DigitsThen(s, i, j, c) && DigitsThen(s, i, k, d)
    ensures j == k && c == d
  {
  }

  /** `AmountTailLen` finds the one slice at `i` that is exactly an amount tail. */
  lemma AmountTailMatches(s: String, i: nat)
    ensures AmountTailLen(s, i) > 0 ==> IsAmountTail(s[i..i + AmountTailLen(s, i)])
    ensures forall q :: i < q <= |s| && IsAmountTail(s[i..q]) ==> q == i + AmountTailLen(s, i)
  {
    var n := AmountTailLen(s, i);
    if n > 0 {
      var m := s[i..i + n];
      assert DigitsThen(m, 0, n - 3, ',') && DigitsAt(m, n - 2, 2);
    }
    forall q | i < q <= |s| && IsAmountTail(s[i..q])
      ensures q == i + n
    {
      var m := s[i..q];
      var k :| 1 <= k <= 3 && |m| == k + 3 && DigitsThen(m, 0, k, ',') && DigitsAt(m, k + 1, 2);
      assert DigitsThen(s, i, k, ',') && DigitsAt(s, i + k + 1, 2);
      if k < 3 {
        assert !DigitsThen(s, i, 3, ',');
      }
      if k < 2 {
        assert !DigitsThen(s, i, 2, ',');
      }
    }
  }

  /**
   * When `s` opens with `j` digits and a period, an amount prefix of `s` takes them as its
   * optional group, and `AmountTailLen` after them finds the one such prefix.
   */
  lemma AmountGroupMatches(s: String, j: nat)
    requires 1 <= j <= 3
    ensures DigitsThen(s, 0, j, '.') && AmountTailLen(s, j + 1) > 0 ==>
      IsAmountText(s[..j + 1 + AmountTailLen(s, j + 1)])
    ensures DigitsThen(s, 0, j, '.') ==> forall q :: 0 < q <= |s| && IsAmountText(s[..q]) ==>
      AmountTailLen(s, j + 1) > 0 && q == j + 1 + AmountTailLen(s, j + 1)
  {
    if DigitsThen(s, 0, j, '.') {
      var t := AmountTailLen(s, j + 1);
      AmountTailMatches(s, j + 1);
      if t > 0 {
        var m := s[..j + 1 + t];
        assert m[j + 1..] == s[j + 1..j + 1 + t];
        assert DigitsThen(m, 0, j, '.');
      }
      forall q | 0 < q <= |s| && IsAmountText(s[..q])
        ensures t > 0 && q == j + 1 + t
      {
        GroupThenTail(s, j, q);
      }
    }
  }

  /** An amount prefix of `s` after `j` digits and a period is those and a bare tail. */
  lemma GroupThenTail(s: String, j: nat, q: nat)
    requires 1 <= j <= 3 && DigitsThen(s, 0, j, '.')
    requires 0 < q <= |s| && IsAmountText(s[..q])
    ensures j + 1 < q && IsAmountTail(s[j + 1..q])
  {
    var m := s[..q];
    if IsAmountTail(m) {
      var k :| 1 <= k <= 3 && |m| == k + 3 && DigitsThen(m, 0, k, ',') && DigitsAt(m, k + 1, 2);
      assert DigitsThen(s, 0, k, ',');
      DigitsThenUnique(s, 0, j, k, '.', ',');
    } else {
      var g :| 1 <= g <= 3 && g + 1 <= |m| && DigitsThen(m, 0, g, '.') && IsAmountTail(m[g + 1..]);
      assert DigitsThen(s, 0, g, '.');
      DigitsThenUnique(s, 0, j, g, '.', '.');
      assert m[j + 1..] == s[j + 1..q];
    }
  }

  /** Without a leading group of digits and a period, an amount prefix of `s` is a bare tail. */
  lemma AmountWithoutGroup(s: String)
    ensures !DigitsThen(s, 0, 1, '.') && !DigitsThen(s, 0, 2, '.') && !DigitsThen(s, 0, 3, '.') ==>
      forall q :: 0 < q <= |s| && IsAmountText(s[..q]) ==> IsAmountTail(s[0..q])
  {
    forall q | 0 < q <= |s| && IsAmountText(s[..q]) && !IsAmountTail(s[..q])
      ensures DigitsThen(s, 0, 1, '.') || DigitsThen(s, 0, 2, '.') || DigitsThen(s, 0, 3, '.')
    {
      var m := s[..q];
      var g :| 1 <= g <= 3 && g + 1 <= |m| && DigitsThen(m, 0, g, '.') && IsAmountTail(m[g + 1..]);
      assert DigitsThen(s, 0, g, '.');
    }
    assert forall q :: 0 < q <= |s| ==> s[0..q] == s[..q];
  }

  /**
   * Length of `([0-9]{1,3}\.)?[0-9]{1,3},[0-9]{2}` at the start of `s`, 0 when it does not
   * match: the optional group is tried first (three, two, then one digits before the
   * period), and only when no choice of it lets the rest match is it left out. The
   * prefix it measures is an amount, and no other prefix of `s` is one.
   */
  function AmountLen(s: String): (n: nat)
    ensures n <= 10 && n <= |s|
    ensures n > 0 ==> IsAmountText(s[..n])
    ensures forall q :: 0 < q <= |s| && IsAmountText(s[..q]) ==> q == n
  {
    AmountTailMatches(s, 0);
    AmountGroupMatches(s, 1);
    AmountGroupMatches(s, 2);
    AmountGroupMatches(s, 3);
    AmountWithoutGroup(s);
    if DigitsThen(s, 0, 3, '.') && AmountTailLen(s, 4) > 0 then 4 + AmountTailLen(s, 4)
    else if DigitsThen(s, 0, 2, '.') && AmountTailLen(s, 3) > 0 then 3 + AmountTailLen(s, 3)
    else if DigitsThen(s, 0, 1, '.') && AmountTailLen(s, 2) > 0 then 2 + AmountTailLen(s, 2)
    else AmountTailLen(s, 0)
  }

  /** The last character of a match of `p` may be `c`. */
  predicate CanEndWith(p: Pattern, c: char)
  {
    match p
    case Literal(t) => t != [] && t[|t| - 1] == c
    case DayMonth => c == '.'
    case RefCode => IsDigit(c)
    case Amount => IsDigit(c)
  }

  /** Length of the match of `p` at the start of `s`; 0 when `p` does not match there. */
  function MatchLen(p: Pattern, s: String): (n: nat)
    ensures n <= |s|
    ensures n > 0 ==> CanEndWith(p, s[n - 1])
  {
    match p
    case Literal(t) => if t != [] && StartsWith(s, t) then |t| else 0
    case DayMonth =>
      if DigitsThen(s, 0, 2, '.') && DigitsThen(s, 3, 2, '.') then 6 else 0
    case RefCode =>
      if StartsWith(s, "PN:") && DigitsAt(s, 3, 3) then 6 else 0
    case Amount => AmountLen(s)
  }

  /**
   * `replaceAll` (and `String.replace` for a literal): every match, taken left to right
   * without overlap, is replaced.
   */
  function ReplaceAll(s: String, p: Pattern, r: Replacement): String
    decreases |s|
  {
    if s == [] then []
    else
      var n := MatchLen(p, s);
      if n > 0 then Apply(r, s[..n]) + ReplaceAll(s[n..], p, r)
      else [s[0]] + ReplaceAll(s[1..], p, r)
  }

  /** `replaceFirst`: only the leftmost match is replaced. */
  function ReplaceFirst(s: String, p: Pattern, r: Replacement): String
    decreases |s|
  {
    if s == [] then []
    else
      var n := MatchLen(p, s);
      if n > 0 then Apply(r, s[..n]) + s[n..]
      else [s[0]] + ReplaceFirst(s[1..], p, r)
  }

  /** One step of the scan: a copied character or a whole match. */
  datatype Token = Keep(c: char) | Hit(text: String)

  function TokenText(t: Token): String
  {
    match t
    case Keep(c) => [c]
    case Hit(m) => m
  }

  function Flatten(ts: seq<Token>): String
  {
    if ts == [] then [] else TokenText(ts[0]) + Flatten(ts[1..])
  }

  /** The text a token sequence stands for after the replacement. */
  function Render(ts: seq<Token>, r: Replacement): String
  {
    if ts == [] then []
    else (match ts[0] case Keep(c) => [c] case Hit(m) => Apply(r, m)) + Render(ts[1..], r)
  }

  /**
   * Token `k` is what the scan must produce where it stands: a match of `p` exactly when
   * `p` matches at the remaining text, and then the whole match.
   */
  predicate Decided(p: Pattern, ts: seq<Token>, k: nat)
    requires k < |ts|
  {
    var n := MatchLen(p, Flatten(ts[k..]));
    match ts[k]
    case Keep(_) => n == 0
    case Hit(m) => n > 0 && |m| == n
  }

  /** Flattening a token sequence spells its first token, then the rest. */
  lemma FlattenCons(t: Token, ts: seq<Token>)
    ensures Flatten([t] + ts) == TokenText(t) + Flatten(ts)
  {
    assert ([t] + ts)[1..] == ts;
  }

  lemma ShiftDecided(p: Pattern, t: Token, ts: seq<Token>)
    requires forall k :: 0 <= k < |ts| ==> Decided(p, ts, k)
    ensures forall k :: 1 <= k < |[t] + ts| ==> Decided(p, [t] + ts, k)
  {
    forall k | 1 <= k < |[t] + ts|
      ensures Decided(p, [t] + ts, k)
    {
      assert ([t] + ts)[k..] == ts[k - 1..];
      assert Decided(p, ts, k - 1);
    }
  }

  /**
   * The left-to-right, non-overlapping segmentation of `s` by `p`: it covers `s` exactly,
   * and every token is the match, or the absence of one, at its own position.
   */
  function Scan(p: Pattern, s: String): (ts: seq<Token>)
    ensures Flatten(ts) == s
    ensures forall k :: 0 <= k < |ts| ==> Decided(p, ts, k)
    decreases |s|
  {
    if s == [] then []
    else
      var n := MatchLen(p, s);
      var t := if n > 0 then Hit(s[..n]) else Keep(s[0]);
      var rest := Scan(p, s[TokenLen(t)..]);
      assert TokenText(t) == s[..TokenLen(t)];
      TakeDropJoin(s, TokenLen(t));
      FlattenCons(t, rest);
      ShiftDecided(p, t, rest);
      assert ([t] + rest)[0..] == [t] + rest;
      [t] + rest
  }

  function TokenLen(t: Token): nat
  {
    match t
    case Keep(_) => 1
    case Hit(m) => |m|
  }

  /** `replaceAll` renders the scan: each match is replaced and every other character copied. */
  lemma {:induction false} ReplaceAllRendersScan(s: String, p: Pattern, r: Replacement)
    ensures ReplaceAll(s, p, r) == Render(Scan(p, s), r)
    decreases |s|
  {
    if s != [] {
      var n := MatchLen(p, s);
      if n > 0 {
        ReplaceAllRendersScan(s[n..], p, r);
      } else {
        ReplaceAllRendersScan(s[1..], p, r);
      }
    }
  }

  /** No match at the start: the first character is copied and the rest rewritten. */
  lemma KeepFirst(s: String, p: Pattern, r: Replacement, rest: String)
    requires s != [] && MatchLen(p, s) == 0 && ReplaceAll(s[1..], p, r) == rest
    ensures ReplaceAll(s, p, r) == [s[0]] + rest
  {
  }

  /** A match at the start: it is replaced and the rest rewritten. */
  lemma ReplaceAllAtMatch(s: String, p: Pattern, r: Replacement, rest: String)
    requires MatchLen(p, s) > 0 && ReplaceAll(s[MatchLen(p, s)..], p, r) == rest
    ensures ReplaceAll(s, p, r) == Apply(r, s[..MatchLen(p, s)]) + rest
  {
  }

  /** A pattern that matches nowhere leaves the text unchanged. */
  lemma {:induction false} NoMatchNoChange(s: String, p: Pattern, r: Replacement)
    requires forall k :: 0 <= k <= |s| ==> MatchLen(p, s[k..]) == 0
    ensures ReplaceAll(s, p, r) == s
    decreases |s|
  {
    if s != [] {
      assert s[0..] == s;
      forall k | 0 <= k <= |s[1..]| ensures MatchLen(p, s[1..][k..]) == 0 {
        assert s[1..][k..] == s[k + 1..];
      }
      NoMatchNoChange(s[1..], p, r);
    }
  }

  /**
   * A text ending in `c` still ends in `c` after the rewrite when no match of `p` can end
   * in `c`: the last character is never part of a match, so it is copied.
   */
  lemma {:induction false} ReplaceAllKeepsLast(s: String, p: Pattern, r: Replacement, c: char)
    requires EndsIn(s, c) && !CanEndWith(p, c)
    ensures EndsIn(ReplaceAll(s, p, r), c)
    decreases |s|
  {
    var n := MatchLen(p, s);
    if n > 0 {
      assert n < |s|;
      ReplaceAllKeepsLast(s[n..], p, r, c);
    } else if |s| > 1 {
      ReplaceAllKeepsLast(s[1..], p, r, c);
    }
  }

  /** The same for `replaceFirst`. */
  lemma {:induction false} ReplaceFirstKeepsLast(s: String, p: Pattern, r: Replacement, c: char)
    requires EndsIn(s, c) && !CanEndWith(p, c)
    ensures EndsIn(ReplaceFirst(s, p, r), c)
    decreases |s|
  {
    var n := MatchLen(p, s);
    if n > 0 {
      assert n < |s|;
    } else if |s| > 1 {
      ReplaceFirstKeepsLast(s[1..], p, r, c);
    }
  }
}
