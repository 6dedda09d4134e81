/** The Java `String` operations the statement parser relies on, over `seq<char>`. */
module Text {

  type String = seq<char>

  /** Characters that `String.trim` strips from both ends: every code point up to U+0020. */
  predicate IsTrimmable(c: char) { c <= ' ' }

  /** `[0-9]` in a Java regular expression: the ASCII digits only. */
  predicate IsDigit(c: char) { '0' <= c <= '9' }

  /** The two separators the line normaliser rewrites. */
  predicate IsBlank(c: char) { c == ' ' || c == '\t' }

  predicate AllDigits(s: String) { forall i :: 0 <= i < |s| ==> IsDigit(s[i]) }

  /** `String.startsWith` */
  predicate StartsWith(s: String, p: String) { |p| <= |s| && s[..|p|] == p }

  /** `String.endsWith` */
  predicate EndsWith(s: String, p: String) { |p| <= |s| && s[|s| - |p|..] == p }

  /** `s` is not empty and its first character is `c`: `startsWith` of a one-character string. */
  predicate StartsIn(s: String, c: char) { s != [] && s[0] == c }

  /** `s` is not empty and its last character is `c`: `endsWith` of a one-character string. */
  predicate EndsIn(s: String, c: char) { s != [] && s[|s| - 1] == c }

  /** `String.contains`: `p` occurs at some position of `s`. */
  predicate Contains(s: String, p: String)
    decreases |s|
  {
    StartsWith(s, p) || (s != [] && Contains(s[1..], p))
  }

  /** An occurrence at a known position is found by `Contains`. */
  lemma {:induction false} ContainsAt(s: String, p: String, i: nat)
    requires i + |p| <= |s| && s[i..i + |p|] == p
    ensures Contains(s, p)
  {
    if i == 0 {
      assert s[..|p|] == s[i..i + |p|];
    } else {
      assert s[1..][i - 1..i - 1 + |p|] == s[i..i + |p|];
      ContainsAt(s[1..], p, i - 1);
    }
  }

  /** A text shorter than `p` cannot contain it. */
  lemma {:induction false} ContainsNeedsRoom(s: String, p: String)
    requires |s| < |p|
    ensures !Contains(s, p)
    decreases |s|
  {
    if s != [] {
      ContainsNeedsRoom(s[1..], p);
    }
  }

  /** Number of trimmable characters at the start of `s`. */
  function LeadingTrimmable(s: String): (n: nat)
    ensures n <= |s|
    ensures n == |s| || !IsTrimmable(s[n])
    decreases |s|
  {
    if s != [] && IsTrimmable(s[0]) then 1 + LeadingTrimmable(s[1..]) else 0
  }

  /** Number of trimmable characters at the end of `s`. */
  function TrailingTrimmable(s: String): (n: nat)
    ensures n <= |s|
    ensures n == |s| || !IsTrimmable(s[|s| - 1 - n])
    decreases |s|
  {
    if s != [] && IsTrimmable(s[|s| - 1]) then 1 + TrailingTrimmable(s[..|s| - 1]) else 0
  }

  /** Every character `LeadingTrimmable` counts is trimmable. */
  lemma {:induction false} LeadingAllTrimmable(s: String)
    ensures forall i :: 0 <= i < LeadingTrimmable(s) ==> IsTrimmable(s[i])
    decreases |s|
  {
    if s != [] && IsTrimmable(s[0]) {
      LeadingAllTrimmable(s[1..]);
      forall i | 1 <= i < LeadingTrimmable(s) ensures IsTrimmable(s[i]) {
        assert s[i] == s[1..][i - 1];
      }
    }
  }

  /** Every character `TrailingTrimmable` counts is trimmable. */
  lemma {:induction false} TrailingAllTrimmable(s: String)
    ensures forall i :: |s| - TrailingTrimmable(s) <= i < |s| ==> IsTrimmable(s[i])
    decreases |s|
  {
    if s != [] && IsTrimmable(s[|s| - 1]) {
      TrailingAllTrimmable(s[..|s| - 1]);
    }
  }

  /** `String.trim`: drops the longest prefix and suffix made of characters up to U+0020. */
  function Trim(s: String): (r: String)
    ensures |r| <= |s|
    ensures r == [] || (!IsTrimmable(r[0]) && !IsTrimmable(r[|r| - 1]))
    ensures (s == [] || (!IsTrimmable(s[0]) && !IsTrimmable(s[|s| - 1]))) ==> r == s
    ensures s != [] && !IsTrimmable(s[|s| - 1]) ==> r != [] && r[|r| - 1] == s[|s| - 1]
  {
    var start := LeadingTrimmable(s);
    LeadingAllTrimmable(s);
    if start == |s| then []
    else
      TrailingAllTrimmable(s);
      s[start..|s| - TrailingTrimmable(s)]
  }

  /**
   * `trim` returns a slice of the text, and what it cuts off at either end is all
   * characters up to U+0020; with the shape `Trim` ensures, the slice is the largest one.
   */
  lemma TrimSlice(s: String)
    ensures exists a, b :: 0 <= a <= b <= |s| && Trim(s) == s[a..b]
                           && forall k :: 0 <= k < a || b <= k < |s| ==> IsTrimmable(s[k])
  {
    var a := LeadingTrimmable(s);
    LeadingAllTrimmable(s);
    if a == |s| {
      assert Trim(s) == s[a..a];
    } else {
      var b := |s| - TrailingTrimmable(s);
      TrailingAllTrimmable(s);
      assert !IsTrimmable(s[a]);
      assert a < b;
      assert Trim(s) == s[a..b];
    }
  }

  /** Trimming keeps a character out if it was not there. */
  lemma TrimKeepsOut(s: String, c: char)
    requires c !in s
    ensures c !in Trim(s)
  {
    var start := LeadingTrimmable(s);
    if start < |s| {
      TrailingAllTrimmable(s);
      var r := Trim(s);
      assert forall i :: 0 <= i < |r| ==> r[i] == s[start + i];
    }
  }

  /** Trimming is idempotent. */
  lemma TrimTrimmed(s: String)
    ensures Trim(Trim(s)) == Trim(s)
  {
  }

  /** Trimming leaves nothing exactly when every character is trimmable. */
  lemma TrimEmpty(s: String)
    ensures Trim(s) == [] <==> forall i :: 0 <= i < |s| ==> IsTrimmable(s[i])
  {
    LeadingAllTrimmable(s);
    TrailingAllTrimmable(s);
  }


  /** The character for a decimal digit value. */
  function DigitChar(d: nat): (c: char)
    requires d < 10
    ensures IsDigit(c)
  {
    ('0' as int + d) as char
  }

  function DigitValue(c: char): (d: nat)
    requires IsDigit(c)
    ensures d < 10 && DigitChar(d) == c
  {
    c as int - '0' as int
  }

  /** The value of a run of decimal digits, most significant first. */
  function ValueOf(s: String): nat
    requires AllDigits(s)
    decreases |s|
  {
    if s == [] then 0 else ValueOf(s[..|s| - 1]) * 10 + DigitValue(s[|s| - 1])
  }

  lemma ValueOfOne(s: String)
    requires |s| == 1 && AllDigits(s)
    ensures ValueOf(s) == DigitValue(s[0])
  {
    assert s[..0] == [];
  }

  lemma ValueOfTwo(s: String)
    requires |s| == 2 && AllDigits(s)
    ensures ValueOf(s) == DigitValue(s[0]) * 10 + DigitValue(s[1])
  {
    ValueOfOne(s[..1]);
  }

  lemma ValueOfThree(s: String)
    requires |s| == 3 && AllDigits(s)
    ensures ValueOf(s) == DigitValue(s[0]) * 100 + DigitValue(s[1]) * 10 + DigitValue(s[2])
  {
    ValueOfTwo(s[..2]);
  }

  /** Four digits denote the number they spell, most significant first. */
  lemma ValueOfFour(s: String)
    requires |s| == 4 && AllDigits(s)
    ensures ValueOf(s) == DigitValue(s[0]) * 1000 + DigitValue(s[1]) * 100
                          + DigitValue(s[2]) * 10 + DigitValue(s[3])
  {
    ValueOfThree(s[..3]);
  }

  /** `Integer.toString` for a non-negative value: the shortest decimal numeral. */
  function Decimal(n: nat): (r: String)
    ensures |r| >= 1 && AllDigits(r) && ValueOf(r) == n
    ensures |r| == 1 || r[0] != '0'
    decreases n
  {
    if n < 10 then [DigitChar(n)]
    else
      var r := Decimal(n / 10) + [DigitChar(n % 10)];
      assert r[..|r| - 1] == Decimal(n / 10);
      r
  }

  /** Number of occurrences of `c` in `s`. */
  function Count(s: String, c: char): nat
    decreases |s|
  {
    if s == [] then 0 else (if s[0] == c then 1 else 0) + Count(s[1..], c)
  }

  /** `s` with every space and tab removed: the text the whitespace rewrites must leave alone. */
  function NonBlank(s: String): String
    decreases |s|
  {
    if s == [] then [] else (if IsBlank(s[0]) then [] else [s[0]]) + NonBlank(s[1..])
  }

  lemma {:induction false} NonBlankAppend(a: String, b: String)
    ensures NonBlank(a + b) == NonBlank(a) + NonBlank(b)
    decreases |a|
  {
    if a != [] {
      assert (a + b)[1..] == a[1..] + b;
      NonBlankAppend(a[1..], b);
    } else {
      assert a + b == b;
    }
  }

  /** Splitting a sequence at `n` and joining the halves gives it back. */
  lemma TakeDropJoin<T>(s: seq<T>, n: nat)
    requires n <= |s|
    ensures s[..n] + s[n..] == s
  {
  }

  /** A non-empty sequence is its first element followed by the rest. */
  lemma ConsAppend<T>(x: seq<T>, t: seq<T>)
    requires x != []
    ensures (x + t)[0] == x[0] && (x + t)[1..] == x[1..] + t && [x[0]] + (x[1..] + t) == x + t
  {
  }

  lemma HeadTail<T>(s: seq<T>)
    requires s != []
    ensures [s[0]] + s[1..] == s
  {
  }

  /** The prefix before `i` is the prefix before `i - 1` and one more element. */
  lemma PrefixSnoc<T>(s: seq<T>, i: nat)
    requires 0 < i <= |s|
    ensures s[..i] == s[..i - 1] + [s[i - 1]]
  {
  }

  /** Dropping `a` elements and then `b` more drops `a + b`. */
  lemma DropDrop<T>(s: seq<T>, a: nat, b: nat)
    requires a + b <= |s|
    ensures s[a..][b..] == s[a + b..]
  {
  }
}
