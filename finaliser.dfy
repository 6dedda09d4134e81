/**
 * The end of `StatementParser.main` (StatementParser.java, lines 69-101): the records of
 * every document, in file order, become output rows. A row drops the marker and the
 * reference codes from the record's value, signs the amounts of a debit, and appends the
 * key; it is printed and added to its marker's list.
 */
module RowFinaliser {
  import opened Text
  import opened Rewrite
  import opened LineNormaliser
  import opened CashLineExtractor

  /** Line 82: the header printed before the rows. */
  const Header: String := "date1\tdate2\ttype\tamount\tname\tinfo"

  /** Line 90: every `" " + marker` removed, then every `PN:ddd`, then trimmed. */
  function Cleaned(value: String, m: char): String
  {
    Trim(ReplaceAll(ReplaceAll(value, Literal([' ', m]), With([])), RefCode, With([])))
  }

  /** Line 92: a `-` put in front of every amount match. */
  function SignAmounts(s: String): String
  {
    ReplaceAll(s, Amount, Prepend("-"))
  }

  /** Lines 90-93: the text of a row; only a debit row gets the sign pass. */
  function RowText(value: String, m: char): String
  {
    if m == 'S' then SignAmounts(Cleaned(value, m)) else Cleaned(value, m)
  }

  /** Line 89: the record belongs to the marker's list. */
  predicate HasMarker(r: Record, m: char)
  {
    EndsWith(r.value, [m])
  }

  /** Line 94: the printed row. */
  function OutputLine(r: Record, m: char): String
  {
    RowText(r.value, m) + Tab + r.key
  }

  /** Lines 88-101 for one record: the rows it prints, credit marker first. */
  function OutputLinesOf(r: Record): seq<String>
  {
    (if HasMarker(r, 'H') then [OutputLine(r, 'H')] else [])
    + (if HasMarker(r, 'S') then [OutputLine(r, 'S')] else [])
  }

  /** The rows printed for `rs`, in record order. */
  function OutputLines(rs: seq<Record>): seq<String>
  {
    if rs == [] then [] else OutputLines(rs[..|rs| - 1]) + OutputLinesOf(rs[|rs| - 1])
  }

  /** The entry record `r` adds to the list of marker `m`, if it has that marker. */
  function EntryOf(r: Record, m: char): seq<Record>
  {
    if HasMarker(r, m) then [Record(r.key, RowText(r.value, m))] else []
  }

  /** Line 99: the entries added to the list of marker `m`, in record order. */
  function Entries(rs: seq<Record>, m: char): seq<Record>
  {
    if rs == [] then [] else Entries(rs[..|rs| - 1], m) + EntryOf(rs[|rs| - 1], m)
  }

  /** The loop invariant of lines 87-101: the first `i` records are printed and filed. */
  predicate Finalised(records: seq<Record>, i: nat, printed: seq<String>, credits: seq<Record>, debits: seq<Record>)
  {
    i <= |records| && printed == [Header] + OutputLines(records[..i])
    && credits == Entries(records[..i], 'H') && debits == Entries(records[..i], 'S')
  }

  /** Lines 88-100: record `i` adds its rows and its entries after those of the records before it. */
  lemma RowTurn(records: seq<Record>, i: nat, printed: seq<String>, credits: seq<Record>, debits: seq<Record>,
                printed': seq<String>, credits': seq<Record>, debits': seq<Record>)
    requires i < |records| && Finalised(records, i, printed, credits, debits)
    requires printed' == printed + OutputLinesOf(records[i])
    requires credits' == credits + EntryOf(records[i], 'H') && debits' == debits + EntryOf(records[i], 'S')
    ensures Finalised(records, i + 1, printed', credits', debits')
  {
    var done := records[..i + 1];
    assert done[..i] == records[..i] && done[i] == records[i];
    assert OutputLines(done) == OutputLines(records[..i]) + OutputLinesOf(records[i]);
  }

  /**
   * Lines 88-100: the rows record `line` prints and the entries it adds to the credit and
   * debit lists; a value ending in neither marker prints nothing.
   */
  method FinaliseRow(line: Record) returns (rows: seq<String>, credit: seq<Record>, debit: seq<Record>)
    ensures rows == OutputLinesOf(line)
    ensures credit == EntryOf(line, 'H') && debit == EntryOf(line, 'S')
  {
    rows, credit, debit := [], [], [];
    if EndsWith(line.value, "H") {
      var l := Trim(ReplaceAll(ReplaceAll(line.value, Literal(" H"), With([])), RefCode, With([])));
      assert l == RowText(line.value, 'H');
      rows := [l + Tab + line.key];
      credit := [Record(line.key, l)];
    }
    if EndsWith(line.value, "S") {
      var l := Trim(ReplaceAll(ReplaceAll(line.value, Literal(" S"), With([])), RefCode, With([])));
      l := SignAmounts(l);
      assert l == RowText(line.value, 'S');
      rows := rows + [l + Tab + line.key];
      debit := [Record(line.key, l)];
    }
  }

  /**
   * Lines 82-101: the header, then one row per record and marker; `credits` and `debits`
   * are the lists kept for `H` and `S`.
   */
  method Finalise(records: seq<Record>) returns (printed: seq<String>, credits: seq<Record>, debits: seq<Record>)
    ensures printed == [Header] + OutputLines(records)
    ensures credits == Entries(records, 'H') && debits == Entries(records, 'S')
  {
    printed := [Header];
    credits := [];
    debits := [];
    var i := 0;
    while i < |records|
      invariant Finalised(records, i, printed, credits, debits)
    {
      var rows, credit, debit := FinaliseRow(records[i]);
      RowTurn(records, i, printed, credits, debits, printed + rows, credits + credit, debits + debit);
      printed, credits, debits := printed + rows, credits + credit, debits + debit;
      i := i + 1;
    }
    assert records[..i] == records;
  }

  /** The marker a record's value ends in, if it is `H` or `S`. */
  predicate Marked(r: Record)
  {
    EndsIn(r.value, 'H') || EndsIn(r.value, 'S')
  }

  function MarkerOf(r: Record): char
    requires Marked(r)
  {
    r.value[|r.value| - 1]
  }

  /** A record ending in a marker prints exactly one row, under that marker. */
  lemma OneLinePerMarkedRecord(r: Record)
    requires Marked(r)
    ensures OutputLinesOf(r) == [OutputLine(r, MarkerOf(r))]
  {
    assert HasMarker(r, 'H') <==> MarkerOf(r) == 'H';
    assert HasMarker(r, 'S') <==> MarkerOf(r) == 'S';
  }

  /** Lines 87-101: when every record ends in a marker, each record prints one row. */
  lemma {:induction false} RowCount(rs: seq<Record>)
    requires forall r :: r in rs ==> Marked(r)
    ensures |OutputLines(rs)| == |rs|
  {
    if rs != [] {
      var init := rs[..|rs| - 1];
      assert forall r :: r in init ==> r in rs;
      RowCount(init);
      OneLinePerMarkedRecord(rs[|rs| - 1]);
    }
  }

  /** Lines 87-101: row `k` is record `k` under its own marker. */
  lemma {:induction false} RowAt(rs: seq<Record>, k: nat)
    requires forall r :: r in rs ==> Marked(r)
    requires k < |rs|
    ensures k < |OutputLines(rs)| && OutputLines(rs)[k] == OutputLine(rs[k], MarkerOf(rs[k]))
  {
    var init, last := rs[..|rs| - 1], rs[|rs| - 1];
    assert forall r :: r in init ==> r in rs;
    RowCount(init);
    OneLinePerMarkedRecord(last);
    assert OutputLines(rs) == OutputLines(init) + OutputLinesOf(last);
    if k < |init| {
      RowAt(init, k);
    } else {
      assert k == |init|;
    }
  }

  /**
   * Lines 87-101: when every record ends in a marker, row `k` is record `k` under its own
   * marker; the rows keep the record order, credits and debits interleaved.
   */
  lemma RowsFollowRecords(rs: seq<Record>)
    requires forall r :: r in rs ==> Marked(r)
    ensures |OutputLines(rs)| == |rs|
    ensures forall k :: 0 <= k < |rs| ==> OutputLines(rs)[k] == OutputLine(rs[k], MarkerOf(rs[k]))
  {
    RowCount(rs);
    forall k | 0 <= k < |rs| ensures OutputLines(rs)[k] == OutputLine(rs[k], MarkerOf(rs[k])) {
      RowAt(rs, k);
    }
  }

  /** Every marked record lands in exactly one of the two lists. */
  lemma {:induction false} EntriesPartition(rs: seq<Record>)
    requires forall r :: r in rs ==> Marked(r)
    ensures |Entries(rs, 'H')| + |Entries(rs, 'S')| == |rs|
  {
    if rs != [] {
      var init := rs[..|rs| - 1];
      assert forall r :: r in init ==> r in rs;
      EntriesPartition(init);
      OneLinePerMarkedRecord(rs[|rs| - 1]);
    }
  }

  /** Line 99 keeps the record order: the entries of `a + b` are those of `a`, then those of `b`. */
  lemma {:induction false} EntriesAppend(a: seq<Record>, b: seq<Record>, m: char)
    ensures Entries(a + b, m) == Entries(a, m) + Entries(b, m)
    decreases |b|
  {
    if b == [] {
      assert a + b == a;
    } else {
      var init := b[..|b| - 1];
      assert (a + b)[..|a + b| - 1] == a + init;
      EntriesAppend(a, init, m);
    }
  }

  /**
   * Line 99: an entry of the list of marker `m` is a record carrying `m`, with its key and
   * the row text, and every record carrying `m` adds one.
   */
  lemma {:induction false} EntriesMembers(rs: seq<Record>, m: char)
    ensures forall e :: e in Entries(rs, m) ==>
      exists r :: r in rs && HasMarker(r, m) && e == Record(r.key, RowText(r.value, m))
    ensures forall r :: r in rs && HasMarker(r, m) ==> Record(r.key, RowText(r.value, m)) in Entries(rs, m)
  {
    if rs != [] {
      var init, last := rs[..|rs| - 1], rs[|rs| - 1];
      EntriesMembers(init, m);
      assert rs == init + [last];
      assert forall r :: r in init ==> r in rs;
    }
  }

  /**
   * Line 90: the trailing `" " + m` of a value is removed with the rest, and it does not
   * change how the text before it is rewritten.
   */
  lemma {:induction false} TrailingMarkerRemoved(s: String, m: char)
    requires m != ' '
    ensures ReplaceAll(s + [' ', m], Literal([' ', m]), With([])) == ReplaceAll(s, Literal([' ', m]), With([]))
    decreases |s|
  {
    var p := Literal([' ', m]);
    var t := s + [' ', m];
    if s == [] {
      assert MatchLen(p, t) == 2;
      assert t[2..] == [];
    } else if |s| == 1 {
      assert t[..2] == [s[0], ' '];
      assert MatchLen(p, t) == 0;
      assert t[1..] == [' ', m];
      TrailingMarkerRemoved([], m);
      assert [] + [' ', m] == [' ', m];
    } else {
      assert t[..2] == s[..2];
      assert MatchLen(p, t) == MatchLen(p, s);
      var n := MatchLen(p, s);
      if n > 0 {
        assert t[n..] == s[n..] + [' ', m];
        assert t[..n] == s[..n];
        TrailingMarkerRemoved(s[n..], m);
      } else {
        assert t[1..] == s[1..] + [' ', m];
        TrailingMarkerRemoved(s[1..], m);
      }
    }
  }

  /**
   * Line 90 as written: the marker pass runs before the reference codes are removed, so a
   * code standing between a space and the marker leaves `" H"` in the row text. The value is
   * the one lines 196-208 make of the line `a b c PN:123H`.
   */
  lemma MarkerRemovalCanLeaveMarker()
    ensures Normalised("a b c PN:123H", 2020) == "a\tb\tc PN:123H"
    ensures Cleaned("a\tb\tc PN:123H", 'H') == "a\tb\tc H"
  {
    ReferenceLineNormalised(2020);
    NoMarkerPair("a\tb\tc PN:123H");
    CodeBeforeMarkerRemoved("a\tb\tc PN:123H");
    MarkerLeftTrimmed("a\tb\tc H");
  }

  lemma NoMarkerPair(v: String)
    requires v == "a\tb\tc PN:123H"
    ensures ReplaceAll(v, Literal([' ', 'H']), With([])) == v
  {
    NoPairNoContains(v, ' ', 'H');
    AbsentLiteralNoChange(v, [' ', 'H'], With([]));
  }

  lemma CodeBeforeMarkerRemoved(v: String)
    requires v == "a\tb\tc PN:123H"
    ensures ReplaceAll(v, RefCode, With([])) == "a\tb\tc H"
  {
    var x, t := "a\tb\tc ", "PN:123H";
    assert x + t == v;
    CodeThenMarker(t);
    RefCodeSkipsPrefix(x, t, With([]));
    assert x + "H" == "a\tb\tc H";
  }

  lemma CodeThenMarker(t: String)
    requires t == "PN:123H"
    ensures ReplaceAll(t, RefCode, With([])) == "H"
  {
    assert t[..3] == "PN:" && DigitsAt(t, 3, 3) && MatchLen(RefCode, t) == 6 && t[6..] == "H";
    NoRefCode("H");
    ReplaceAllAtMatch(t, RefCode, With([]), "H");
  }

  lemma MarkerLeftTrimmed(s: String)
    requires s == "a\tb\tc H"
    ensures Trim(s) == s
  {
    assert !IsTrimmable(s[0]) && !IsTrimmable(s[|s| - 1]);
  }

  /** The first character of a text is not the start of a reference code unless it is `P`. */
  lemma NoRefCodeHere(s: String)
    requires s != [] && s[0] != 'P'
    ensures MatchLen(RefCode, s) == 0
  {
    if |s| >= 3 {
      assert s[..3][0] == s[0];
    }
  }

  /** Characters before the first `P` are never part of a reference code. */
  lemma {:induction false} RefCodeSkipsPrefix(x: String, t: String, r: Replacement)
    requires forall i :: 0 <= i < |x| ==> x[i] != 'P'
    ensures ReplaceAll(x + t, RefCode, r) == x + ReplaceAll(t, RefCode, r)
    decreases |x|
  {
    if x == [] {
      assert x + t == t;
    } else {
      var rest := ReplaceAll(t, RefCode, r);
      RefCodeSkipsPrefix(x[1..], t, r);
      ConsAppend(x, t);
      ConsAppend(x, rest);
      NoRefCodeHere(x + t);
      KeepFirst(x + t, RefCode, r, x[1..] + rest);
    }
  }

  /** Line 90 as written: removing `PN:ddd` once can join the pieces into a new one. */
  lemma RefCodeRemovalCanLeaveRefCode()
    ensures ReplaceAll("PPN:123N:456", RefCode, With([])) == "PN:456"
  {
    var s := "PPN:123N:456";
    assert s[..3] == "PPN";
    assert MatchLen(RefCode, s) == 0;
    assert s[1..] == "PN:123N:456";
    RefCodeRemovedOnce();
    KeepFirst(s, RefCode, With([]), "N:456");
    PrefixP();
  }

  lemma PrefixP()
    ensures ['P'] + "N:456" == "PN:456"
  {
  }

  lemma RefCodeRemovedOnce()
    ensures ReplaceAll("PN:123N:456", RefCode, With([])) == "N:456"
  {
    var t := "PN:123N:456";
    assert t[..3] == "PN:";
    assert DigitsAt(t, 3, 3);
    assert MatchLen(RefCode, t) == 6;
    assert t[6..] == "N:456";
    NoRefCode("N:456");
  }

  /** A text with no `P` holds no reference code. */
  lemma {:induction false} NoRefCode(s: String)
    requires 'P' !in s
    ensures ReplaceAll(s, RefCode, With([])) == s
    decreases |s|
  {
    if s != [] {
      assert s[0] != 'P';
      assert MatchLen(RefCode, s) == 0;
      assert forall c :: c in s[1..] ==> c in s;
      NoRefCode(s[1..]);
    }
  }

  /** `s` with every `c` removed. */
  function Without(s: String, c: char): String
  {
    if s == [] then [] else (if s[0] == c then [] else [s[0]]) + Without(s[1..], c)
  }

  lemma {:induction false} WithoutAppend(a: String, b: String, c: char)
    ensures Without(a + b, c) == Without(a, c) + Without(b, c)
    decreases |a|
  {
    if a == [] {
      assert a + b == b;
    } else {
      assert (a + b)[1..] == a[1..] + b;
      WithoutAppend(a[1..], b, c);
    }
  }

  lemma {:induction false} CountAppend(a: String, b: String, c: char)
    ensures Count(a + b, c) == Count(a, c) + Count(b, c)
    decreases |a|
  {
    if a == [] {
      assert a + b == b;
    } else {
      assert (a + b)[1..] == a[1..] + b;
      CountAppend(a[1..], b, c);
    }
  }

  /** Number of matches in a scan. */
  function Hits(ts: seq<Token>): nat
  {
    if ts == [] then 0 else (if ts[0].Hit? then 1 else 0) + Hits(ts[1..])
  }

  /**
   * Line 92: the sign pass only inserts `-` characters; with them taken out, the text is
   * the one it started from.
   */
  lemma {:induction false} SignPassOnlyInserts(s: String)
    ensures Without(SignAmounts(s), '-') == Without(s, '-')
    decreases |s|
  {
    if s != [] {
      var n := MatchLen(Amount, s);
      if n > 0 {
        SignPassOnlyInserts(s[n..]);
        WithoutAppend("-" + s[..n], ReplaceAll(s[n..], Amount, Prepend("-")), '-');
        WithoutAppend("-", s[..n], '-');
        WithoutAppend(s[..n], s[n..], '-');
        TakeDropJoin(s, n);
      } else {
        SignPassOnlyInserts(s[1..]);
        WithoutAppend([s[0]], ReplaceAll(s[1..], Amount, Prepend("-")), '-');
        WithoutAppend([s[0]], s[1..], '-');
        HeadTail(s);
      }
    }
  }

  /** Rendering with a `-` prefix adds one `-` per match of the scan. */
  lemma {:induction false} RenderAddsOnePerHit(ts: seq<Token>)
    ensures Count(Render(ts, Prepend("-")), '-') == Count(Flatten(ts), '-') + Hits(ts)
  {
    if ts != [] {
      RenderAddsOnePerHit(ts[1..]);
      var head := match ts[0] case Keep(c) => [c] case Hit(m) => Apply(Prepend("-"), m);
      CountAppend(head, Render(ts[1..], Prepend("-")), '-');
      CountAppend(TokenText(ts[0]), Flatten(ts[1..]), '-');
      if ts[0].Hit? {
        CountAppend("-", ts[0].text, '-');
      }
    }
  }

  /**
   * Line 92: the sign pass puts exactly one `-` in front of each left-to-right amount
   * match, so the text gains one `-` per match.
   */
  lemma SignPassOnePerAmount(s: String)
    ensures Count(SignAmounts(s), '-') == Count(s, '-') + Hits(Scan(Amount, s))
  {
    ReplaceAllRendersScan(s, Amount, Prepend("-"));
    RenderAddsOnePerHit(Scan(Amount, s));
  }

  /** Line 92 as written: an amount that already has a `-` gets a second one. */
  lemma SignPassDoublesMinus()
    ensures SignAmounts("-1,00") == "--1,00"
  {
    var s := "-1,00";
    assert MatchLen(Amount, s) == 0;
    assert s[1..] == "1,00";
    assert AmountLen("1,00") == 4;
    assert "1,00"[..4] == "1,00" && "1,00"[4..] == [];
  }

  /** What the documents yield together: their records in file order, or the first failure. */
  datatype Collection = Collected(records: seq<Record>) | Failed(document: nat, line: nat)

  /** Lines 69-73: the records of the documents, concatenated in file order. */
  function CollectedFrom(docs: seq<seq<String>>, today: nat): Collection
  {
    if docs == [] then Collected([])
    else
      match CollectedFrom(docs[..|docs| - 1], today)
      case Failed(d, j) => Failed(d, j)
      case Collected(rs) =>
        match Extracted(docs[|docs| - 1], today)
        case MissingLookahead(j) => Failed(|docs| - 1, j)
        case Ok(e) => Collected(rs + e.records)
  }

  /**
   * The outcome of a run: the printed lines and the two lists, or the document and line
   * whose missing lookahead aborted the run before anything was printed.
   */
  datatype RunOutcome =
    | Output(printed: seq<String>, credits: seq<Record>, debits: seq<Record>)
    | Aborted(document: nat, line: nat)

  function RunResult(docs: seq<seq<String>>, today: nat): RunOutcome
  {
    match CollectedFrom(docs, today)
    case Failed(d, j) => Aborted(d, j)
    case Collected(rs) => Output([Header] + OutputLines(rs), Entries(rs, 'H'), Entries(rs, 'S'))
  }

  /**
   * Lines 69-101: `get` on every document in order, then the rows. The exception `get`
   * throws on a missing lookahead is not caught by `main`, so it ends the run.
   */
  method Run(docs: seq<seq<String>>, today: nat) returns (outcome: RunOutcome)
    ensures outcome == RunResult(docs, today)
  {
    var lines: seq<Record> := [];
    var d := 0;
    while d < |docs|
      invariant d <= |docs|
      invariant CollectedFrom(docs[..d], today) == Collected(lines)
    {
      assert docs[..d + 1][..d] == docs[..d];
      var pair := Get(docs[d], today);
      if pair.MissingLookahead? {
        FailureStops(docs, today, d + 1);
        return Aborted(d, pair.line);
      }
      lines := lines + pair.value.records;
      d := d + 1;
    }
    assert docs[..d] == docs;
    var printed, credits, debits := Finalise(lines);
    outcome := Output(printed, credits, debits);
  }

  /** A failing document decides the outcome, whatever the documents after it. */
  lemma {:induction false} FailureStops(docs: seq<seq<String>>, today: nat, n: nat)
    requires 0 < n <= |docs| && CollectedFrom(docs[..n], today).Failed?
    ensures CollectedFrom(docs, today) == CollectedFrom(docs[..n], today)
    decreases |docs| - n
  {
    if n < |docs| {
      assert docs[..n + 1][..n] == docs[..n];
      FailureStops(docs, today, n + 1);
    } else {
      assert docs[..n] == docs;
    }
  }

  /** Every collected record ends in `H` or `S`. */
  lemma {:induction false} CollectedAreMarked(docs: seq<seq<String>>, today: nat)
    requires CollectedFrom(docs, today).Collected?
    ensures forall r :: r in CollectedFrom(docs, today).records ==> Marked(r)
  {
    if docs != [] {
      var init := docs[..|docs| - 1];
      CollectedAreMarked(init, today);
      RecordValuesKeepMarker(docs[|docs| - 1], today);
    }
  }

  /**
   * Lines 69-101: a run that is not aborted prints the header and then exactly one row per
   * record, in file and line order, and files each record under exactly one marker.
   */
  lemma EveryRecordOneRow(docs: seq<seq<String>>, today: nat)
    requires CollectedFrom(docs, today).Collected?
    ensures RunResult(docs, today).Output?
    ensures var rs := CollectedFrom(docs, today).records;
      (forall r :: r in rs ==> Marked(r))
      && RunResult(docs, today).printed == [Header] + OutputLines(rs)
      && |RunResult(docs, today).credits| + |RunResult(docs, today).debits| == |rs|
  {
    var rs := CollectedFrom(docs, today).records;
    CollectedAreMarked(docs, today);
    EntriesPartition(rs);
  }
}
