/**
 * `CashLineExtractor.get` (StatementParser.java, lines 180-214): one pass over the text
 * lines of a statement that fixes the statement year from the first parseable `M/yyyy`
 * line and turns every transaction line into a record keyed by the two lines after it.
 */
module CashLineExtractor {
  import opened Text
  import opened LineNormaliser

  datatype Option<T> = None | Some(value: T)

  /** A document's outcome: its records, or the index of the line whose lookahead ran past the end. */
  datatype Result<T> = Ok(value: T) | MissingLookahead(line: nat)

  /** One record: the key made of the two following lines, and the normalised line. */
  datatype Record = Record(key: String, value: String)

  /** What `get` returns: the statement year and the records in line order. */
  datatype Extraction = Extraction(year: nat, records: seq<Record>)

  /** The loop variables `dateParsed` and `date` (reduced to its year). */
  datatype YearState = YearState(parsed: bool, year: nat)

  /** `trimmed.matches("[0-9]{1,2}/([0-9]{4})")`: one or two digits, a slash, four digits. */
  predicate IsMonthYear(t: String)
  {
    (|t| == 6 && IsDigit(t[0]) && t[1] == '/'
     && IsDigit(t[2]) && IsDigit(t[3]) && IsDigit(t[4]) && IsDigit(t[5]))
    || (|t| == 7 && IsDigit(t[0]) && IsDigit(t[1]) && t[2] == '/'
        && IsDigit(t[3]) && IsDigit(t[4]) && IsDigit(t[5]) && IsDigit(t[6]))
  }

  /**
   * `formatter.parse("1/" + t, LocalDate::from)` with the pattern `d/M/y`, reduced to the
   * year it yields: it succeeds exactly when the month is 1 to 12 and the year is at least 1.
   */
  function ParseYear(t: String): (r: Option<nat>)
    requires IsMonthYear(t)
    ensures r.Some? ==> 1 <= r.value <= 9999
  {
    var n := |t|;
    var month := if n == 6 then DigitValue(t[0]) else DigitValue(t[0]) * 10 + DigitValue(t[1]);
    var year := DigitValue(t[n - 4]) * 1000 + DigitValue(t[n - 3]) * 100
                + DigitValue(t[n - 2]) * 10 + DigitValue(t[n - 1]);
    if 1 <= month <= 12 && 1 <= year then Some(year) else None
  }

  /**
   * The parse reads the digits before the slash as the month and the four after it as the
   * year; it yields that year exactly when the month is 1 to 12 and the year at least 1.
   */
  lemma ParseYearMeaning(t: String)
    requires IsMonthYear(t)
    ensures AllDigits(t[..|t| - 5]) && AllDigits(t[|t| - 4..])
    ensures ParseYear(t) == (if 1 <= ValueOf(t[..|t| - 5]) <= 12 && 1 <= ValueOf(t[|t| - 4..])
                             then Some(ValueOf(t[|t| - 4..])) else None)
  {
    var n := |t|;
    var y := t[n - 4..];
    assert y[0] == t[n - 4] && y[1] == t[n - 3] && y[2] == t[n - 2] && y[3] == t[n - 1];
    ValueOfFour(y);
    if n == 6 {
      ValueOfOne(t[..1]);
    } else {
      ValueOfTwo(t[..2]);
    }
  }

  /**
   * Line 194 as Java reads it: `endsWith("H") || (endsWith("S") && !contains("SOLLZINSEN"))`,
   * on the untrimmed line; a one-character `endsWith` tests the last character.
   */
  predicate IsTransactionLine(line: String)
  {
    EndsIn(line, 'H') || (EndsIn(line, 'S') && !Contains(line, "SOLLZINSEN"))
  }

  /** Lines 194-195: a transaction line that is not indented. */
  predicate IsRecordLine(line: String)
  {
    IsTransactionLine(line) && !StartsIn(line, ' ')
  }

  /** What a line is to the loop of lines 186-212, decided by its text alone. */
  datatype Kind = DateLine(year: Option<nat>) | RecordLine | OtherLine

  /**
   * Lines 187-195: a line whose trimmed text is `M/yyyy` is a date line, with the year its
   * parse yields, if any; otherwise a record line gives a record.
   */
  function KindOf(line: String): Kind
  {
    if IsMonthYear(Trim(line)) then DateLine(ParseYear(Trim(line)))
    else if IsRecordLine(line) then RecordLine
    else OtherLine
  }

  /** The kinds of the lines, in order. */
  function Kinds(lines: seq<String>): (ks: seq<Kind>)
    ensures |ks| == |lines|
  {
    if lines == [] then [] else Kinds(lines[..|lines| - 1]) + [KindOf(lines[|lines| - 1])]
  }

  lemma {:induction false} KindsAt(lines: seq<String>, j: nat)
    requires j < |lines|
    ensures Kinds(lines)[j] == KindOf(lines[j])
  {
    if j < |lines| - 1 {
      KindsAt(lines[..|lines| - 1], j);
    }
  }

  /**
   * Lines 187-193: while no year is known, a date line whose parse succeeds fixes it; a
   * failed parse, a later date line and every other line leave it as it is.
   */
  function NextState(st: YearState, k: Kind): YearState
  {
    if !st.parsed && k.DateLine? && k.year.Some? then YearState(true, k.year.value) else st
  }

  /** The loop state before line `i`. */
  function StateAt(lines: seq<String>, today: nat, i: nat): YearState
    requires i <= |lines|
  {
    if i == 0 then YearState(false, today) else NextState(StateAt(lines, today, i - 1), Kinds(lines)[i - 1])
  }

  /** An accepted line: its index and the year in force when it is normalised. */
  datatype Pick = Pick(line: nat, year: nat)

  /** Every pick has the two lines after it. */
  predicate HasLookahead(lines: seq<String>, ps: seq<Pick>)
  {
    forall k :: 0 <= k < |ps| ==> ps[k].line + 2 < |lines|
  }

  /**
   * Lines 187-211 without the rewriting: the accepted lines before `i` with their years,
   * or the first accepted line that has not two lines after it.
   */
  function PicksBefore(lines: seq<String>, today: nat, i: nat): (r: Result<seq<Pick>>)
    requires i <= |lines|
    ensures r.Ok? ==> HasLookahead(lines, r.value)
  {
    if i == 0 then Ok([])
    else
      match PicksBefore(lines, today, i - 1)
      case MissingLookahead(j) => MissingLookahead(j)
      case Ok(ps) =>
        var st := StateAt(lines, today, i - 1);
        if !Kinds(lines)[i - 1].RecordLine? then Ok(ps)
        else if i + 1 < |lines| then Ok(ps + [Pick(i - 1, st.year)])
        else MissingLookahead(i - 1)
  }

  /**
   * Line 209: the record of line `i` normalised with `year`, keyed by the two trimmed
   * lines after it.
   */
  function RecordAt(lines: seq<String>, i: nat, year: nat): Record
    requires i + 2 < |lines|
  {
    Record(Trim(lines[i + 1]) + Tab + Trim(lines[i + 2]), Normalised(lines[i], year))
  }

  /** The record of a pick. */
  function RecordOf(lines: seq<String>, p: Pick): Record
    requires p.line + 2 < |lines|
  {
    RecordAt(lines, p.line, p.year)
  }

  /** The records of the picks, in order. */
  function RecordsOf(lines: seq<String>, ps: seq<Pick>): seq<Record>
    requires HasLookahead(lines, ps)
  {
    seq(|ps|, k requires 0 <= k < |ps| => RecordOf(lines, ps[k]))
  }

  /** One more pick adds its record at the end. */
  lemma RecordsOfSnoc(lines: seq<String>, ps: seq<Pick>, p: Pick)
    requires HasLookahead(lines, ps) && p.line + 2 < |lines|
    ensures HasLookahead(lines, ps + [p])
    ensures RecordsOf(lines, ps + [p]) == RecordsOf(lines, ps) + [RecordOf(lines, p)]
  {
    var qs := ps + [p];
    assert HasLookahead(lines, qs) by {
      forall k | 0 <= k < |qs| ensures qs[k].line + 2 < |lines| {
        if k < |ps| {
          assert qs[k] == ps[k];
        }
      }
    }
    var longer := RecordsOf(lines, qs);
    var appended := RecordsOf(lines, ps) + [RecordOf(lines, p)];
    assert |longer| == |appended|;
    forall k | 0 <= k < |longer| ensures longer[k] == appended[k] {
      if k < |ps| {
        assert qs[k] == ps[k];
      } else {
        assert qs[k] == p;
      }
    }
  }

  /** Line 209: the key and the normalised line of line `i` make the record of its pick. */
  lemma RecordOfLine(lines: seq<String>, i: nat, year: nat, key: String, value: String)
    requires i + 2 < |lines|
    requires key == Trim(lines[i + 1]) + Tab + Trim(lines[i + 2]) && value == Normalised(lines[i], year)
    ensures RecordAt(lines, i, year) == Record(key, value)
  {
  }

  /** What `get` computes for a document's lines, with `today` the year of the current date. */
  function Extracted(lines: seq<String>, today: nat): Result<Extraction>
  {
    match PicksBefore(lines, today, |lines|)
    case MissingLookahead(j) => MissingLookahead(j)
    case Ok(ps) => Ok(Extraction(StateAt(lines, today, |lines|).year, RecordsOf(lines, ps)))
  }

  /** A missing lookahead stops the document: nothing after it changes the outcome. */
  lemma {:induction false} FailureIsFinal(lines: seq<String>, today: nat, i: nat, n: nat)
    requires i <= n <= |lines| && PicksBefore(lines, today, i).MissingLookahead?
    ensures PicksBefore(lines, today, n) == PicksBefore(lines, today, i)
    decreases n - i
  {
    if i < n {
      FailureIsFinal(lines, today, i + 1, n);
    }
  }

  /** The document fails at the first line whose lookahead runs past the end. */
  lemma ExtractedFails(lines: seq<String>, today: nat, i: nat)
    requires i < |lines| && PicksBefore(lines, today, i + 1) == MissingLookahead(i)
    ensures Extracted(lines, today) == MissingLookahead(i)
  {
    FailureIsFinal(lines, today, i + 1, |lines|);
  }

  /**
   * The loop invariant of `get`: after `i` lines, the year variables, the picks and the
   * records collected so far are what the specification gives for those lines.
   */
  predicate Scanned(lines: seq<String>, today: nat, i: nat, dateParsed: bool, date: nat,
                    ps: seq<Pick>, rs: seq<Record>)
  {
    i <= |lines| && YearState(dateParsed, date) == StateAt(lines, today, i)
    && PicksBefore(lines, today, i) == Ok(ps) && HasLookahead(lines, ps) && rs == RecordsOf(lines, ps)
  }

  /** A pass that reaches the end yields the last year and the records of the picks. */
  lemma ExtractedOk(lines: seq<String>, today: nat, dateParsed: bool, date: nat, ps: seq<Pick>, rs: seq<Record>)
    requires Scanned(lines, today, |lines|, dateParsed, date, ps, rs)
    ensures Extracted(lines, today) == Ok(Extraction(date, rs))
  {
  }

  /** One turn of the loop, as the specification sees it. */
  lemma PicksStep(lines: seq<String>, today: nat, i: nat, ps: seq<Pick>)
    requires i < |lines| && PicksBefore(lines, today, i) == Ok(ps)
    ensures StateAt(lines, today, i + 1) == NextState(StateAt(lines, today, i), Kinds(lines)[i])
    ensures var st := StateAt(lines, today, i);
      PicksBefore(lines, today, i + 1) ==
        if !Kinds(lines)[i].RecordLine? then Ok(ps)
        else if i + 2 < |lines| then Ok(ps + [Pick(i, st.year)])
        else MissingLookahead(i)
  {
  }

  /** Lines 187-193: a date candidate adds no record and fixes the year when it parses. */
  lemma DateTurn(lines: seq<String>, today: nat, i: nat, ps: seq<Pick>, rs: seq<Record>,
                 before: YearState, after: YearState)
    requires i < |lines| && Scanned(lines, today, i, before.parsed, before.year, ps, rs)
    requires !before.parsed && IsMonthYear(Trim(lines[i]))
    requires after == match ParseYear(Trim(lines[i]))
      case Some(y) => YearState(true, y)
      case None => before
    ensures Scanned(lines, today, i + 1, after.parsed, after.year, ps, rs)
  {
    PicksStep(lines, today, i, ps);
    KindsAt(lines, i);
  }

  /**
   * Lines 196-209: the accepted line `i`, with its two lookahead lines, adds its pick and
   * its record, keyed by the trimmed lookahead lines and valued by the normalised line.
   */
  lemma AcceptTurn(lines: seq<String>, today: nat, i: nat, dateParsed: bool, date: nat,
                   ps: seq<Pick>, rs: seq<Record>, key: String, value: String,
                   ps': seq<Pick>, rs': seq<Record>)
    requires i + 2 < |lines| && Scanned(lines, today, i, dateParsed, date, ps, rs)
    requires IsRecordLine(lines[i])
    requires key == Trim(lines[i + 1]) + Tab + Trim(lines[i + 2]) && value == Normalised(lines[i], date)
    requires ps' == ps + [Pick(i, date)] && rs' == rs + [Record(key, value)]
    ensures Scanned(lines, today, i + 1, dateParsed, date, ps', rs')
  {
    PicksStep(lines, today, i, ps);
    KindsAt(lines, i);
    KindOfRecordLine(lines[i]);
    var p := Pick(i, date);
    RecordOfLine(lines, i, date, key, value);
    RecordsOfSnoc(lines, ps, p);
  }

  /** Lines 209-210: an accepted line without two lines after it ends the document in failure. */
  lemma StopTurn(lines: seq<String>, today: nat, i: nat, dateParsed: bool, date: nat,
                 ps: seq<Pick>, rs: seq<Record>)
    requires i < |lines| <= i + 2 && Scanned(lines, today, i, dateParsed, date, ps, rs)
    requires IsRecordLine(lines[i])
    ensures Extracted(lines, today) == MissingLookahead(i)
  {
    PicksStep(lines, today, i, ps);
    KindsAt(lines, i);
    KindOfRecordLine(lines[i]);
    ExtractedFails(lines, today, i);
  }

  /** Lines 194-195: any other line changes nothing. */
  lemma SkipTurn(lines: seq<String>, today: nat, i: nat, dateParsed: bool, date: nat,
                 ps: seq<Pick>, rs: seq<Record>)
    requires i < |lines| && Scanned(lines, today, i, dateParsed, date, ps, rs)
    requires !(!dateParsed && IsMonthYear(Trim(lines[i]))) && !IsRecordLine(lines[i])
    ensures Scanned(lines, today, i + 1, dateParsed, date, ps, rs)
  {
    PicksStep(lines, today, i, ps);
    KindsAt(lines, i);
    KindOfRecordLine(lines[i]);
  }

  /**
   * Lines 186-211: one line of the document. A date candidate may fix the year, an accepted
   * line adds its record, an accepted line without two lines after it stops the pass, and
   * any other line changes nothing.
   */
  method Step(lines: seq<String>, today: nat, i: nat, dateParsed: bool, date: nat,
              ghost picks: seq<Pick>, cashlines: seq<Record>)
    returns (stop: bool, dateParsed': bool, date': nat, ghost picks': seq<Pick>, cashlines': seq<Record>)
    requires i < |lines| && Scanned(lines, today, i, dateParsed, date, picks, cashlines)
    ensures stop ==> Extracted(lines, today) == MissingLookahead(i)
    ensures !stop ==> Scanned(lines, today, i + 1, dateParsed', date', picks', cashlines')
  {
    stop, dateParsed', date', picks', cashlines' := false, dateParsed, date, picks, cashlines;
    var line := lines[i];
    if !dateParsed && IsMonthYear(Trim(line)) {
      var parsed := ParseYear(Trim(line));
      if parsed.Some? {
        date' := parsed.value;
        dateParsed' := true;
      }
      DateTurn(lines, today, i, picks, cashlines, YearState(dateParsed, date), YearState(dateParsed', date'));
    } else if IsTransactionLine(line) {
      if !StartsIn(line, ' ') {
        var value := Normalise(line, date);
        if i + 2 >= |lines| {
          StopTurn(lines, today, i, dateParsed, date, picks, cashlines);
          return true, dateParsed, date, picks, cashlines;
        }
        var key := Trim(lines[i + 1]) + Tab + Trim(lines[i + 2]);
        cashlines' := cashlines + [Record(key, value)];
        picks' := picks + [Pick(i, date)];
        AcceptTurn(lines, today, i, dateParsed, date, picks, cashlines, key, value, picks', cashlines');
      } else {
        SkipTurn(lines, today, i, dateParsed, date, picks, cashlines);
      }
    } else {
      SkipTurn(lines, today, i, dateParsed, date, picks, cashlines);
    }
  }

  /** Lines 180-213: the loop over the document's lines. */
  method Get(lines: seq<String>, today: nat) returns (r: Result<Extraction>)
    ensures r == Extracted(lines, today)
  {
    var dateParsed := false;
    var date := today;
    var cashlines: seq<Record> := [];
    ghost var picks: seq<Pick> := [];
    var i := 0;
    while i < |lines|
      invariant Scanned(lines, today, i, dateParsed, date, picks, cashlines)
    {
      var stop;
      stop, dateParsed, date, picks, cashlines := Step(lines, today, i, dateParsed, date, picks, cashlines);
      if stop {
        return MissingLookahead(i);
      }
      i := i + 1;
    }
    ExtractedOk(lines, today, dateParsed, date, picks, cashlines);
    r := Ok(Extraction(date, cashlines));
  }

  /** The line fixes the year: its trimmed text is `M/yyyy` and it parses. */
  predicate ParsesAsYear(line: String)
  {
    IsMonthYear(Trim(line)) && ParseYear(Trim(line)).Some?
  }

  /** Reference definition: the year of the first line, from the top, that parses as one. */
  function FirstYearIn(ls: seq<String>): Option<nat>
  {
    if ls == [] then None
    else if ParsesAsYear(ls[0]) then ParseYear(Trim(ls[0]))
    else FirstYearIn(ls[1..])
  }

  lemma {:induction false} FirstYearSnoc(ls: seq<String>, x: String)
    ensures FirstYearIn(ls + [x]) ==
      if FirstYearIn(ls).Some? then FirstYearIn(ls)
      else if ParsesAsYear(x) then ParseYear(Trim(x))
      else None
  {
    if ls == [] {
      assert [x][1..] == [];
    } else {
      assert (ls + [x])[1..] == ls[1..] + [x];
      FirstYearSnoc(ls[1..], x);
    }
  }

  /** The loop state that a first year found so far (or none) stands for. */
  function StateFor(today: nat, first: Option<nat>): YearState
  {
    match first
    case None => YearState(false, today)
    case Some(y) => YearState(true, y)
  }

  /**
   * Lines 181 and 187-193: the year is known exactly when some earlier line parsed as
   * `M/yyyy`, and it is then the year of the first such line; later date lines are ignored.
   * Until then the year is today's.
   */
  lemma {:induction false} StateIsFirstYear(lines: seq<String>, today: nat, i: nat)
    requires i <= |lines|
    ensures StateAt(lines, today, i) == StateFor(today, FirstYearIn(lines[..i]))
  {
    if i > 0 {
      StateIsFirstYear(lines, today, i - 1);
      FirstYearStep(lines, today, i);
    }
  }

  /** Line `i - 1` moves the year state the way the first year among the lines so far moves. */
  lemma FirstYearStep(lines: seq<String>, today: nat, i: nat)
    requires 0 < i <= |lines|
    requires StateAt(lines, today, i - 1) == StateFor(today, FirstYearIn(lines[..i - 1]))
    ensures StateAt(lines, today, i) == StateFor(today, FirstYearIn(lines[..i]))
  {
    KindsAt(lines, i - 1);
    PrefixSnoc(lines, i);
    FirstYearTurn(StateAt(lines, today, i - 1), today, lines[..i - 1], lines[i - 1]);
  }

  /** One line of the year scan: the state follows the first year among the lines so far. */
  lemma FirstYearTurn(st: YearState, today: nat, before: seq<String>, x: String)
    requires st == StateFor(today, FirstYearIn(before))
    ensures NextState(st, KindOf(x)) == StateFor(today, FirstYearIn(before + [x]))
  {
    FirstYearSnoc(before, x);
    if FirstYearIn(before).Some? {
      assert st.parsed;
    } else if ParsesAsYear(x) {
      assert st == YearState(false, today);
    } else {
      assert NextState(st, KindOf(x)) == st;
    }
  }

  /** The year the line at index `j` is normalised with. */
  function YearAt(lines: seq<String>, today: nat, j: nat): nat
    requires j <= |lines|
  {
    match FirstYearIn(lines[..j])
    case None => today
    case Some(y) => y
  }

  /** A line whose trimmed text is `M/yyyy` ends in a digit, so it is never a transaction line. */
  lemma DateLineIsNoTransaction(line: String)
    requires IsMonthYear(Trim(line))
    ensures !IsTransactionLine(line)
  {
    var t := Trim(line);
    assert IsDigit(t[|t| - 1]);
    if line != [] && !IsTrimmable(line[|line| - 1]) {
      assert t[|t| - 1] == line[|line| - 1];
    }
  }

  /**
   * The `else` on line 194 never hides a transaction line: a line is a record line in the
   * loop's eyes exactly when it is one by its text, before and after the year is known.
   */
  lemma KindOfRecordLine(line: String)
    ensures KindOf(line).RecordLine? <==> IsRecordLine(line)
  {
    if IsMonthYear(Trim(line)) {
      DateLineIsNoTransaction(line);
    }
  }

  /** The indices below `i` of the record lines, in ascending order. */
  function RecordLines(lines: seq<String>, i: nat): seq<nat>
    requires i <= |lines|
  {
    if i == 0 then []
    else RecordLines(lines, i - 1) + (if IsRecordLine(lines[i - 1]) then [i - 1] else [])
  }

  /** `RecordLines` lists every record line below `i`, and nothing else, in ascending order. */
  lemma {:induction false} RecordLinesFilter(lines: seq<String>, i: nat)
    requires i <= |lines|
    ensures var js := RecordLines(lines, i);
      (forall k :: 0 <= k < |js| ==> js[k] < i && IsRecordLine(lines[js[k]]))
      && (forall k, m :: 0 <= k < m < |js| ==> js[k] < js[m])
      && (forall j :: 0 <= j < i && IsRecordLine(lines[j]) ==> j in js)
  {
    if i > 0 {
      RecordLinesFilter(lines, i - 1);
    }
  }

  /** Every record line before `i` has its two lookahead lines. */
  predicate LookaheadBefore(lines: seq<String>, i: nat)
    requires i <= |lines|
  {
    forall j :: 0 <= j < i && IsRecordLine(lines[j]) ==> j + 2 < |lines|
  }

  /** The pick of record line `j`: the year is the one of the first date line above it. */
  function PickFor(lines: seq<String>, today: nat, j: nat): Pick
    requires j <= |lines|
  {
    Pick(j, YearAt(lines, today, j))
  }

  /** The record of record line `j`. */
  function RecordFor(lines: seq<String>, today: nat, j: nat): Record
    requires j + 2 < |lines|
  {
    RecordOf(lines, PickFor(lines, today, j))
  }

  /** Pick `k` is the `k`-th record line with the year in force there. */
  predicate PicksOfLines(lines: seq<String>, today: nat, js: seq<nat>, ps: seq<Pick>)
  {
    |ps| == |js| && forall k :: 0 <= k < |js| ==> js[k] <= |lines| && ps[k] == PickFor(lines, today, js[k])
  }

  /** Record `k` comes from the `k`-th record line, keyed by the two lines after it. */
  predicate RecordsOfLines(lines: seq<String>, today: nat, js: seq<nat>, rs: seq<Record>)
  {
    |rs| == |js|
    && forall k :: 0 <= k < |js| ==>
         js[k] + 2 < |lines| && rs[k] == RecordFor(lines, today, js[k])
  }

  /** One turn of the loop in terms of record lines: the year in force is `YearAt`. */
  lemma PicksBeforeStep(lines: seq<String>, today: nat, i: nat, ps: seq<Pick>)
    requires i < |lines| && PicksBefore(lines, today, i) == Ok(ps)
    ensures PicksBefore(lines, today, i + 1) ==
      if !IsRecordLine(lines[i]) then Ok(ps)
      else if i + 2 < |lines| then Ok(ps + [PickFor(lines, today, i)])
      else MissingLookahead(i)
  {
    PicksStep(lines, today, i, ps);
    KindsAt(lines, i);
    KindOfRecordLine(lines[i]);
    StateIsFirstYear(lines, today, i);
    assert StateAt(lines, today, i).year == YearAt(lines, today, i);
  }

  lemma LookaheadBeforeStep(lines: seq<String>, i: nat)
    requires 0 < i <= |lines|
    ensures LookaheadBefore(lines, i) <==>
      LookaheadBefore(lines, i - 1) && (IsRecordLine(lines[i - 1]) ==> i + 1 < |lines|)
  {
  }

  /** Lines 186-211: the pass fails exactly when a record line lacks its two lookahead lines. */
  lemma {:induction false} PicksBeforeOk(lines: seq<String>, today: nat, i: nat)
    requires i <= |lines|
    ensures PicksBefore(lines, today, i).Ok? <==> LookaheadBefore(lines, i)
  {
    if i > 0 {
      PicksBeforeOk(lines, today, i - 1);
      LookaheadBeforeStep(lines, i);
      if PicksBefore(lines, today, i - 1).Ok? {
        PicksBeforeStep(lines, today, i - 1, PicksBefore(lines, today, i - 1).value);
      } else {
        FailureIsFinal(lines, today, i - 1, i);
      }
    }
  }

  /**
   * Lines 186-211: the lines picked before line `i` are, in order, the record lines, each
   * with the year known at its line.
   */
  lemma {:induction false} PicksBeforeLines(lines: seq<String>, today: nat, i: nat)
    requires i <= |lines| && PicksBefore(lines, today, i).Ok?
    ensures PicksOfLines(lines, today, RecordLines(lines, i), PicksBefore(lines, today, i).value)
  {
    if i > 0 {
      assert PicksBefore(lines, today, i - 1).Ok?;
      var ps := PicksBefore(lines, today, i - 1).value;
      var js := RecordLines(lines, i - 1);
      PicksBeforeStep(lines, today, i - 1, ps);
      PicksBeforeLines(lines, today, i - 1);
      if IsRecordLine(lines[i - 1]) {
        var js' := js + [i - 1];
        var ps' := ps + [PickFor(lines, today, i - 1)];
        assert RecordLines(lines, i) == js';
        assert PicksBefore(lines, today, i).value == ps';
        forall k | 0 <= k < |js'| ensures js'[k] <= |lines| && ps'[k] == PickFor(lines, today, js'[k]) {
          if k < |js| {
            assert js'[k] == js[k] && ps'[k] == ps[k];
          }
        }
      } else {
        assert RecordLines(lines, i) == js;
        assert PicksBefore(lines, today, i).value == ps;
      }
    }
  }

  /** Line 209: a failure names the first record line without its two lookahead lines. */
  lemma {:induction false} PicksBeforeFailure(lines: seq<String>, today: nat, i: nat)
    requires i <= |lines| && PicksBefore(lines, today, i).MissingLookahead?
    ensures var j := PicksBefore(lines, today, i).line;
      j < i && IsRecordLine(lines[j]) && j + 2 >= |lines| && LookaheadBefore(lines, j)
  {
    if PicksBefore(lines, today, i - 1).MissingLookahead? {
      FailureIsFinal(lines, today, i - 1, i);
      PicksBeforeFailure(lines, today, i - 1);
    } else {
      PicksBeforeStep(lines, today, i - 1, PicksBefore(lines, today, i - 1).value);
      PicksBeforeOk(lines, today, i - 1);
    }
  }

  /** The records of the record lines' picks are the records of those lines. */
  lemma RecordsOfLinesFromPicks(lines: seq<String>, today: nat, js: seq<nat>, ps: seq<Pick>)
    requires PicksOfLines(lines, today, js, ps) && HasLookahead(lines, ps)
    ensures RecordsOfLines(lines, today, js, RecordsOf(lines, ps))
  {
    var rs := RecordsOf(lines, ps);
    forall k | 0 <= k < |js| ensures js[k] + 2 < |lines| && rs[k] == RecordFor(lines, today, js[k]) {
      assert ps[k] == PickFor(lines, today, js[k]);
    }
  }

  /** What `get` returns for a whole document, stated without the loop. */
  lemma ExtractedCharacterised(lines: seq<String>, today: nat)
    ensures Extracted(lines, today).Ok? <==> LookaheadBefore(lines, |lines|)
    ensures Extracted(lines, today).Ok? ==>
      Extracted(lines, today).value.year == YearAt(lines, today, |lines|)
      && RecordsOfLines(lines, today, RecordLines(lines, |lines|), Extracted(lines, today).value.records)
    ensures Extracted(lines, today).MissingLookahead? ==>
      var j := Extracted(lines, today).line;
      j + 2 >= |lines| && j < |lines| && IsRecordLine(lines[j]) && LookaheadBefore(lines, j)
  {
    var outcome := PicksBefore(lines, today, |lines|);
    PicksBeforeOk(lines, today, |lines|);
    if outcome.Ok? {
      PicksBeforeLines(lines, today, |lines|);
      RecordsOfLinesFromPicks(lines, today, RecordLines(lines, |lines|), outcome.value);
    } else {
      PicksBeforeFailure(lines, today, |lines|);
    }
    StateIsFirstYear(lines, today, |lines|);
  }

  /**
   * Every record value still ends in the `H` or `S` that selected its line, so the final
   * loop in `main` always finds its marker.
   */
  lemma RecordValuesKeepMarker(lines: seq<String>, today: nat)
    requires Extracted(lines, today).Ok?
    ensures forall r :: r in Extracted(lines, today).value.records ==>
      EndsIn(r.value, 'H') || EndsIn(r.value, 'S')
  {
    PicksAreRecordLines(lines, today, |lines|);
    RecordsKeepMarker(lines, PicksBefore(lines, today, |lines|).value);
  }

  /** Lines 194-196: only record lines are picked. */
  lemma {:induction false} PicksAreRecordLines(lines: seq<String>, today: nat, i: nat)
    requires i <= |lines| && PicksBefore(lines, today, i).Ok?
    ensures var ps := PicksBefore(lines, today, i).value;
      forall k :: 0 <= k < |ps| ==> ps[k].line < i && IsRecordLine(lines[ps[k].line])
  {
    if i > 0 {
      assert PicksBefore(lines, today, i - 1).Ok?;
      PicksAreRecordLines(lines, today, i - 1);
      PicksBeforeStep(lines, today, i - 1, PicksBefore(lines, today, i - 1).value);
    }
  }

  /** The records of picked record lines all end in their line's marker. */
  lemma RecordsKeepMarker(lines: seq<String>, ps: seq<Pick>)
    requires HasLookahead(lines, ps)
    requires forall k :: 0 <= k < |ps| ==> ps[k].line < |lines| && IsRecordLine(lines[ps[k].line])
    ensures forall r :: r in RecordsOf(lines, ps) ==> EndsIn(r.value, 'H') || EndsIn(r.value, 'S')
  {
    var rs := RecordsOf(lines, ps);
    forall k | 0 <= k < |rs| ensures EndsIn(rs[k].value, 'H') || EndsIn(rs[k].value, 'S') {
      RecordKeepsMarker(lines, ps[k]);
    }
  }

  /** A record line ends in `H` or `S`, and normalising keeps that last character. */
  lemma RecordKeepsMarker(lines: seq<String>, p: Pick)
    requires p.line + 2 < |lines| && IsRecordLine(lines[p.line])
    ensures EndsIn(RecordOf(lines, p).value, 'H') || EndsIn(RecordOf(lines, p).value, 'S')
  {
    var line := lines[p.line];
    var c := line[|line| - 1];
    assert c == 'H' || c == 'S';
    NormalisedKeepsMarker(line, p.year, c);
  }

  /**
   * Lines 187-192 on sample lines: a valid month fixes the year, even one written with
   * leading zeros; month 13 and year 0 are rejected by the formatter.
   */
  lemma ParseYearSamples()
    ensures ParseYear("5/2021") == Some(2021)
    ensures ParseYear("13/2021") == None
    ensures ParseYear("05/0021") == Some(21)
    ensures ParseYear("5/0000") == None
  {
  }

  /**
   * Line 194 on sample lines: the `SOLLZINSEN` exclusion only applies to `S` lines, the
   * marker must be the very last character, and line 195 rejects an indented line.
   */
  lemma ClassificationSamples()
    ensures IsRecordLine("SOLLZINSEN H")
    ensures !IsTransactionLine("SOLLZINSEN S")
    ensures !IsTransactionLine("1,00 H ")
    ensures IsTransactionLine(" 1,00 S") && !IsRecordLine(" 1,00 S")
  {
    assert StartsWith("SOLLZINSEN S", "SOLLZINSEN");
    ContainsNeedsRoom(" 1,00 S", "SOLLZINSEN");
  }
}
