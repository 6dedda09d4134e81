/**
 * The rewriting of one accepted transaction line (StatementParser.java, lines 196-208):
 * space runs become tabs, tab runs collapse, the first two remaining spaces become tabs,
 * the statement year is appended to every `dd.mm.` date, and the tab-separated fields are
 * trimmed and joined again.
 */
module LineNormaliser {
  import opened Text
  import opened Rewrite

  const DoubleSpace: String := "  "
  const DoubleTab: String := "\t\t"
  const Tab: String := "\t"

  // ---------------------------------------------------------------------------------------
  // The two collapse loops (lines 196-201)

  /** A literal rewrite to a shorter text never lengthens the line and shortens it when the target occurs. */
  lemma {:induction false} ReplaceLiteralShrinks(s: String, t: String, u: String)
    requires |u| < |t|
    ensures |ReplaceAll(s, Literal(t), With(u))| <= |s|
    ensures Contains(s, t) ==> |ReplaceAll(s, Literal(t), With(u))| < |s|
    decreases |s|
  {
    if s != [] {
      var n := MatchLen(Literal(t), s);
      if n > 0 {
        ReplaceLiteralShrinks(s[n..], t, u);
      } else {
        ReplaceLiteralShrinks(s[1..], t, u);
      }
    }
  }

  /** A literal target that does not occur leaves the line as it is. */
  lemma AbsentLiteralNoChange(s: String, t: String, r: Replacement)
    requires !Contains(s, t)
    ensures ReplaceAll(s, Literal(t), r) == s
  {
    forall k | 0 <= k <= |s| ensures MatchLen(Literal(t), s[k..]) == 0 {
      if t != [] && StartsWith(s[k..], t) {
        assert s[k..k + |t|] == s[k..][..|t|];
        ContainsAt(s, t, k);
      }
    }
    NoMatchNoChange(s, Literal(t), r);
  }

  /**
   * `while (line.contains(t)) line = line.replace(t, u)`: the fixed point of the rewrite.
   * It exists because every pass that finds `t` shortens the line.
   */
  function Collapse(s: String, t: String, u: String): (r: String)
    requires |u| < |t|
    ensures !Contains(r, t)
    ensures |r| <= |s|
    decreases |s|
  {
    if Contains(s, t) then
      ReplaceLiteralShrinks(s, t, u);
      Collapse(ReplaceAll(s, Literal(t), With(u)), t, u)
    else s
  }

  /** The collapse loop of lines 196-198 (and, with a tab target, lines 199-201). */
  method CollapseRuns(line: String, t: String, u: String) returns (r: String)
    requires |u| < |t|
    ensures r == Collapse(line, t, u)
    ensures !Contains(r, t)
  {
    r := line;
    while Contains(r, t)
      invariant Collapse(r, t, u) == Collapse(line, t, u)
      decreases |r|
    {
      ReplaceLiteralShrinks(r, t, u);
      r := ReplaceAll(r, Literal(t), With(u));
    }
  }

  /** The first character of one rewrite pass over a non-empty line. */
  lemma FirstAfterPass(s: String, t: String, c: char)
    requires s != [] && |t| == 2
    ensures var r := ReplaceAll(s, Literal(t), With([c]));
      r != [] && r[0] == (if StartsWith(s, t) then c else s[0])
  {
  }

  /** Replacing `"  "` by a tab leaves no two adjacent spaces: a run of three becomes tab, space. */
  lemma {:induction false} SpacePassLeavesNoDoubleSpace(s: String)
    ensures !Contains(ReplaceAll(s, Literal(DoubleSpace), With(Tab)), DoubleSpace)
    decreases |s|
  {
    var r := ReplaceAll(s, Literal(DoubleSpace), With(Tab));
    if s != [] {
      var n := MatchLen(Literal(DoubleSpace), s);
      if n > 0 {
        SpacePassLeavesNoDoubleSpace(s[2..]);
        assert r == Tab + ReplaceAll(s[2..], Literal(DoubleSpace), With(Tab));
        assert r[0] == '\t' && r[1..] == ReplaceAll(s[2..], Literal(DoubleSpace), With(Tab));
        assert !StartsWith(r, DoubleSpace);
      } else {
        SpacePassLeavesNoDoubleSpace(s[1..]);
        var rest := ReplaceAll(s[1..], Literal(DoubleSpace), With(Tab));
        assert r == [s[0]] + rest && r[1..] == rest;
        if s[0] == ' ' && |s| > 1 {
          assert s[..2] == [s[0], s[1]];
          FirstAfterPass(s[1..], DoubleSpace, '\t');
        }
      }
    }
  }

  /** The space collapse loop runs at most once. */
  lemma SpacesCollapseInOnePass(s: String)
    ensures Collapse(s, DoubleSpace, Tab) == ReplaceAll(s, Literal(DoubleSpace), With(Tab))
  {
    if Contains(s, DoubleSpace) {
      SpacePassLeavesNoDoubleSpace(s);
    } else {
      AbsentLiteralNoChange(s, DoubleSpace, With(Tab));
    }
  }

  /** A tab pass cannot bring two spaces together: it only shortens tab runs. */
  lemma {:induction false} TabPassKeepsNoDoubleSpace(s: String)
    requires !Contains(s, DoubleSpace)
    ensures !Contains(ReplaceAll(s, Literal(DoubleTab), With(Tab)), DoubleSpace)
    decreases |s|
  {
    var r := ReplaceAll(s, Literal(DoubleTab), With(Tab));
    if s != [] {
      var n := MatchLen(Literal(DoubleTab), s);
      if n > 0 {
        assert !Contains(s[1..], DoubleSpace) && !Contains(s[2..], DoubleSpace);
        TabPassKeepsNoDoubleSpace(s[2..]);
        assert r[1..] == ReplaceAll(s[2..], Literal(DoubleTab), With(Tab));
      } else {
        TabPassKeepsNoDoubleSpace(s[1..]);
        var rest := ReplaceAll(s[1..], Literal(DoubleTab), With(Tab));
        assert r == [s[0]] + rest && r[1..] == rest;
        if s[0] == ' ' && |s| > 1 {
          assert s[..2] == [s[0], s[1]];
          FirstAfterPass(s[1..], DoubleTab, '\t');
        }
      }
    }
  }

  lemma {:induction false} TabCollapseKeepsNoDoubleSpace(s: String)
    requires !Contains(s, DoubleSpace)
    ensures !Contains(Collapse(s, DoubleTab, Tab), DoubleSpace)
    decreases |s|
  {
    if Contains(s, DoubleTab) {
      ReplaceLiteralShrinks(s, DoubleTab, Tab);
      TabPassKeepsNoDoubleSpace(s);
      TabCollapseKeepsNoDoubleSpace(ReplaceAll(s, Literal(DoubleTab), With(Tab)));
    }
  }

  lemma {:induction false} AllBlankNonBlank(s: String)
    requires forall i :: 0 <= i < |s| ==> IsBlank(s[i])
    ensures NonBlank(s) == []
    decreases |s|
  {
    if s != [] {
      AllBlankNonBlank(s[1..]);
    }
  }

  /** Rewriting blanks into blanks keeps every other character, in order. */
  lemma {:induction false} BlankPassKeepsText(s: String, t: String, u: String)
    requires forall i :: 0 <= i < |t| ==> IsBlank(t[i])
    requires forall i :: 0 <= i < |u| ==> IsBlank(u[i])
    ensures NonBlank(ReplaceAll(s, Literal(t), With(u))) == NonBlank(s)
    decreases |s|
  {
    if s != [] {
      var n := MatchLen(Literal(t), s);
      if n > 0 {
        var rest := ReplaceAll(s[n..], Literal(t), With(u));
        BlankPassKeepsText(s[n..], t, u);
        AllBlankNonBlank(u);
        NonBlankAppend(u, rest);
        assert s[..n] == t;
        TakeDropJoin(s, n);
        AllBlankNonBlank(t);
        NonBlankAppend(t, s[n..]);
      } else {
        var rest := ReplaceAll(s[1..], Literal(t), With(u));
        BlankPassKeepsText(s[1..], t, u);
        NonBlankAppend([s[0]], rest);
        HeadTail(s);
        NonBlankAppend([s[0]], s[1..]);
      }
    }
  }

  lemma {:induction false} CollapseKeepsText(s: String, t: String, u: String)
    requires |u| < |t|
    requires forall i :: 0 <= i < |t| ==> IsBlank(t[i])
    requires forall i :: 0 <= i < |u| ==> IsBlank(u[i])
    ensures NonBlank(Collapse(s, t, u)) == NonBlank(s)
    decreases |s|
  {
    if Contains(s, t) {
      ReplaceLiteralShrinks(s, t, u);
      BlankPassKeepsText(s, t, u);
      CollapseKeepsText(ReplaceAll(s, Literal(t), With(u)), t, u);
    }
  }

  /** The two collapse loops together. */
  function Collapsed(line: String): String
  {
    Collapse(Collapse(line, DoubleSpace, Tab), DoubleTab, Tab)
  }

  /**
   * After both loops the line has no two adjacent spaces and no two adjacent tabs, and
   * apart from spaces and tabs its text is unchanged.
   */
  lemma CollapsedHasNoRuns(line: String)
    ensures !Contains(Collapsed(line), DoubleSpace)
    ensures !Contains(Collapsed(line), DoubleTab)
    ensures NonBlank(Collapsed(line)) == NonBlank(line)
  {
    var once := Collapse(line, DoubleSpace, Tab);
    TabCollapseKeepsNoDoubleSpace(once);
    CollapseKeepsText(line, DoubleSpace, Tab);
    CollapseKeepsText(once, DoubleTab, Tab);
  }

  // ---------------------------------------------------------------------------------------
  // The first two spaces become tabs (line 202)

  /** `replaceFirst(" ", "\t")` */
  function FirstSpaceToTab(s: String): String
  {
    ReplaceFirst(s, Literal(" "), With(Tab))
  }

  /** Exactly the first space becomes a tab; every other character stays where it was. */
  lemma {:induction false} FirstSpaceToTabAt(s: String)
    ensures |FirstSpaceToTab(s)| == |s|
    ensures forall i :: 0 <= i < |s| ==>
      FirstSpaceToTab(s)[i] == (if s[i] == ' ' && Count(s[..i], ' ') == 0 then '\t' else s[i])
    decreases |s|
  {
    if s != [] {
      var r := FirstSpaceToTab(s);
      if s[0] == ' ' {
        assert s[..1] == " ";
        assert r == Tab + s[1..];
        forall i | 1 <= i < |s| ensures s[i] == ' ' ==> Count(s[..i], ' ') > 0 {
          assert s[..i][0] == ' ';
        }
      } else {
        FirstSpaceToTabAt(s[1..]);
        assert r == [s[0]] + FirstSpaceToTab(s[1..]);
        forall i | 1 <= i < |s| ensures Count(s[..i], ' ') == Count(s[1..][..i - 1], ' ') {
          assert s[..i][1..] == s[1..][..i - 1];
        }
      }
    }
  }

  /** A text whose first space was turned into a tab has one space fewer, if it had any. */
  lemma {:induction false} CountAfterFirstSpace(x: String, y: String)
    requires |x| == |y|
    requires forall i :: 0 <= i < |x| ==> y[i] == (if x[i] == ' ' && Count(x[..i], ' ') == 0 then '\t' else x[i])
    ensures Count(y, ' ') == if Count(x, ' ') == 0 then 0 else Count(x, ' ') - 1
    decreases |x|
  {
    if x != [] {
      assert x[..0] == [];
      if x[0] == ' ' {
        forall i | 1 <= i < |x| ensures y[i] == x[i] {
          assert x[..i][0] == ' ';
        }
        assert y[1..] == x[1..];
      } else {
        forall i | 0 <= i < |x[1..]|
          ensures y[1..][i] == (if x[1..][i] == ' ' && Count(x[1..][..i], ' ') == 0 then '\t' else x[1..][i])
        {
          assert x[..i + 1][1..] == x[1..][..i];
        }
        CountAfterFirstSpace(x[1..], y[1..]);
      }
    }
  }

  /** Line 202: the two `replaceFirst` calls. */
  function SplitColumns(s: String): String
  {
    FirstSpaceToTab(FirstSpaceToTab(s))
  }

  /**
   * Exactly the first two spaces of the line become tabs (fewer when it has fewer); every
   * other character stays as it is.
   */
  lemma SplitColumnsAt(s: String)
    ensures |SplitColumns(s)| == |s|
    ensures forall i :: 0 <= i < |s| ==>
      SplitColumns(s)[i] == (if s[i] == ' ' && Count(s[..i], ' ') < 2 then '\t' else s[i])
  {
    var once := FirstSpaceToTab(s);
    FirstSpaceToTabAt(s);
    FirstSpaceToTabAt(once);
    forall i | 0 <= i < |s|
      ensures SplitColumns(s)[i] == (if s[i] == ' ' && Count(s[..i], ' ') < 2 then '\t' else s[i])
    {
      forall j | 0 <= j < i
        ensures once[..i][j] == (if s[..i][j] == ' ' && Count(s[..i][..j], ' ') == 0 then '\t' else s[..i][j])
      {
        assert s[..i][..j] == s[..j];
      }
      CountAfterFirstSpace(s[..i], once[..i]);
    }
  }

  // ---------------------------------------------------------------------------------------
  // The year after every day-and-month date (line 203)

  /** `replaceAll("([0-9]{2}\\.[0-9]{2}\\.)", "$1" + year)` */
  function InjectYear(s: String, year: nat): String
  {
    ReplaceAll(s, DayMonth, Append(Decimal(year)))
  }

  /**
   * The rewrite is the left-to-right scan for `dd.dd.`: every match, taken without overlap,
   * is followed by the decimal year, and every other character is copied.
   */
  lemma InjectYearAfterEveryDate(s: String, year: nat)
    ensures var ts := Scan(DayMonth, s);
      Flatten(ts) == s && InjectYear(s, year) == Render(ts, Append(Decimal(year)))
  {
    ReplaceAllRendersScan(s, DayMonth, Append(Decimal(year)));
  }

  lemma DecimalYear()
    ensures Decimal(2020) == "2020"
  {
    assert Decimal(2) == "2";
    assert Decimal(20) == "20";
    assert Decimal(202) == "202";
  }

  /** The year is appended to a bare date. */
  lemma InjectYearBareDate()
    ensures InjectYear("15.03.", 2020) == "15.03.2020"
  {
    DecimalYear();
    var bare: String := "15.03.";
    assert MatchLen(DayMonth, bare) == 6;
    assert bare[..6] == bare && bare[6..] == [];
  }

  /** A date that already carries the year gets it appended a second time. */
  lemma InjectYearDatedDate()
    ensures InjectYear("15.03.2020", 2020) == "15.03.20202020"
  {
    DecimalYear();
    var y := Append("2020");
    var dated: String := "15.03.2020";
    assert MatchLen(DayMonth, dated) == 6;
    assert dated[6..] == "2020";
    NoDotNoDate("2020", y);
    ReplaceAllAtMatch(dated, DayMonth, y, "2020");
    DatedParts();
  }

  lemma DatedParts()
    ensures "15.03.2020"[..6] == "15.03." && "15.03." + "2020" + "2020" == "15.03.20202020"
  {
  }

  /** A text without a `.` holds no `dd.dd.` date. */
  lemma {:induction false} NoDotNoDate(s: String, r: Replacement)
    requires '.' !in s
    ensures ReplaceAll(s, DayMonth, r) == s
    decreases |s|
  {
    if s != [] {
      assert MatchLen(DayMonth, s) == 0 by {
        if |s| > 2 {
          assert s[2] in s;
        }
      }
      assert forall c :: c in s[1..] ==> c in s;
      NoDotNoDate(s[1..], r);
    }
  }

  /** So the year rewrite leaves a text without `.` as it is. */
  lemma NoDotNoYear(s: String, year: nat)
    requires '.' !in s
    ensures InjectYear(s, year) == s
  {
    NoDotNoDate(s, Append(Decimal(year)));
  }

  // ---------------------------------------------------------------------------------------
  // Split on tabs, trim each field, join again (lines 204-208)

  /** Fields joined by single tabs. */
  function JoinTabs(fs: seq<String>): String
  {
    if |fs| == 0 then []
    else if |fs| == 1 then fs[0]
    else fs[0] + Tab + JoinTabs(fs[1..])
  }

  /** All pieces between tabs, empty ones included: joining them gives the text back. */
  function SplitRaw(s: String): (fs: seq<String>)
    ensures |fs| >= 1
    ensures forall k :: 0 <= k < |fs| ==> '\t' !in fs[k]
    ensures JoinTabs(fs) == s
    decreases |s|
  {
    if s == [] then [[]]
    else
      var rest := SplitRaw(s[1..]);
      if s[0] == '\t' then
        assert JoinTabs([[]] + rest) == Tab + JoinTabs(rest) by {
          assert ([[]] + rest)[1..] == rest;
        }
        [[]] + rest
      else
        var fs := [[s[0]] + rest[0]] + rest[1..];
        assert JoinTabs(fs) == [s[0]] + JoinTabs(rest) by {
          if |rest| > 1 {
            assert fs[1..] == rest[1..];
          }
        }
        fs
  }

  lemma {:induction false} SplitRawField(x: String)
    requires '\t' !in x
    ensures SplitRaw(x) == [x]
    decreases |x|
  {
    if x != [] {
      SplitRawField(x[1..]);
      assert [x[0]] + x[1..] == x;
    }
  }

  lemma {:induction false} SplitRawPrepend(x: String, rest: String)
    requires '\t' !in x
    ensures SplitRaw(x + Tab + rest) == [x] + SplitRaw(rest)
    decreases |x|
  {
    var s := x + Tab + rest;
    if x == [] {
      assert s[1..] == rest;
    } else {
      assert s[1..] == x[1..] + Tab + rest;
      SplitRawPrepend(x[1..], rest);
      assert [x[0]] + x[1..] == x;
    }
  }

  /** Splitting fields joined by tabs gives the fields back. */
  lemma {:induction false} SplitJoin(fs: seq<String>)
    requires |fs| >= 1
    requires forall k :: 0 <= k < |fs| ==> '\t' !in fs[k]
    ensures SplitRaw(JoinTabs(fs)) == fs
  {
    if |fs| == 1 {
      SplitRawField(fs[0]);
    } else {
      SplitJoin(fs[1..]);
      SplitRawPrepend(fs[0], JoinTabs(fs[1..]));
      assert [fs[0]] + fs[1..] == fs;
    }
  }

  /** The limit-0 rule of `String.split`: trailing empty strings are removed. */
  function DropTrailingEmpty(fs: seq<String>): seq<String>
  {
    if fs == [] || fs[|fs| - 1] != [] then fs else DropTrailingEmpty(fs[..|fs| - 1])
  }

  /** Exactly the trailing empty fields go; the others stay, in order. */
  lemma {:induction false} DropTrailingEmptyKeeps(fs: seq<String>)
    ensures var r := DropTrailingEmpty(fs);
      |r| <= |fs| && (forall k :: 0 <= k < |r| ==> r[k] == fs[k])
      && (r == [] || r[|r| - 1] != [])
      && (forall k :: |r| <= k < |fs| ==> fs[k] == [])
  {
    if fs != [] && fs[|fs| - 1] == [] {
      DropTrailingEmptyKeeps(fs[..|fs| - 1]);
    }
  }

  /** `String.split("\t")`: a text without a tab is its only field, even when empty. */
  function SplitTabs(s: String): seq<String>
  {
    if s == [] then [[]] else DropTrailingEmpty(SplitRaw(s))
  }

  /** The fields of a split hold no tab. */
  lemma SplitTabsNoTab(s: String)
    ensures forall k :: 0 <= k < |SplitTabs(s)| ==> '\t' !in SplitTabs(s)[k]
  {
    if s != [] {
      DropTrailingEmptyKeeps(SplitRaw(s));
    }
  }

  /** The fields that come before the first one with any text after trimming. */
  function DropLeadingBlankFields(fs: seq<String>): seq<String>
  {
    if fs == [] || Trim(fs[0]) != [] then fs else DropLeadingBlankFields(fs[1..])
  }

  /** Exactly the leading fields that trim to nothing go; the others stay, in order. */
  lemma {:induction false} DropLeadingBlankFieldsKeeps(fs: seq<String>)
    ensures var r := DropLeadingBlankFields(fs);
      |r| <= |fs| && r == fs[|fs| - |r|..]
      && (r == [] || Trim(r[0]) != [])
      && (forall k :: 0 <= k < |fs| - |r| ==> Trim(fs[k]) == [])
  {
    if fs != [] && Trim(fs[0]) == [] {
      var r := DropLeadingBlankFields(fs[1..]);
      DropLeadingBlankFieldsKeeps(fs[1..]);
      DropDrop(fs, 1, |fs| - 1 - |r|);
      forall k | 0 < k < |fs| - |r| ensures Trim(fs[k]) == [] {
        assert Trim(fs[1..][k - 1]) == [];
      }
    }
  }

  function TrimAll(fs: seq<String>): (r: seq<String>)
    ensures |r| == |fs|
  {
    if fs == [] then [] else [Trim(fs[0])] + TrimAll(fs[1..])
  }

  lemma {:induction false} TrimAllAt(fs: seq<String>, k: nat)
    requires k < |fs|
    ensures TrimAll(fs)[k] == Trim(fs[k])
  {
    if k > 0 {
      TrimAllAt(fs[1..], k - 1);
    }
  }

  lemma {:induction false} TrimAllSnoc(fs: seq<String>, f: String)
    ensures TrimAll(fs + [f]) == TrimAll(fs) + [Trim(f)]
  {
    if fs == [] {
      assert fs + [f] == [f] && [f][1..] == [];
    } else {
      var t := fs + [f];
      assert t[0] == fs[0] && t[1..] == fs[1..] + [f];
      TrimAllSnoc(fs[1..], f);
      calc {
        TrimAll(t);
        [Trim(fs[0])] + TrimAll(fs[1..] + [f]);
        [Trim(fs[0])] + (TrimAll(fs[1..]) + [Trim(f)]);
        ([Trim(fs[0])] + TrimAll(fs[1..])) + [Trim(f)];
      }
    }
  }

  /**
   * Lines 204-208. The builder puts a tab in front of a field only when it already holds
   * text, so fields that trim to nothing before the first field with text leave no trace;
   * every later field is trimmed and follows a single tab.
   */
  function Rejoined(s: String): String
  {
    Joined(SplitTabs(s))
  }

  /** What the builder holds after the fields `fs`. */
  function Joined(fs: seq<String>): String
  {
    JoinTabs(TrimAll(DropLeadingBlankFields(fs)))
  }

  lemma {:induction false} JoinTabsSnoc(gs: seq<String>, g: String)
    requires gs != []
    ensures JoinTabs(gs + [g]) == JoinTabs(gs) + Tab + g
  {
    if |gs| > 1 {
      assert (gs + [g])[1..] == gs[1..] + [g];
      JoinTabsSnoc(gs[1..], g);
    }
  }

  lemma {:induction false} JoinTabsStart(gs: seq<String>)
    requires gs != []
    ensures |JoinTabs(gs)| >= |gs[0]| && JoinTabs(gs)[..|gs[0]|] == gs[0]
  {
  }

  /** One turn of the builder loop at lines 206-208. */
  lemma {:induction false} RejoinStep(fs: seq<String>, f: String)
    ensures Joined(fs + [f]) == Joined(fs) + (if |Joined(fs)| == 0 then [] else Tab) + Trim(f)
    decreases |fs|
  {
    if fs == [] {
      assert [] + [f] == [f];
    } else if Trim(fs[0]) == [] {
      assert (fs + [f])[1..] == fs[1..] + [f];
      RejoinStep(fs[1..], f);
    } else {
      var gs := TrimAll(fs);
      assert DropLeadingBlankFields(fs + [f]) == fs + [f];
      TrimAllSnoc(fs, f);
      JoinTabsSnoc(gs, Trim(f));
      JoinTabsStart(gs);
    }
  }

  /** The builder loop of lines 205-208 over the fields of the split. */
  method JoinTrimmed(fields: seq<String>) returns (r: String)
    ensures r == Joined(fields)
  {
    r := [];
    var k := 0;
    assert fields[..0] == [];
    while k < |fields|
      invariant k <= |fields|
      invariant r == Joined(fields[..k])
    {
      var field := fields[k];
      ghost var prefix := fields[..k];
      RejoinStep(prefix, field);
      PrefixSnoc(fields, k + 1);
      r := r + (if |r| == 0 then [] else Tab) + Trim(field);
      k := k + 1;
    }
    assert fields[..|fields|] == fields;
  }

  /** Lines 204-208: split on tabs, then trim and join the fields. */
  method Rejoin(s: String) returns (r: String)
    ensures r == Rejoined(s)
  {
    var split := SplitTabs(s);
    r := JoinTrimmed(split);
  }

  lemma KeptFieldHasNoTab(fs: seq<String>, k: nat)
    requires forall k :: 0 <= k < |fs| ==> '\t' !in fs[k]
    requires k < |DropLeadingBlankFields(fs)|
    ensures '\t' !in Trim(DropLeadingBlankFields(fs)[k])
  {
    var kept := DropLeadingBlankFields(fs);
    DropLeadingBlankFieldsKeeps(fs);
    assert kept[k] == fs[|fs| - |kept| + k];
    TrimKeepsOut(kept[k], '\t');
  }

  /** A field kept by the rejoin holds no tab. */
  lemma KeptFieldsHaveNoTab(fs: seq<String>)
    requires forall k :: 0 <= k < |fs| ==> '\t' !in fs[k]
    ensures forall k :: 0 <= k < |TrimAll(DropLeadingBlankFields(fs))| ==>
      '\t' !in TrimAll(DropLeadingBlankFields(fs))[k]
  {
    var kept := DropLeadingBlankFields(fs);
    forall k | 0 <= k < |kept| ensures '\t' !in TrimAll(kept)[k] {
      KeptFieldHasNoTab(fs, k);
      TrimAllAt(kept, k);
    }
  }

  /** No tab-separated field of `s` has leading or trailing whitespace. */
  predicate FieldsTrimmed(s: String)
  {
    forall f :: f in SplitRaw(s) ==> Trim(f) == f
  }

  /**
   * Splitting the rejoined text on tabs gives back exactly the trimmed fields, when there
   * are any: none has leading or trailing whitespace, none holds a tab.
   */
  lemma RejoinedFieldsTrimmed(s: String)
    ensures FieldsTrimmed(Rejoined(s))
    ensures TrimAll(DropLeadingBlankFields(SplitTabs(s))) != [] ==>
              SplitRaw(Rejoined(s)) == TrimAll(DropLeadingBlankFields(SplitTabs(s)))
  {
    var kept := DropLeadingBlankFields(SplitTabs(s));
    var gs := TrimAll(kept);
    if gs == [] {
      assert SplitRaw(Rejoined(s)) == [[]];
    } else {
      SplitTabsNoTab(s);
      KeptFieldsHaveNoTab(SplitTabs(s));
      SplitJoin(gs);
      assert SplitRaw(Rejoined(s)) == gs;
      forall k | 0 <= k < |gs| ensures Trim(gs[k]) == gs[k] {
        TrimAllAt(kept, k);
        TrimTrimmed(kept[k]);
      }
    }
  }

  // ---------------------------------------------------------------------------------------
  // A run of three spaces (lines 196-208)

  /** A text in which `a` is never followed by `b` does not contain `ab`. */
  lemma {:induction false} NoPairNoContains(s: String, a: char, b: char)
    requires forall i :: 0 <= i < |s| - 1 ==> s[i] != a || s[i + 1] != b
    ensures !Contains(s, [a, b])
    decreases |s|
  {
    if s != [] {
      if |s| >= 2 {
        assert s[..2][0] == s[0] && s[..2][1] == s[1];
      }
      forall i | 0 <= i < |s[1..]| - 1 ensures s[1..][i] != a || s[1..][i + 1] != b {
        assert s[1..][i] == s[i + 1];
      }
      NoPairNoContains(s[1..], a, b);
    }
  }

  /** A collapse loop whose pair does not occur does not change the text. */
  lemma CollapseAbsent(s: String, t: String, u: String)
    requires |u| < |t| && !Contains(s, t)
    ensures Collapse(s, t, u) == s
  {
  }

  /** One pass over `cc` copies a first character that does not start a match. */
  lemma PassKeep(x: char, t: String, c: char, r: Replacement)
    requires x != c || t == [] || t[0] != c
    ensures ReplaceAll([x] + t, Literal([c, c]), r) == [x] + ReplaceAll(t, Literal([c, c]), r)
  {
    var s := [x] + t;
    assert s[1..] == t;
    if |s| >= 2 {
      assert s[..2][0] == x && s[..2][1] == s[1];
    }
  }

  /** One pass over `cc` replaces a match at the start. */
  lemma PassHit(t: String, c: char, r: Replacement)
    ensures ReplaceAll([c, c] + t, Literal([c, c]), r) == Apply(r, [c, c]) + ReplaceAll(t, Literal([c, c]), r)
  {
    var s := [c, c] + t;
    assert s[..2] == [c, c] && s[2..] == t;
  }

  /** `replaceFirst(" ", "\t")` copies a first character that is not a space. */
  lemma FirstKeep(x: char, t: String)
    requires x != ' '
    ensures FirstSpaceToTab([x] + t) == [x] + FirstSpaceToTab(t)
  {
    var s := [x] + t;
    assert s[1..] == t && s[..1] == [x];
  }

  /** `replaceFirst(" ", "\t")` turns a leading space into a tab and stops. */
  lemma FirstHit(t: String)
    ensures FirstSpaceToTab([' '] + t) == Tab + t
  {
    var s := [' '] + t;
    assert s[1..] == t && s[..1] == " ";
  }

  /** Lines 196-201 on `a   b H`: the space pass turns two of the three spaces into one tab. */
  lemma ThreeSpacesCollapsed(s: String)
    requires s == "a   b H"
    ensures Collapsed(s) == "a\t b H"
  {
    SpacePassOnThreeSpaces();
    var once := "a\t b H";
    NoPairNoContains(once, '\t', '\t');
    CollapseAbsent(once, DoubleTab, Tab);
  }

  lemma SpacePassOnThreeSpaces()
    ensures Collapse("a   b H", DoubleSpace, Tab) == "a\t b H"
  {
    var tail: String := " b H";
    NoPairNoContains(tail, ' ', ' ');
    AbsentLiteralNoChange(tail, DoubleSpace, With(Tab));
    PassHit(tail, ' ', With(Tab));
    PassKeep('a', [' ', ' '] + tail, ' ', With(Tab));
    SpacesCollapseInOnePass("a   b H");
    CollapsedParts();
  }

  lemma CollapsedParts()
    ensures "a   b H" == ['a'] + ([' ', ' '] + " b H")
    ensures ['a'] + (Tab + " b H") == "a\t b H"
  {
  }

  /** Line 202 on `a\t b H`: the two remaining spaces become tabs. */
  lemma ThreeSpacesColumns()
    ensures SplitColumns("a\t b H") == "a\t\tb\tH"
  {
    FirstKeep('a', ['\t'] + ([' '] + "b H"));
    FirstKeep('\t', [' '] + "b H");
    FirstHit("b H");
    FirstKeep('a', ['\t'] + (['\t'] + (['b'] + ([' '] + "H"))));
    FirstKeep('\t', ['\t'] + (['b'] + ([' '] + "H")));
    FirstKeep('\t', ['b'] + ([' '] + "H"));
    FirstKeep('b', [' '] + "H");
    FirstHit("H");
    ColumnsParts();
  }

  lemma ColumnsParts()
    ensures "a\t b H" == ['a'] + (['\t'] + ([' '] + "b H"))
    ensures ['a'] + (['\t'] + (Tab + "b H")) == ['a'] + (['\t'] + (['\t'] + (['b'] + ([' '] + "H"))))
    ensures ['a'] + (['\t'] + (['\t'] + (['b'] + (Tab + "H")))) == "a\t\tb\tH"
  {
  }

  lemma JoinCons(g: String, gs: seq<String>)
    requires gs != []
    ensures JoinTabs([g] + gs) == g + Tab + JoinTabs(gs)
  {
    assert ([g] + gs)[1..] == gs;
  }

  /**
   * Fields that are tab-free and already trimmed, whose first field does not trim away and
   * whose last field is not empty, come back unchanged from the split and rejoin.
   */
  lemma RejoinKeepsTrimmedFields(fs: seq<String>)
    requires |fs| >= 1 && Trim(fs[0]) != [] && fs[|fs| - 1] != []
    requires forall k :: 0 <= k < |fs| ==> '\t' !in fs[k] && Trim(fs[k]) == fs[k]
    ensures Rejoined(JoinTabs(fs)) == JoinTabs(fs)
  {
    SplitTabsOfJoin(fs);
    assert DropLeadingBlankFields(fs) == fs;
    TrimAllTrimmed(fs);
  }

  lemma SplitTabsOfJoin(fs: seq<String>)
    requires |fs| >= 1 && fs[0] != [] && fs[|fs| - 1] != []
    requires forall k :: 0 <= k < |fs| ==> '\t' !in fs[k]
    ensures SplitTabs(JoinTabs(fs)) == fs
  {
    SplitJoin(fs);
    JoinTabsStart(fs);
  }

  lemma TrimAllTrimmed(fs: seq<String>)
    requires forall k :: 0 <= k < |fs| ==> Trim(fs[k]) == fs[k]
    ensures TrimAll(fs) == fs
  {
    forall k | 0 <= k < |fs| ensures TrimAll(fs)[k] == fs[k] {
      TrimAllAt(fs, k);
    }
  }

  /** Lines 204-208 on `a\t\tb\tH`: the fields `a`, ``, `b`, `H` are all kept and joined again. */
  lemma EmptyFieldRejoined()
    ensures Rejoined("a\t\tb\tH") == "a\t\tb\tH"
  {
    var fs: seq<String> := ["a", "", "b", "H"];
    JoinCons("a", ["", "b", "H"]);
    JoinCons("", ["b", "H"]);
    JoinCons("b", ["H"]);
    JoinedParts();
    RejoinKeepsTrimmedFields(fs);
  }

  lemma JoinedParts()
    ensures "a" + Tab + ("" + Tab + ("b" + Tab + JoinTabs(["H"]))) == "a\t\tb\tH"
  {
  }

  /**
   * Lines 196-208 on `a   b H`: a run of three spaces leaves a space behind its tab, the
   * column split turns that space into a second tab, and the value holds an empty field.
   */
  lemma ThreeSpacesLeaveEmptyField()
    ensures Normalised("a   b H", 2020) == "a\t\tb\tH"
  {
    var c := Collapsed("a   b H");
    ThreeSpacesCollapsed("a   b H");
    var d := SplitColumns(c);
    ThreeSpacesColumns();
    var e := InjectYear(d, 2020);
    NoDotInColumns("a\t\tb\tH");
    NoDotNoYear("a\t\tb\tH", 2020);
    EmptyFieldRejoined();
  }

  lemma NoDotInColumns(s: String)
    requires s == "a\t\tb\tH"
    ensures '.' !in s
  {
  }

  /** A value holding two adjacent tabs changes under another collapse. */
  lemma TabRunNotStable(v: String)
    requires Contains(v, DoubleTab)
    ensures Collapsed(v) != v
  {
    CollapsedHasNoRuns(v);
  }

  /** That value is not stable: collapsing it again merges its two tabs. */
  lemma NormalisedNotStable()
    ensures Collapsed(Normalised("a   b H", 2020)) != Normalised("a   b H", 2020)
  {
    var v: String := "a\t\tb\tH";
    assert v[1..3] == DoubleTab;
    ContainsAt(v, DoubleTab, 1);
    TabRunNotStable(v);
    ThreeSpacesLeaveEmptyField();
  }

  // ---------------------------------------------------------------------------------------
  // A line with a reference code in its last column (lines 196-208)

  /**
   * Lines 196-208 on `a b c PN:123H`: with no run of blanks and no date, only the first two
   * spaces change, and the reference code stays in the last field with the space before it.
   */
  lemma ReferenceLineNormalised(year: nat)
    ensures Normalised("a b c PN:123H", year) == "a\tb\tc PN:123H"
  {
    ReferenceLineCollapsed("a b c PN:123H");
    ReferenceLineColumns();
    NoDotInReferenceLine("a\tb\tc PN:123H");
    NoDotNoYear("a\tb\tc PN:123H", year);
    ReferenceLineRejoined();
  }

  lemma ReferenceLineCollapsed(s: String)
    requires s == "a b c PN:123H"
    ensures Collapsed(s) == s
  {
    NoPairNoContains(s, ' ', ' ');
    CollapseAbsent(s, DoubleSpace, Tab);
    NoPairNoContains(s, '\t', '\t');
    CollapseAbsent(s, DoubleTab, Tab);
  }

  lemma ReferenceLineColumns()
    ensures SplitColumns("a b c PN:123H") == "a\tb\tc PN:123H"
  {
    FirstKeep('a', [' '] + "b c PN:123H");
    FirstHit("b c PN:123H");
    FirstKeep('a', ['\t'] + (['b'] + ([' '] + "c PN:123H")));
    FirstKeep('\t', ['b'] + ([' '] + "c PN:123H"));
    FirstKeep('b', [' '] + "c PN:123H");
    FirstHit("c PN:123H");
    ReferenceLineParts();
  }

  lemma ReferenceLineParts()
    ensures "a b c PN:123H" == ['a'] + ([' '] + "b c PN:123H")
    ensures ['a'] + (Tab + "b c PN:123H") == ['a'] + (['\t'] + (['b'] + ([' '] + "c PN:123H")))
    ensures ['a'] + (['\t'] + (['b'] + (Tab + "c PN:123H"))) == "a\tb\tc PN:123H"
  {
  }

  lemma NoDotInReferenceLine(s: String)
    requires s == "a\tb\tc PN:123H"
    ensures '.' !in s
  {
  }

  lemma ReferenceLineRejoined()
    ensures Rejoined("a\tb\tc PN:123H") == "a\tb\tc PN:123H"
  {
    var fs: seq<String> := ["a", "b", "c PN:123H"];
    JoinCons("a", ["b", "c PN:123H"]);
    JoinCons("b", ["c PN:123H"]);
    ReferenceJoinedParts();
    RejoinKeepsTrimmedFields(fs);
  }

  lemma ReferenceJoinedParts()
    ensures "a" + Tab + ("b" + Tab + JoinTabs(["c PN:123H"])) == "a\tb\tc PN:123H"
  {
  }

  // ---------------------------------------------------------------------------------------
  // The whole normalisation (lines 196-208)

  /** The value recorded for an accepted line, with `year` the statement year known at that line. */
  function Normalised(line: String, year: nat): String
  {
    Rejoined(InjectYear(SplitColumns(Collapsed(line)), year))
  }

  /** Lines 196-208 in order: both collapse loops, the column split, the year, the rejoin. */
  method Normalise(line: String, year: nat) returns (value: String)
    ensures value == Normalised(line, year)
  {
    var l := CollapseRuns(line, DoubleSpace, Tab);
    l := CollapseRuns(l, DoubleTab, Tab);
    l := SplitColumns(l);
    l := InjectYear(l, year);
    value := Rejoin(l);
  }

  /** A character a whitespace pass, the column split and the year injection never produce at the end. */
  predicate IsMarkerLike(c: char)
  {
    !IsTrimmable(c) && c != '.' && !IsDigit(c)
  }

  lemma {:induction false} CollapseKeepsLast(s: String, t: String, u: String, c: char)
    requires |u| < |t| && t[|t| - 1] != c
    requires EndsIn(s, c)
    ensures EndsIn(Collapse(s, t, u), c)
    decreases |s|
  {
    if Contains(s, t) {
      ReplaceLiteralShrinks(s, t, u);
      ReplaceAllKeepsLast(s, Literal(t), With(u), c);
      CollapseKeepsLast(ReplaceAll(s, Literal(t), With(u)), t, u, c);
    }
  }

  /** The last piece between tabs ends where the text ends. */
  lemma {:induction false} SplitRawLast(s: String, c: char)
    requires EndsIn(s, c) && c != '\t'
    ensures EndsIn(SplitRaw(s)[|SplitRaw(s)| - 1], c)
    decreases |s|
  {
    var rest := SplitRaw(s[1..]);
    if |s| > 1 {
      SplitRawLast(s[1..], c);
    }
  }

  lemma {:induction false} JoinTabsEnd(gs: seq<String>, c: char)
    requires gs != [] && EndsIn(gs[|gs| - 1], c)
    ensures EndsIn(JoinTabs(gs), c)
  {
    if |gs| > 1 {
      assert gs[1..][|gs| - 2] == gs[|gs| - 1];
      JoinTabsEnd(gs[1..], c);
    }
  }

  lemma SplitTabsLast(s: String, c: char)
    requires EndsIn(s, c) && c != '\t'
    ensures SplitTabs(s) == SplitRaw(s)
  {
    SplitRawLast(s, c);
  }

  lemma KeptLast(fs: seq<String>, c: char)
    requires fs != [] && EndsIn(fs[|fs| - 1], c) && !IsTrimmable(c)
    ensures DropLeadingBlankFields(fs) != []
    ensures EndsIn(DropLeadingBlankFields(fs)[|DropLeadingBlankFields(fs)| - 1], c)
  {
    DropLeadingBlankFieldsKeeps(fs);
    assert Trim(fs[|fs| - 1]) != [];
  }

  lemma TrimmedLast(kept: seq<String>, c: char)
    requires kept != [] && EndsIn(kept[|kept| - 1], c) && !IsTrimmable(c)
    ensures TrimAll(kept) != [] && EndsIn(TrimAll(kept)[|TrimAll(kept)| - 1], c)
  {
    TrimAllAt(kept, |kept| - 1);
  }

  /** The rejoin keeps the last character when it is not whitespace. */
  lemma RejoinedKeepsLast(s: String, c: char)
    requires EndsIn(s, c) && !IsTrimmable(c)
    ensures EndsIn(Rejoined(s), c)
  {
    var raw := SplitRaw(s);
    SplitRawLast(s, c);
    SplitTabsLast(s, c);
    KeptLast(raw, c);
    var kept := DropLeadingBlankFields(raw);
    TrimmedLast(kept, c);
    var gs := TrimAll(kept);
    JoinTabsEnd(gs, c);
    assert Rejoined(s) == JoinTabs(gs);
  }

  /**
   * A line that ends in a marker such as `H` or `S` still ends in it once normalised: the
   * final field keeps the letter, so the row finaliser sees the same marker.
   */
  lemma NormalisedKeepsMarker(line: String, year: nat, c: char)
    requires EndsIn(line, c) && IsMarkerLike(c)
    ensures EndsIn(Normalised(line, year), c)
  {
    var once := Collapse(line, DoubleSpace, Tab);
    CollapseKeepsLast(line, DoubleSpace, Tab, c);
    CollapseKeepsLast(once, DoubleTab, Tab, c);
    var collapsed := Collapsed(line);
    ReplaceFirstKeepsLast(collapsed, Literal(" "), With(Tab), c);
    ReplaceFirstKeepsLast(FirstSpaceToTab(collapsed), Literal(" "), With(Tab), c);
    var split := SplitColumns(collapsed);
    ReplaceAllKeepsLast(split, DayMonth, Append(Decimal(year)), c);
    RejoinedKeepsLast(InjectYear(split, year), c);
  }
}
