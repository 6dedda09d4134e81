# vrbank statement parser, modelled in Dafny

The statement parser reads bank statements of the Volksbank Raiffeisenbank as text lines
and turns each transaction into a tab-separated row. This project models its core, in
`src/main/java/StatementParser.java`, in two parts.

- **Extraction (`CashLineExtractor.get`).** One pass runs over a document's lines.
  - The first line whose trimmed text is `M/yyyy` and parses fixes the statement year.
    Until then the year is today's.
  - Every line that ends in `H` (credit), or in `S` (debit) without containing
    `SOLLZINSEN`, and that does not start with a space, is normalised:
    - space runs become tabs;
    - double tabs are collapsed;
    - the first two remaining spaces become tabs;
    - the year is appended to every `dd.dd.`;
    - the text is split on tabs, each field is trimmed, and the fields are joined again.
  - The normalised line becomes a record, keyed by the next two lines.
- **Finalisation (the end of `main`).** The records of all documents are concatenated in
  file order. Each record becomes a row:
  - every `" " + marker` and every `PN:ddd` is removed, and the text is trimmed;
  - a debit gets a `-` in front of every amount;
  - the key is appended.

  The row is printed and added to its marker's list.

Files:

- `text.dfy` (module `Text`): the Java `String` operations used (`trim`, `startsWith`,
  `endsWith`, `contains`, `Integer.toString`).
- `rewrite.dfy` (module `Rewrite`): the literal targets and the four fixed regular
  expressions as hand-written matchers. It also holds the left-to-right, non-overlapping
  scan behind `replace`, `replaceAll` and `replaceFirst`.
- `normaliser.dfy` (module `LineNormaliser`): the rewrites of lines 196-208.
- `extractor.dfy` (module `CashLineExtractor`): the loop of `get`.
- `finaliser.dfy` (module `RowFinaliser`): the row loop of `main` and the run over all
  documents.

The loops of the source are methods with loop invariants:

- `get` is `Get`. The body it runs for one line is the method `Step`.
- The two collapse loops are `CollapseRuns`, and the rejoin loop is `JoinTrimmed`.
- The row loop is `Finalise`. The body it runs for one record is the method `FinaliseRow`.
- The loop over documents is `Run`.

Each is proved equal to a specification function. The lemmas about those functions state
what the program does.

Two Java tests are written out by hand:

- A one-character `endsWith` or `startsWith` tests the last or first character (`EndsIn`,
  `StartsIn`).
- The pattern `[0-9]{1,2}/([0-9]{4})` on line 187 is checked position by position
  (`IsMonthYear`).

The model follows the code as written, including behaviour a reader might not expect:

- Line 194 reads as `endsWith("H") || (endsWith("S") && !contains("SOLLZINSEN"))`.
  A credit line that mentions `SOLLZINSEN` is kept. Both marker tests and the test for a
  leading space look at the untrimmed line.
- Year injection has no look-ahead. A date that already carries a year gets the year a
  second time (`InjectYearDatedDate`).
- The rejoin adds a tab only once the builder is non-empty. Leading fields that trim to
  nothing therefore vanish. `split` drops trailing empty fields, but `""` splits to `[""]`.
- The normalised value can hold an empty field, and it is not stable under another
  collapse. A run of three spaces becomes a tab and a space; line 202 then turns that
  space into a second tab, so `a   b H` gives `a\t\tb\tH` (`ThreeSpacesLeaveEmptyField`,
  `NormalisedNotStable`).
- The year is written with `Integer.toString`, so `5/0021` gives `21`, with no leading
  zeros.
- Marker removal and `PN:ddd` removal are single left-to-right passes. Neither guarantees
  that the result is free of what was removed. The line `a b c PN:123H` gives the row text
  `a\tb\tc H`, because the marker pass runs before the reference code is removed
  (`MarkerRemovalCanLeaveMarker`, `RefCodeRemovalCanLeaveRefCode`).
- The sign pass does not look at what precedes an amount, so `-1,00` becomes `--1,00`
  (`SignPassDoublesMinus`).
- `lines.get(i + 1)` and `lines.get(i + 2)` are unchecked. An accepted line among the last
  two lines throws an `IndexOutOfBoundsException`, which `main` does not catch, and the run
  ends before the header is printed. The model returns this as a value:
  `MissingLookahead(line)` for a document and `Aborted(document, line)` for a run.

## Model

| member | source | states |
|---|---|---|
| Text.Trim | src/main/java/StatementParser.java:187 | `trim` leaves an empty text or one with a non-whitespace character at each end; a text already in that form is unchanged; a non-whitespace last character survives |
| Text.TrimSlice | src/main/java/StatementParser.java:207 | `trim` returns a slice of the text whose cut-off ends are all characters up to U+0020; with the shape `Trim` ensures, that slice is the largest such one |
| Text.TrimEmpty | src/main/java/StatementParser.java:205-208 | a text trims to nothing exactly when every character is whitespace |
| Text.TrimTrimmed | src/main/java/StatementParser.java:205-208 | trimming twice is trimming once |
| Text.TrimKeepsOut | src/main/java/StatementParser.java:205-208 | trimming brings in no character, so a tab-free field stays tab-free |
| Text.StartsWith | src/main/java/StatementParser.java:90 | defines `startsWith`: the text begins with the target; the literal match of `replace` and `contains` are built on it |
| Text.EndsWith | src/main/java/StatementParser.java:89 | defines `endsWith`: the text ends with the target; the marker test `HasMarker` is built on it |
| Text.StartsIn | src/main/java/StatementParser.java:195 | defines a one-character `startsWith`: the text is non-empty and its first character is that one |
| Text.EndsIn | src/main/java/StatementParser.java:194 | defines a one-character `endsWith`: the text is non-empty and its last character is that one |
| Text.Contains | src/main/java/StatementParser.java:194-201 | defines `contains`: the target starts at some position; stated by `ContainsAt` and `ContainsNeedsRoom` |
| Text.ContainsAt | src/main/java/StatementParser.java:196-201 | an occurrence at any position makes `contains` true |
| Text.ContainsNeedsRoom | src/main/java/StatementParser.java:194 | a text shorter than the target never contains it |
| Text.DigitValue | src/main/java/StatementParser.java:187-189 | each digit character has a value below ten, which writes back as that character |
| Text.ValueOfFour | src/main/java/StatementParser.java:187-189 | four digits denote the number they spell, most significant first |
| Text.Decimal | src/main/java/StatementParser.java:203 | the year as `Integer.toString` writes it: digits only, denoting the year, with no leading zero |
| Text.NonBlankAppend | src/main/java/StatementParser.java:196-201 | the non-blank characters of two joined texts are those of each, in order |
| Rewrite.Apply | src/main/java/StatementParser.java:92 | defines the replacement of a match: the empty text for the removals, the match followed by the year for `"$1" + year`, `-` followed by the match for `"-$1"` |
| Rewrite.DigitsThenUnique | src/main/java/StatementParser.java:92 | digits ended by a period or a comma fix how many there are and which of the two ends them |
| Rewrite.AmountTailLen | src/main/java/StatementParser.java:92 | the greedy `[0-9]{1,3},[0-9]{2}` at a position: 4 to 6 characters ending in a digit, or 0; stated by `AmountTailMatches` |
| Rewrite.AmountTailMatches | src/main/java/StatementParser.java:92 | the length found is a slice that is exactly `[0-9]{1,3},[0-9]{2}`, and no other slice at that position is one |
| Rewrite.GroupThenTail | src/main/java/StatementParser.java:92 | after a leading group of digits and a period, an amount prefix is that group and an exact tail |
| Rewrite.AmountGroupMatches | src/main/java/StatementParser.java:92 | when the text opens with a group, the tail after it gives the one amount prefix, and none exists when that tail does not match |
| Rewrite.AmountWithoutGroup | src/main/java/StatementParser.java:92 | without a leading group, every amount prefix is a bare tail |
| Rewrite.AmountLen | src/main/java/StatementParser.java:92 | a non-zero length is at most 10 and the prefix of that length matches `([0-9]{1,3}\.)?[0-9]{1,3},[0-9]{2}` exactly; every matching prefix has that length, so 0 means none matches |
| Rewrite.MatchLen | src/main/java/StatementParser.java:90-92 | a match of each pattern lies inside the text and ends in a character that pattern can end in |
| Rewrite.ReplaceAll | src/main/java/StatementParser.java:90-92 | defines `replace` and `replaceAll`: at each position a match is replaced and the scan resumes after it, otherwise the character is copied; its meaning is stated by `ReplaceAllRendersScan`, `KeepFirst` and `ReplaceAllAtMatch` |
| Rewrite.ReplaceFirst | src/main/java/StatementParser.java:202 | defines `replaceFirst`: the first match found left to right is replaced and the rest copied; its meaning is stated by `FirstSpaceToTabAt` |
| Rewrite.Scan | src/main/java/StatementParser.java:203 | the left-to-right segmentation covers the text exactly; each token is a whole match exactly where the pattern matches |
| Rewrite.ReplaceAllRendersScan | src/main/java/StatementParser.java:90-92 | `replaceAll` replaces each match of that segmentation and copies every other character |
| Rewrite.NoMatchNoChange | src/main/java/StatementParser.java:203 | a pattern that matches nowhere leaves the text unchanged |
| Rewrite.KeepFirst | src/main/java/StatementParser.java:90 | where the pattern does not match at the start, `replaceAll` copies the first character and rewrites the rest |
| Rewrite.ReplaceAllAtMatch | src/main/java/StatementParser.java:203 | where it matches at the start, the match is replaced and the rest rewritten after it |
| Rewrite.ReplaceAllKeepsLast | src/main/java/StatementParser.java:197 | a last character no match can end in is kept last by `replaceAll` |
| Rewrite.ReplaceFirstKeepsLast | src/main/java/StatementParser.java:202 | the same for `replaceFirst` |
| LineNormaliser.AbsentLiteralNoChange | src/main/java/StatementParser.java:196-201 | `replace` of a target the text does not contain changes nothing |
| LineNormaliser.ReplaceLiteralShrinks | src/main/java/StatementParser.java:196-201 | a pass that replaces a target by a shorter text never lengthens the line, and strictly shortens it while the target occurs, so the loops end |
| LineNormaliser.Collapse | src/main/java/StatementParser.java:196-201 | repeating the pass until the target is gone leaves no occurrence of it and no longer text |
| LineNormaliser.CollapseRuns | src/main/java/StatementParser.java:196-201 | the `while` loop computes that fixed point and leaves no occurrence of the target |
| LineNormaliser.FirstAfterPass | src/main/java/StatementParser.java:196-201 | after one pass the line starts with the replacement exactly when it started with the target, else with its old first character |
| LineNormaliser.SpacePassLeavesNoDoubleSpace | src/main/java/StatementParser.java:196-198 | one pass of `replace("  ", "\t")` already leaves no double space |
| LineNormaliser.SpacesCollapseInOnePass | src/main/java/StatementParser.java:196-198 | so the first loop runs its body at most once |
| LineNormaliser.TabPassKeepsNoDoubleSpace | src/main/java/StatementParser.java:199-201 | one pass over double tabs brings no double space back |
| LineNormaliser.TabCollapseKeepsNoDoubleSpace | src/main/java/StatementParser.java:199-201 | collapsing tabs cannot bring a double space back |
| LineNormaliser.BlankPassKeepsText | src/main/java/StatementParser.java:196-201 | a pass that replaces blanks by blanks keeps the non-blank characters in order |
| LineNormaliser.CollapseKeepsText | src/main/java/StatementParser.java:196-201 | the collapse loops change only spaces and tabs; the other characters stay, in order |
| LineNormaliser.Collapsed | src/main/java/StatementParser.java:196-201 | defines the two collapse loops in order, spaces first; stated by `CollapsedHasNoRuns` |
| LineNormaliser.CollapsedHasNoRuns | src/main/java/StatementParser.java:196-201 | after both loops the line has no double space, no double tab, and the same non-blank text; the exact result is pinned by `CollapseRuns`, `SpacesCollapseInOnePass` and `ReplaceAllRendersScan` |
| LineNormaliser.FirstSpaceToTab | src/main/java/StatementParser.java:202 | defines one `replaceFirst(" ", "\t")`; stated by `FirstSpaceToTabAt` and `CountAfterFirstSpace` |
| LineNormaliser.FirstSpaceToTabAt | src/main/java/StatementParser.java:202 | one `replaceFirst(" ", "\t")` turns exactly the first space into a tab and keeps every other character |
| LineNormaliser.CountAfterFirstSpace | src/main/java/StatementParser.java:202 | that step removes exactly one space when there is one |
| LineNormaliser.SplitColumns | src/main/java/StatementParser.java:202 | defines the two `replaceFirst(" ", "\t")` calls; stated by `SplitColumnsAt` |
| LineNormaliser.SplitColumnsAt | src/main/java/StatementParser.java:202 | the two `replaceFirst` calls turn exactly the first two spaces (fewer if fewer exist) into tabs, keeping the length and all other characters |
| LineNormaliser.InjectYear | src/main/java/StatementParser.java:203 | defines the `replaceAll` that appends the year to each `dd.dd.`; stated by `InjectYearAfterEveryDate` |
| LineNormaliser.InjectYearAfterEveryDate | src/main/java/StatementParser.java:203 | every non-overlapping `dd.dd.` found left to right is followed by the decimal year; all else is copied |
| LineNormaliser.InjectYearBareDate | src/main/java/StatementParser.java:203 | `15.03.` with year 2020 becomes `15.03.2020` |
| LineNormaliser.NoDotNoDate | src/main/java/StatementParser.java:203 | a text without `.` holds no date, so the rewrite leaves it as it is |
| LineNormaliser.NoDotNoYear | src/main/java/StatementParser.java:203 | so the year rewrite leaves a text without `.` unchanged, whatever the year |
| LineNormaliser.InjectYearDatedDate | src/main/java/StatementParser.java:203 | `15.03.2020` becomes `15.03.20202020`: the rewrite is not idempotent |
| LineNormaliser.NoPairNoContains | src/main/java/StatementParser.java:196-201 | a text in which one character is never followed by another does not contain that pair |
| LineNormaliser.PassKeep | src/main/java/StatementParser.java:196-198 | a pass over a doubled character copies a first character that does not start the pair |
| LineNormaliser.PassHit | src/main/java/StatementParser.java:196-198 | a pass over a doubled character replaces the pair at the start and rewrites the rest |
| LineNormaliser.FirstKeep | src/main/java/StatementParser.java:202 | `replaceFirst(" ", "\t")` copies a first character that is not a space |
| LineNormaliser.FirstHit | src/main/java/StatementParser.java:202 | `replaceFirst(" ", "\t")` turns a leading space into a tab and copies the rest |
| LineNormaliser.CollapseAbsent | src/main/java/StatementParser.java:196-201 | a collapse loop whose pair does not occur leaves the text as it is |
| LineNormaliser.JoinCons | src/main/java/StatementParser.java:205-208 | a join of several fields is the first field, a tab, and the join of the rest |
| LineNormaliser.RejoinKeepsTrimmedFields | src/main/java/StatementParser.java:204-208 | tab-free, already trimmed fields, with a first field that does not trim away and a non-empty last field, come back unchanged from the split and rejoin |
| LineNormaliser.ThreeSpacesCollapsed | src/main/java/StatementParser.java:196-201 | `a   b H` collapses to `a\t b H`: a run of three spaces leaves a space behind |
| LineNormaliser.ThreeSpacesColumns | src/main/java/StatementParser.java:202 | `a\t b H` becomes `a\t\tb\tH`: the left-over space becomes a second tab |
| LineNormaliser.EmptyFieldRejoined | src/main/java/StatementParser.java:204-208 | `a\t\tb\tH` rejoins to itself: its empty field is kept |
| LineNormaliser.ThreeSpacesLeaveEmptyField | src/main/java/StatementParser.java:196-208 | the line `a   b H` is normalised to `a\t\tb\tH`, a value with an empty field |
| LineNormaliser.TabRunNotStable | src/main/java/StatementParser.java:196-201 | a value holding two adjacent tabs is changed by another collapse |
| LineNormaliser.NormalisedNotStable | src/main/java/StatementParser.java:196-208 | so the normalised value of `a   b H` is not stable under another collapse |
| LineNormaliser.ReferenceLineNormalised | src/main/java/StatementParser.java:196-208 | the line `a b c PN:123H` is normalised to `a\tb\tc PN:123H` for every year: only its first two spaces change |
| LineNormaliser.SplitRaw | src/main/java/StatementParser.java:204 | splitting on tabs yields at least one field, no field holds a tab, and joining the fields with tabs gives the text back |
| LineNormaliser.SplitRawField | src/main/java/StatementParser.java:204 | a text without a tab splits into itself alone |
| LineNormaliser.SplitRawPrepend | src/main/java/StatementParser.java:204 | a tab-free field and a tab in front of a text add that field in front of its split |
| LineNormaliser.SplitJoin | src/main/java/StatementParser.java:204 | splitting fields joined by tabs gives the fields back |
| LineNormaliser.SplitTabs | src/main/java/StatementParser.java:204 | defines `split("\t")`: the raw split without its trailing empty fields; stated by `SplitTabsNoTab` and `DropTrailingEmptyKeeps` |
| LineNormaliser.DropTrailingEmpty | src/main/java/StatementParser.java:204 | defines `split`'s removal of trailing empty fields; stated by `DropTrailingEmptyKeeps` |
| LineNormaliser.DropTrailingEmptyKeeps | src/main/java/StatementParser.java:204 | `split` drops exactly the trailing empty fields: what is left is a prefix that is empty or ends in a non-empty field, and every dropped field is empty |
| LineNormaliser.SplitTabsNoTab | src/main/java/StatementParser.java:204 | `split("\t")` yields tab-free fields |
| LineNormaliser.DropLeadingBlankFields | src/main/java/StatementParser.java:205-207 | defines the fields the builder skips while it is still empty, those that trim to nothing; stated by `DropLeadingBlankFieldsKeeps` |
| LineNormaliser.DropLeadingBlankFieldsKeeps | src/main/java/StatementParser.java:205-208 | the builder skips exactly the leading fields that trim to nothing: what is kept is a suffix that is empty or starts with a field that does not trim to nothing |
| LineNormaliser.RejoinStep | src/main/java/StatementParser.java:206-207 | appending a field adds a tab only when the builder is non-empty, then the trimmed field |
| LineNormaliser.TrimAll | src/main/java/StatementParser.java:207 | defines the `trim` of every kept field; stated by `TrimAllAt` and `TrimAllSnoc` |
| LineNormaliser.TrimAllAt | src/main/java/StatementParser.java:205-208 | field `k` of the trimmed fields is field `k`, trimmed |
| LineNormaliser.TrimAllSnoc | src/main/java/StatementParser.java:205-208 | trimming one more field appends its trimmed text |
| LineNormaliser.JoinTabs | src/main/java/StatementParser.java:205-208 | defines the fields joined with a tab between each two; stated by `JoinTabsSnoc`, `JoinTabsStart`, `JoinTabsEnd` and `SplitJoin` |
| LineNormaliser.JoinTabsSnoc | src/main/java/StatementParser.java:205-208 | joining one more field appends a tab and that field |
| LineNormaliser.JoinTabsStart | src/main/java/StatementParser.java:205-208 | a join of fields starts with the first field |
| LineNormaliser.Joined | src/main/java/StatementParser.java:205-208 | defines what the builder holds after a sequence of fields; stated by `JoinTrimmed` and `RejoinStep` |
| LineNormaliser.Rejoined | src/main/java/StatementParser.java:204-208 | defines the split followed by the rejoin loop; stated by `Rejoin` and `RejoinedFieldsTrimmed` |
| LineNormaliser.JoinTrimmed | src/main/java/StatementParser.java:205-208 | the append loop builds the trimmed kept fields joined by single tabs |
| LineNormaliser.Rejoin | src/main/java/StatementParser.java:204-208 | split, trim and rejoin as one step |
| LineNormaliser.KeptFieldHasNoTab | src/main/java/StatementParser.java:205-208 | a kept field trims to a tab-free text |
| LineNormaliser.KeptFieldsHaveNoTab | src/main/java/StatementParser.java:205-208 | no rejoined field holds a tab |
| LineNormaliser.RejoinedFieldsTrimmed | src/main/java/StatementParser.java:204-208 | no field of the rejoined text has leading or trailing whitespace; when some field is kept, splitting the rejoined text on tabs gives back exactly the kept fields, trimmed |
| LineNormaliser.Normalised | src/main/java/StatementParser.java:196-208 | defines the whole rewrite of an accepted line; stated by `Normalise`, `NormalisedKeepsMarker` and `ThreeSpacesLeaveEmptyField` |
| LineNormaliser.Normalise | src/main/java/StatementParser.java:196-208 | the rewrites run in the source's order (both collapse loops, the column split, the year, the rejoin) and yield the normalised value |
| LineNormaliser.CollapseKeepsLast | src/main/java/StatementParser.java:196-201 | a last character no collapse target ends in stays last |
| LineNormaliser.SplitRawLast | src/main/java/StatementParser.java:204 | the last field of the split ends in the text's last character when that is not a tab |
| LineNormaliser.SplitTabsLast | src/main/java/StatementParser.java:204 | a text ending in a non-tab has no trailing empty field to drop |
| LineNormaliser.JoinTabsEnd | src/main/java/StatementParser.java:205-208 | a join ends in the last character of its last field |
| LineNormaliser.KeptLast | src/main/java/StatementParser.java:205-208 | a last field ending in a non-whitespace character is kept, and still last |
| LineNormaliser.TrimmedLast | src/main/java/StatementParser.java:205-208 | trimming keeps that character at the end of the last field |
| LineNormaliser.RejoinedKeepsLast | src/main/java/StatementParser.java:204-208 | the rejoin keeps a non-whitespace last character last |
| LineNormaliser.NormalisedKeepsMarker | src/main/java/StatementParser.java:194-208 | a line ending in a marker such as `H` or `S` still ends in it after normalisation |
| CashLineExtractor.IsMonthYear | src/main/java/StatementParser.java:187 | defines `trim().matches("[0-9]{1,2}/([0-9]{4})")`, position by position; stated by `DateLineIsNoTransaction` and `ParseYearSamples` |
| CashLineExtractor.ParseYear | src/main/java/StatementParser.java:187-189 | a parse that succeeds yields a year from 1 to 9999 |
| CashLineExtractor.ParseYearMeaning | src/main/java/StatementParser.java:187-189 | the digits before the slash are the month and the four after it the year; the parse yields that year exactly when the month is 1 to 12 and the year is at least 1, and fails otherwise |
| CashLineExtractor.ParseYearSamples | src/main/java/StatementParser.java:187-192 | `5/2021` gives 2021, `05/0021` gives 21, month 13 and year 0 fail |
| CashLineExtractor.IsTransactionLine | src/main/java/StatementParser.java:194 | defines the marker test as Java groups it; stated by `KindOfRecordLine` and `ClassificationSamples` |
| CashLineExtractor.IsRecordLine | src/main/java/StatementParser.java:194-195 | defines a line that gives a record: a transaction line not starting with a space; stated by `KindOfRecordLine` |
| CashLineExtractor.KindOf | src/main/java/StatementParser.java:186-195 | defines the branch a line takes: date candidate, record line, or neither; stated by `KindOfRecordLine` and `DateLineIsNoTransaction` |
| CashLineExtractor.Kinds | src/main/java/StatementParser.java:186-195 | one kind per line |
| CashLineExtractor.KindsAt | src/main/java/StatementParser.java:186-195 | the kind of line `j` is decided by its text alone |
| CashLineExtractor.NextState | src/main/java/StatementParser.java:187-193 | defines how a line moves `dateParsed` and `date`; stated by `DateTurn` and `FirstYearTurn` |
| CashLineExtractor.StateAt | src/main/java/StatementParser.java:180-193 | defines `dateParsed` and `date` before line `i`; stated by `StateIsFirstYear` |
| CashLineExtractor.PicksBefore | src/main/java/StatementParser.java:186-211 | each line picked before a failure has its two following lines |
| CashLineExtractor.RecordsOfSnoc | src/main/java/StatementParser.java:209 | one more pick appends its record after the others |
| CashLineExtractor.RecordAt | src/main/java/StatementParser.java:209 | defines the record added for line `i`: the two following lines, trimmed and joined by a tab, as key, and the line normalised with the year in force as value; stated by `RecordOfLine` |
| CashLineExtractor.RecordOfLine | src/main/java/StatementParser.java:209 | the key built from the two trimmed following lines and the normalised line form the record of that line |
| CashLineExtractor.FailureIsFinal | src/main/java/StatementParser.java:209 | once the lookahead fails, later lines do not change the outcome |
| CashLineExtractor.Extracted | src/main/java/StatementParser.java:180-214 | defines the result of `get`; stated by `ExtractedCharacterised` and `Get` |
| CashLineExtractor.ExtractedFails | src/main/java/StatementParser.java:209-213 | a document whose pass fails at line `i` has that failure as its outcome |
| CashLineExtractor.ExtractedOk | src/main/java/StatementParser.java:180-214 | a pass that reaches the end returns the last year and the records of the picks |
| CashLineExtractor.PicksStep | src/main/java/StatementParser.java:186-211 | one line of the loop: the year state advances by the line's kind and an accepted line adds its pick or fails |
| CashLineExtractor.DateTurn | src/main/java/StatementParser.java:187-193 | a date candidate adds no record and fixes the year when it parses; a failed parse changes nothing |
| CashLineExtractor.AcceptTurn | src/main/java/StatementParser.java:196-209 | an accepted line with two lines after it adds its pick and its record, and keeps the loop invariant |
| CashLineExtractor.StopTurn | src/main/java/StatementParser.java:209 | an accepted line among the last two ends the document with that line's failure |
| CashLineExtractor.SkipTurn | src/main/java/StatementParser.java:194-195 | any other line keeps every loop variable |
| CashLineExtractor.Step | src/main/java/StatementParser.java:186-211 | one line of the loop keeps its invariant, or stops with the document's own failure |
| CashLineExtractor.Get | src/main/java/StatementParser.java:180-214 | the loop returns the year and records of the specification, or the line whose lookahead is missing |
| CashLineExtractor.FirstYearSnoc | src/main/java/StatementParser.java:187-193 | the first year of a longer prefix is the earlier one, if any |
| CashLineExtractor.FirstYearTurn | src/main/java/StatementParser.java:187-193 | a line moves the year state the way it moves the first year found so far |
| CashLineExtractor.FirstYearStep | src/main/java/StatementParser.java:187-193 | that holds for line `i - 1` of the document |
| CashLineExtractor.StateIsFirstYear | src/main/java/StatementParser.java:181-193 | the year is known exactly when an earlier line parsed as one; it is then the year of the first such line, otherwise today's |
| CashLineExtractor.DateLineIsNoTransaction | src/main/java/StatementParser.java:187-194 | a date-shaped line never ends in `H` or `S` |
| CashLineExtractor.KindOfRecordLine | src/main/java/StatementParser.java:187-195 | the `else` never hides a transaction: a line gives a record exactly when it ends in `H`, or in `S` without `SOLLZINSEN`, and does not start with a space |
| CashLineExtractor.ClassificationSamples | src/main/java/StatementParser.java:194-195 | a `SOLLZINSEN` credit is kept, a `SOLLZINSEN` debit is not, a trailing space or an indent rejects a line |
| CashLineExtractor.RecordLinesFilter | src/main/java/StatementParser.java:194-195 | the record-line indices are exactly the record lines, ascending |
| CashLineExtractor.PicksBeforeStep | src/main/java/StatementParser.java:194-209 | one line of the loop in terms of record lines and the first-year rule |
| CashLineExtractor.LookaheadBeforeStep | src/main/java/StatementParser.java:209 | the lookahead holds up to `i` exactly when it holds before and line `i - 1` needs none or has it |
| CashLineExtractor.PicksBeforeOk | src/main/java/StatementParser.java:209 | a document fails exactly when a record line lacks its two following lines |
| CashLineExtractor.PicksBeforeLines | src/main/java/StatementParser.java:186-211 | pick `k` is the `k`-th record line with the year in force at that line |
| CashLineExtractor.PicksBeforeFailure | src/main/java/StatementParser.java:209 | a failure names the first record line without its two following lines |
| CashLineExtractor.RecordsOfLinesFromPicks | src/main/java/StatementParser.java:209 | so record `k` comes from the `k`-th record line, keyed by the trimmed next two lines and normalised with that year |
| CashLineExtractor.ExtractedCharacterised | src/main/java/StatementParser.java:180-214 | `get` stated without the loop: success exactly when every record line has its lookahead; then the first year and the records in line order; otherwise the first failing line |
| CashLineExtractor.PicksAreRecordLines | src/main/java/StatementParser.java:194-196 | only record lines are picked |
| CashLineExtractor.RecordKeepsMarker | src/main/java/StatementParser.java:194-209 | the record of a record line ends in `H` or `S` |
| CashLineExtractor.RecordsKeepMarker | src/main/java/StatementParser.java:194-209 | so do the records of all picked lines |
| CashLineExtractor.RecordValuesKeepMarker | src/main/java/StatementParser.java:194-209 | every record value ends in `H` or `S` |
| RowFinaliser.Cleaned | src/main/java/StatementParser.java:90 | defines the marker removal, the reference-code removal and the trim; stated by `TrailingMarkerRemoved`, `MarkerRemovalCanLeaveMarker` and `RefCodeRemovalCanLeaveRefCode` |
| RowFinaliser.SignAmounts | src/main/java/StatementParser.java:92 | defines the sign pass; stated by `SignPassOnlyInserts`, `SignPassOnePerAmount` and `SignPassDoublesMinus` |
| RowFinaliser.RowText | src/main/java/StatementParser.java:90-93 | defines the text of a row; only a debit row gets the sign pass |
| RowFinaliser.OutputLine | src/main/java/StatementParser.java:94 | defines the printed row: the row text, a tab, the key |
| RowFinaliser.HasMarker | src/main/java/StatementParser.java:89 | defines the test `endsWith(delim)` on the record value; stated by `OneLinePerMarkedRecord` |
| RowFinaliser.OutputLinesOf | src/main/java/StatementParser.java:88-98 | defines the rows one record prints, credit first; stated by `OneLinePerMarkedRecord` |
| RowFinaliser.OutputLines | src/main/java/StatementParser.java:87-98 | defines the rows printed for a sequence of records, in record order; stated by `Finalise`, `RowCount`, `RowAt` and `RowsFollowRecords` |
| RowFinaliser.EntryOf | src/main/java/StatementParser.java:89-99 | defines the entry one record adds to a marker's list |
| RowFinaliser.Entries | src/main/java/StatementParser.java:87-99 | defines a marker's list after the loop; stated by `Finalise`, `EntriesPartition`, `EntriesAppend` and `EntriesMembers` |
| RowFinaliser.FinaliseRow | src/main/java/StatementParser.java:88-100 | a record prints one row per marker it ends in, and adds one entry to that marker's list |
| RowFinaliser.RowTurn | src/main/java/StatementParser.java:87-101 | a record's rows and entries extend those of the records before it |
| RowFinaliser.Finalise | src/main/java/StatementParser.java:82-101 | the header, then the rows in record order; the two lists get their marker's entries in record order |
| RowFinaliser.OneLinePerMarkedRecord | src/main/java/StatementParser.java:88-89 | a record ending in a marker prints exactly one row, under that marker |
| RowFinaliser.RowCount | src/main/java/StatementParser.java:87-98 | records that all end in a marker print one row each |
| RowFinaliser.RowAt | src/main/java/StatementParser.java:87-98 | row `k` is record `k` under its own marker |
| RowFinaliser.RowsFollowRecords | src/main/java/StatementParser.java:87-98 | both together: the rows follow the records, credits and debits interleaved |
| RowFinaliser.EntriesPartition | src/main/java/StatementParser.java:87-99 | each marked record is added to exactly one of the two lists |
| RowFinaliser.EntriesAppend | src/main/java/StatementParser.java:87-99 | a list keeps the record order: the entries of two runs of records are those of the first, then those of the second |
| RowFinaliser.EntriesMembers | src/main/java/StatementParser.java:89-99 | every entry of a marker's list is a record ending in that marker, with its key and row text, and every such record adds one |
| RowFinaliser.TrailingMarkerRemoved | src/main/java/StatementParser.java:90 | the trailing `" " + marker` is removed and does not change how the text before it is rewritten |
| RowFinaliser.MarkerRemovalCanLeaveMarker | src/main/java/StatementParser.java:90 | the line `a b c PN:123H` is normalised to `a\tb\tc PN:123H`, and its row text is `a\tb\tc H`: the marker pass runs before the reference code is removed, so `" H"` is left behind |
| RowFinaliser.RefCodeRemovalCanLeaveRefCode | src/main/java/StatementParser.java:90 | `PPN:123N:456` becomes `PN:456`: one pass can leave a reference code behind |
| RowFinaliser.NoRefCodeHere | src/main/java/StatementParser.java:90 | no reference code starts at a character other than `P` |
| RowFinaliser.RefCodeSkipsPrefix | src/main/java/StatementParser.java:90 | characters before the first `P` are copied by the reference-code removal, which then rewrites the rest |
| RowFinaliser.RefCodeRemovedOnce | src/main/java/StatementParser.java:90 | `PN:123N:456` becomes `N:456` |
| RowFinaliser.NoRefCode | src/main/java/StatementParser.java:90 | a text without `P` is left unchanged by the reference-code removal |
| RowFinaliser.WithoutAppend | src/main/java/StatementParser.java:92 | removing every `-` from two joined texts removes it from each |
| RowFinaliser.SignPassOnlyInserts | src/main/java/StatementParser.java:92 | the sign pass only inserts `-`: with every `-` removed, the text is as before |
| RowFinaliser.CountAppend | src/main/java/StatementParser.java:92 | the `-` count of two joined texts is the sum of theirs |
| RowFinaliser.RenderAddsOnePerHit | src/main/java/StatementParser.java:92 | prefixing each match with `-` adds one `-` per match |
| RowFinaliser.SignPassOnePerAmount | src/main/java/StatementParser.java:92 | it inserts exactly one `-` per amount match found left to right |
| RowFinaliser.SignPassDoublesMinus | src/main/java/StatementParser.java:92 | `-1,00` becomes `--1,00` |
| RowFinaliser.CollectedFrom | src/main/java/StatementParser.java:69-73 | defines the document loop: the records of every document in file order, or the first failure; stated by `FailureStops` and `CollectedAreMarked` |
| RowFinaliser.RunResult | src/main/java/StatementParser.java:69-101 | defines the outcome of the run; stated by `Run` and `EveryRecordOneRow` |
| RowFinaliser.Run | src/main/java/StatementParser.java:69-101 | `get` on each document in order, then the rows; a missing lookahead aborts the run before the header |
| RowFinaliser.FailureStops | src/main/java/StatementParser.java:69-73 | the first failing document decides the outcome |
| RowFinaliser.CollectedAreMarked | src/main/java/StatementParser.java:69-73 | every collected record ends in `H` or `S` |
| RowFinaliser.EveryRecordOneRow | src/main/java/StatementParser.java:69-101 | a run that is not aborted prints the header and the rows of the records, and files every record in exactly one list |

## Left out

- Command-line parsing, help output and the Swing file dialogs (lines 41-66 and 111-170)
  are user interface.
- PDF loading and text stripping with PDFBox (lines 173-178 and 221-235) are a foreign
  library. A document is its sequence of text lines, given as input.
- Printing to standard output and to the optional `PrintWriter`, and the printed stack
  traces (lines 81-86, 95-98, 103-108, 191-192), are I/O. The printed lines are returned
  as one sequence; both destinations receive the same lines.
- `LocalDate.now()` (line 181) is a clock read. Its year is the parameter `today`.
- The `DateTimeFormatter` (lines 182 and 189) is reduced to its outcome: the parse of
  `1/M/yyyy` succeeds exactly when the month is 1 to 12 and the year is at least 1
  (`ParseYearMeaning`). Only the year of the resulting date is kept, because only the year
  is used.
- The general regular-expression engine is not modelled. Only the four fixed patterns and
  the literal targets in use are written out.
- The `balance` map (lines 75-80) is modelled as the two lists it holds, `credits` for `H`
  and `debits` for `S`. Nothing reads them after the loop.
- The two-element loop over the markers (line 88) is written as two consecutive tests, `H`
  then `S`, in the same order.
- A failure opening the output file (caught at line 103) is I/O and is not modelled.
- With no file given, `main` returns at lines 63-65 before printing anything. `Run` takes
  the documents as given; with none it yields the header alone, which the program never
  prints.
