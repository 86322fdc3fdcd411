/**
 * Tag generation from taxonomy codes (`generateTags` and `splitTaxonomie` in
 * compiler/files/markdownUtils.py).
 *
 * A taxonomy code such as `A.2.S1.1` has four dot-separated parts TC1..TC4.
 * Each code is checked against the taxonomy pattern, split, and matched
 * against every row of the reference dataset; a matching row yields a level
 * tag `HBO-i/niveau-<TC2>`, the row's process and process step, its TC3 value
 * and the code itself, plus two report updates. The derived tags are merged
 * with the document's existing tags, sorted level tags first, and deduplicated.
 *
 * The module-level configuration the source reads (the dataset, the set of
 * reportable subjects, the pattern) is the `Context` parameter; the two report
 * updates are returned as a sequence of `Event`s in call order.
 */
module Taxonomy {
  import opened Wrappers
  import opened Text
  import opened TagOrder

  /** A row of the reference dataset: the TC1, TC2 (comma-separated level flags) and TC3 columns, the process and the process step. */
  datatype Row = Row(tc1: string, tc2: string, tc3: string, process: string, processStep: string)

  /** The four kinds of message `generateTags` collects; each but `NoCodes` names the offending code. */
  datatype Error = InvalidFormat(code: string) | NoCodes | NotFound(code: string) | NotNeeded(code: string)

  /** A call of `updateProcessReportData` or `updateSubjectReportData`, with its arguments. */
  datatype Event =
    | ProcessUpdate(tc1: string, tc2: string)
    | SubjectUpdate(tc1: string, tc2: string, tc3: string, tc4: string)

  /** The configuration `generateTags` reads: the dataset, the reportable subjects (the keys of the content report) and the taxonomy pattern. */
  datatype Context = Context(rows: seq<Row>, reportable: set<string>, matchesPattern: string -> bool)

  /**
   * What the module needs of the taxonomy pattern: a code it accepts splits on
   * `.` into exactly four parts (the four-way unpacking of line 29 would raise
   * otherwise) whose second part is decimal digits (so that `int` of it does
   * not raise).
   */
  ghost predicate PatternSplitsInFour(ctx: Context) {
    forall code :: ctx.matchesPattern(code) ==>
      |Split(code, '.')| == 4 && IsDigits(Split(code, '.')[1])
  }

  /** The four parts of a taxonomy code. */
  datatype Parts = Parts(tc1: string, tc2: string, tc3: string, tc4: string)

  /** `splitTaxonomie`: the dot-separated parts of a code, which join back into it. */
  function SplitTaxonomie(code: string): (parts: seq<string>)
    ensures |parts| >= 1
    ensures Join(parts, '.') == code
    ensures forall k :: 0 <= k < |parts| ==> '.' !in parts[k]
  {
    JoinSplit(code, '.');
    Split(code, '.')
  }

  /** Line 29: a code the pattern accepts unpacks into its four dot-separated segments, TC2 being decimal digits. */
  function PartsOf(ctx: Context, code: string): (p: Parts)
    requires PatternSplitsInFour(ctx) && ctx.matchesPattern(code)
    ensures Join([p.tc1, p.tc2, p.tc3, p.tc4], '.') == code
    ensures '.' !in p.tc1 && '.' !in p.tc2 && '.' !in p.tc3 && '.' !in p.tc4
    ensures IsDigits(p.tc2)
  {
    var s := SplitTaxonomie(code);
    assert s == [s[0], s[1], s[2], s[3]];
    Parts(s[0], s[1], s[2], s[3])
  }

  /** The guard of line 32: every part is a non-empty string. */
  predicate AllPresent(p: Parts) {
    p.tc1 != "" && p.tc2 != "" && p.tc3 != "" && p.tc4 != ""
  }

  /** A row contributes to a code when TC1 and TC3 agree and its TC3 is reportable. */
  predicate RowMatches(ctx: Context, row: Row, p: Parts) {
    row.tc1 == p.tc1 && row.tc3 in ctx.reportable && row.tc3 == p.tc3
  }

  /** The tags a matching row derives, in the order they are added. */
  function DerivedTags(row: Row, p: Parts): seq<string> {
    [LevelPrefix + p.tc2, row.process, row.processStep, row.tc3]
  }

  /** The position `int(TC2) - 1` read from the row's comma-separated flags. */
  function FlagIndex(p: Parts): int
    requires IsDigits(p.tc2)
  {
    DecimalValue(p.tc2) - 1
  }

  /** Whether Python can read the row's flag for the code's level (otherwise: `IndexError`). */
  predicate FlagInRange(row: Row, p: Parts)
    requires IsDigits(p.tc2)
  {
    InRange(Split(row.tc2, ','), FlagIndex(p))
  }

  /** The row marks the code's level with `X`: the code is not needed there. */
  predicate NotNeededAt(row: Row, p: Parts)
    requires IsDigits(p.tc2)
  {
    FlagInRange(row, p) && PyIndex(Split(row.tc2, ','), FlagIndex(p)) == "X"
  }

  /** A membership-guarded append: `if x not in s: s.append(x)`. */
  function AddIfAbsent(s: seq<string>, x: string): (r: seq<string>)
    ensures forall y :: y in r <==> y in s || y == x
    ensures s <= r
    ensures x in s ==> r == s
    ensures |r| <= |s| + 1
  {
    if x in s then s else s + [x]
  }

  /** The four lists `generateTags` accumulates across all codes of one call. */
  datatype State = State(tags: seq<string>, errors: seq<Error>, codeTags: seq<string>, events: seq<Event>)

  const EmptyState := State([], [], [], [])

  /** A scan either goes on, or has raised `IndexError` after the report updates made so far. */
  datatype Progress = Running(st: State) | IndexError(events: seq<Event>)

  /** The outcome of one call: an exception (with the report updates already made), or tags and errors. */
  datatype Run =
    | Raised(events: seq<Event>)
    | Returned(tags: seq<string>, errors: seq<Error>, events: seq<Event>)

  /** Lines 36-72 for one row. */
  function RowStep(ctx: Context, row: Row, code: string, p: Parts, st: State): Progress
    requires IsDigits(p.tc2)
  {
    if !RowMatches(ctx, row, p) then Running(st)
    else if !FlagInRange(row, p) then IndexError(st.events)
    else
      Running(State(
        AddIfAbsent(AddIfAbsent(AddIfAbsent(AddIfAbsent(st.tags, LevelPrefix + p.tc2), row.process), row.processStep), row.tc3),
        st.errors + (if NotNeededAt(row, p) then [NotNeeded(code)] else []),
        AddIfAbsent(st.codeTags, code),
        st.events + [ProcessUpdate(p.tc1, p.tc2), SubjectUpdate(p.tc1, p.tc2, p.tc3, p.tc4)]))
  }

  /** The row loop of lines 34-72, over the rows still to be scanned. */
  function ScanRows(ctx: Context, rows: seq<Row>, code: string, p: Parts, st: State): Progress
    requires IsDigits(p.tc2)
    decreases |rows|
  {
    if rows == [] then Running(st)
    else match RowStep(ctx, rows[0], code, p, st)
      case IndexError(events) => IndexError(events)
      case Running(next) => ScanRows(ctx, rows[1..], code, p, next)
  }

  /** Lines 75-76: "not found" only while the whole call has neither tags nor errors. */
  function NotFoundCheck(st: State, code: string): State {
    if st.tags == [] && st.errors == [] then st.(errors := st.errors + [NotFound(code)]) else st
  }

  /** Lines 23-77 for one code. */
  function CodeStep(ctx: Context, code: string, st: State): Progress
    requires PatternSplitsInFour(ctx)
  {
    if !ctx.matchesPattern(code) then Running(st.(errors := st.errors + [InvalidFormat(code)]))
    else
      var p := PartsOf(ctx, code);
      var scanned := if AllPresent(p) then ScanRows(ctx, ctx.rows, code, p, st) else Running(st);
      match scanned
      case IndexError(events) => IndexError(events)
      case Running(s) => Running(NotFoundCheck(s, code))
  }

  /** The code loop of lines 21-77, over the codes still to be processed. */
  function ResolveCodes(ctx: Context, codes: seq<string>, st: State): Progress
    requires PatternSplitsInFour(ctx)
    decreases |codes|
  {
    if codes == [] then Running(st)
    else match CodeStep(ctx, codes[0], st)
      case IndexError(events) => IndexError(events)
      case Running(next) => ResolveCodes(ctx, codes[1..], next)
  }

  /** The condition of line 20, negated: no codes were supplied. */
  predicate NoCodesSupplied(taxonomies: Option<seq<string>>) {
    taxonomies.None? || taxonomies.value == [] || taxonomies.value == ["None"] || taxonomies.value == [""]
  }

  /** `existingTags or []`. */
  function ExistingOrEmpty(existingTags: Option<seq<string>>): seq<string> {
    if existingTags.Some? then existingTags.value else []
  }

  /** `generateTags` as a function of its inputs and the configuration. */
  function Resolve(ctx: Context, taxonomies: Option<seq<string>>, existingTags: Option<seq<string>>): Run
    requires PatternSplitsInFour(ctx)
  {
    var existing := ExistingOrEmpty(existingTags);
    if NoCodesSupplied(taxonomies) then Returned(FinalTags(existing), [NoCodes], [])
    else match ResolveCodes(ctx, taxonomies.value, EmptyState)
      case IndexError(events) => Raised(events)
      case Running(s) => Returned(FinalTags(existing + s.tags + s.codeTags), s.errors, s.events)
  }

  /**
   * The body of the row loop (lines 36-72) for one row: the guarded appends,
   * the flag lookup that may raise `IndexError`, and the two report updates.
   */
  method ScanRow(ctx: Context, row: Row, code: string, p: Parts, st: State) returns (result: Progress)
    requires IsDigits(p.tc2)
    ensures result == RowStep(ctx, row, code, p, st)
  {
    var tags, errors, taxonomieTags, events := st.tags, st.errors, st.codeTags, st.events;
    if row.tc1 == p.tc1 {
      if row.tc3 in ctx.reportable && row.tc3 == p.tc3 {
        var newTag := LevelPrefix + p.tc2;
        if newTag !in tags {
          tags := tags + [newTag];
        }
        ghost var t1 := tags;
        assert t1 == AddIfAbsent(st.tags, newTag);
        if row.process !in tags {
          tags := tags + [row.process];
        }
        ghost var t2 := tags;
        assert t2 == AddIfAbsent(t1, row.process);
        if row.processStep !in tags {
          tags := tags + [row.processStep];
        }
        ghost var t3 := tags;
        assert t3 == AddIfAbsent(t2, row.processStep);
        if row.tc3 !in tags {
          tags := tags + [row.tc3];
        }
        assert tags == AddIfAbsent(t3, row.tc3);
        if code !in taxonomieTags {
          taxonomieTags := taxonomieTags + [code];
        }
        assert taxonomieTags == AddIfAbsent(st.codeTags, code);

        var flags := Split(row.tc2, ',');
        var index := DecimalValue(p.tc2) - 1;
        if !InRange(flags, index) {
          assert RowMatches(ctx, row, p) && !FlagInRange(row, p);
          return IndexError(events);
        }
        if PyIndex(flags, index) == "X" {
          errors := errors + [NotNeeded(code)];
        }

        assert errors == st.errors + (if NotNeededAt(row, p) then [NotNeeded(code)] else []);
        events := events + [ProcessUpdate(p.tc1, p.tc2), SubjectUpdate(p.tc1, p.tc2, p.tc3, p.tc4)];
        assert RowMatches(ctx, row, p) && FlagInRange(row, p);
        assert RowStep(ctx, row, code, p, st).st == State(tags, errors, taxonomieTags, events);
      }
    }
    result := Running(State(tags, errors, taxonomieTags, events));
  }

  /**
   * The row loop of lines 34-72 for one code whose parts are all present:
   * each row in dataset order, stopping where line 62 raises `IndexError`.
   */
  method ScanDataset(ctx: Context, code: string, p: Parts, st: State) returns (result: Progress)
    requires IsDigits(p.tc2)
    ensures result == ScanRows(ctx, ctx.rows, code, p, st)
  {
    var current := st;
    var j := 0;
    while j < |ctx.rows|
      invariant 0 <= j <= |ctx.rows|
      invariant ScanRows(ctx, ctx.rows[j..], code, p, current) == ScanRows(ctx, ctx.rows, code, p, st)
    {
      assert ctx.rows[j..] == [ctx.rows[j]] + ctx.rows[j + 1..];
      var next := ScanRow(ctx, ctx.rows[j], code, p, current);
      if next.IndexError? {
        return next;
      }
      current := next.st;
      j := j + 1;
    }
    result := Running(current);
  }

  /**
   * The body of the code loop (lines 23-77) for one code: the pattern check,
   * the split, the row scan when all four parts are present, and the
   * "not found" check.
   */
  method ProcessCode(ctx: Context, code: string, st: State) returns (result: Progress)
    requires PatternSplitsInFour(ctx)
    ensures result == CodeStep(ctx, code, st)
  {
    if !ctx.matchesPattern(code) {
      return Running(st.(errors := st.errors + [InvalidFormat(code)]));
    }

    var parts := SplitTaxonomie(code);
    var p := Parts(parts[0], parts[1], parts[2], parts[3]);
    assert p == PartsOf(ctx, code);
    var current := st;
    if p.tc1 != "" && p.tc2 != "" && p.tc3 != "" && p.tc4 != "" {
      var scanned := ScanDataset(ctx, code, p, st);
      if scanned.IndexError? {
        return scanned;
      }
      current := scanned.st;
    }

    if current.tags == [] && current.errors == [] {
      current := current.(errors := current.errors + [NotFound(code)]);
    }
    result := Running(current);
  }

  /** `generateTags`: the loop over the codes, then the merge. */
  method GenerateTags(ctx: Context, taxonomies: Option<seq<string>>, existingTags: Option<seq<string>>)
    returns (run: Run)
    requires PatternSplitsInFour(ctx)
    ensures run == Resolve(ctx, taxonomies, existingTags)
  {
    var st := EmptyState;
    if !NoCodesSupplied(taxonomies) {
      var codes := taxonomies.value;
      var i := 0;
      while i < |codes|
        invariant 0 <= i <= |codes|
        invariant ResolveCodes(ctx, codes[i..], st) == ResolveCodes(ctx, codes, EmptyState)
      {
        assert codes[i..] == [codes[i]] + codes[i + 1..];
        var next := ProcessCode(ctx, codes[i], st);
        if next.IndexError? {
          return Raised(next.events);
        }
        st := next.st;
        i := i + 1;
      }
    } else {
      st := st.(errors := st.errors + [NoCodes]);
    }

    var combined := ExistingOrEmpty(existingTags) + st.tags + st.codeTags;
    run := Returned(FinalTags(combined), st.errors, st.events);
    assert NoCodesSupplied(taxonomies) ==> combined == ExistingOrEmpty(existingTags);
  }
}
