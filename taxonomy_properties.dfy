/**
 * What tag generation promises, proved about the model in module Taxonomy:
 * which rows contribute, which tags and report updates they produce, when the
 * "not needed", "not found" and "no codes" messages appear, when line 62
 * raises, and the shape of the returned tag list.
 */
module TaxonomyProperties {
  import opened Wrappers
  import opened Text
  import opened TagOrder
  import opened Taxonomy

  // ---------------------------------------------------------------------
  // Reference definitions, written row by row and code by code without the
  // accumulated state.

  /** Some row of `rows` matches the code's parts. */
  predicate AnyMatch(ctx: Context, rows: seq<Row>, p: Parts) {
    exists k :: 0 <= k < |rows| && RowMatches(ctx, rows[k], p)
  }

  /** Some matching row has no flag at position `int(TC2) - 1`. */
  predicate AnyOutOfRange(ctx: Context, rows: seq<Row>, p: Parts)
    requires IsDigits(p.tc2)
  {
    exists k :: 0 <= k < |rows| && RowMatches(ctx, rows[k], p) && !FlagInRange(rows[k], p)
  }

  /** Two report updates, process then subject, for every matching row, in dataset order. */
  function MatchEvents(ctx: Context, rows: seq<Row>, p: Parts): seq<Event>
    decreases |rows|
  {
    if rows == [] then []
    else
      (if RowMatches(ctx, rows[0], p) then [ProcessUpdate(p.tc1, p.tc2), SubjectUpdate(p.tc1, p.tc2, p.tc3, p.tc4)] else [])
      + MatchEvents(ctx, rows[1..], p)
  }

  /** One "not needed" message for every matching row whose flag at the code's level is `X`. */
  function NotNeededErrors(ctx: Context, rows: seq<Row>, code: string, p: Parts): seq<Error>
    requires IsDigits(p.tc2)
    decreases |rows|
  {
    if rows == [] then []
    else
      (if RowMatches(ctx, rows[0], p) && NotNeededAt(rows[0], p) then [NotNeeded(code)] else [])
      + NotNeededErrors(ctx, rows[1..], code, p)
  }

  /** The code passes the pattern, its parts are all present, and `row` matches them. */
  predicate Contributes(ctx: Context, code: string, row: Row)
    requires PatternSplitsInFour(ctx)
  {
    ctx.matchesPattern(code) && AllPresent(PartsOf(ctx, code)) && RowMatches(ctx, row, PartsOf(ctx, code))
  }

  /** The tags a contributing row derives for a code. */
  function ContributedTags(ctx: Context, code: string, row: Row): seq<string>
    requires PatternSplitsInFour(ctx) && Contributes(ctx, code, row)
  {
    DerivedTags(row, PartsOf(ctx, code))
  }

  /** The code reaches the row scan: it passes the pattern and all parts are present. */
  predicate Scanned(ctx: Context, code: string)
    requires PatternSplitsInFour(ctx)
  {
    ctx.matchesPattern(code) && AllPresent(PartsOf(ctx, code))
  }

  /** The report updates made for one code. */
  function CodeEvents(ctx: Context, code: string): seq<Event>
    requires PatternSplitsInFour(ctx)
  {
    if Scanned(ctx, code) then MatchEvents(ctx, ctx.rows, PartsOf(ctx, code)) else []
  }

  /** The report updates made for all codes, in order. */
  function CodesEvents(ctx: Context, codes: seq<string>): seq<Event>
    requires PatternSplitsInFour(ctx)
    decreases |codes|
  {
    if codes == [] then [] else CodeEvents(ctx, codes[0]) + CodesEvents(ctx, codes[1..])
  }

  /**
   * The messages one code adds, given the state before it: an invalid-format
   * message; or the "not needed" messages of its rows, followed by "not found"
   * when it matched nothing while the call so far had neither tags nor errors.
   */
  function CodeErrors(ctx: Context, code: string, st: State): seq<Error>
    requires PatternSplitsInFour(ctx)
  {
    if !ctx.matchesPattern(code) then [InvalidFormat(code)]
    else
      var p := PartsOf(ctx, code);
      var matched := AllPresent(p) && AnyMatch(ctx, ctx.rows, p);
      (if AllPresent(p) then NotNeededErrors(ctx, ctx.rows, code, p) else [])
      + (if !matched && st.tags == [] && st.errors == [] then [NotFound(code)] else [])
  }

  // ---------------------------------------------------------------------
  // The row scan.

  lemma AnyMatchCons(ctx: Context, rows: seq<Row>, p: Parts)
    requires rows != []
    ensures AnyMatch(ctx, rows, p) <==> RowMatches(ctx, rows[0], p) || AnyMatch(ctx, rows[1..], p)
  {
    if AnyMatch(ctx, rows[1..], p) {
      var k :| 0 <= k < |rows[1..]| && RowMatches(ctx, rows[1..][k], p);
      assert rows[k + 1] == rows[1..][k];
    }
    if AnyMatch(ctx, rows, p) && !RowMatches(ctx, rows[0], p) {
      var k :| 0 <= k < |rows| && RowMatches(ctx, rows[k], p);
      assert rows[1..][k - 1] == rows[k];
    }
  }

  lemma AnyOutOfRangeCons(ctx: Context, rows: seq<Row>, p: Parts)
    requires rows != [] && IsDigits(p.tc2)
    ensures AnyOutOfRange(ctx, rows, p) <==>
      (RowMatches(ctx, rows[0], p) && !FlagInRange(rows[0], p)) || AnyOutOfRange(ctx, rows[1..], p)
  {
    if AnyOutOfRange(ctx, rows[1..], p) {
      var k :| 0 <= k < |rows[1..]| && RowMatches(ctx, rows[1..][k], p) && !FlagInRange(rows[1..][k], p);
      assert rows[k + 1] == rows[1..][k];
    }
    if AnyOutOfRange(ctx, rows, p) && !(RowMatches(ctx, rows[0], p) && !FlagInRange(rows[0], p)) {
      var k :| 0 <= k < |rows| && RowMatches(ctx, rows[k], p) && !FlagInRange(rows[k], p);
      assert rows[1..][k - 1] == rows[k];
    }
  }

  /** The row scan raises exactly when a matching row lacks the flag for the code's level. */
  lemma {:induction false} ScanRowsRaises(ctx: Context, rows: seq<Row>, code: string, p: Parts, st: State)
    requires IsDigits(p.tc2)
    ensures ScanRows(ctx, rows, code, p, st).IndexError? <==> AnyOutOfRange(ctx, rows, p)
    decreases |rows|
  {
    if rows != [] {
      AnyOutOfRangeCons(ctx, rows, p);
      match RowStep(ctx, rows[0], code, p, st)
      case IndexError(events) =>
      case Running(next) =>
        ScanRowsRaises(ctx, rows[1..], code, p, next);
    }
  }

  /** Without a matching row the scan changes nothing. */
  lemma {:induction false} ScanRowsUnmatched(ctx: Context, rows: seq<Row>, code: string, p: Parts, st: State)
    requires IsDigits(p.tc2) && !AnyMatch(ctx, rows, p)
    ensures ScanRows(ctx, rows, code, p, st) == Running(st)
    ensures NotNeededErrors(ctx, rows, code, p) == []
    ensures MatchEvents(ctx, rows, p) == []
    decreases |rows|
  {
    if rows != [] {
      AnyMatchCons(ctx, rows, p);
      ScanRowsUnmatched(ctx, rows[1..], code, p, st);
    }
  }

  /** A completed scan makes two report updates per matching row, in dataset order. */
  lemma {:induction false} ScanRowsEvents(ctx: Context, rows: seq<Row>, code: string, p: Parts, st: State)
    requires IsDigits(p.tc2)
    requires ScanRows(ctx, rows, code, p, st).Running?
    ensures ScanRows(ctx, rows, code, p, st).st.events == st.events + MatchEvents(ctx, rows, p)
    decreases |rows|
  {
    if rows != [] {
      var next := RowStep(ctx, rows[0], code, p, st).st;
      ScanRowsEvents(ctx, rows[1..], code, p, next);
    }
  }

  /** A completed scan adds one "not needed" message per matching row flagged `X`, in dataset order. */
  lemma {:induction false} ScanRowsErrors(ctx: Context, rows: seq<Row>, code: string, p: Parts, st: State)
    requires IsDigits(p.tc2)
    requires ScanRows(ctx, rows, code, p, st).Running?
    ensures ScanRows(ctx, rows, code, p, st).st.errors == st.errors + NotNeededErrors(ctx, rows, code, p)
    decreases |rows|
  {
    if rows != [] {
      var next := RowStep(ctx, rows[0], code, p, st).st;
      ScanRowsErrors(ctx, rows[1..], code, p, next);
    }
  }

  /** A completed scan records the code among the code tags exactly when some row matched. */
  lemma {:induction false} ScanRowsCodeTags(ctx: Context, rows: seq<Row>, code: string, p: Parts, st: State)
    requires IsDigits(p.tc2)
    requires ScanRows(ctx, rows, code, p, st).Running?
    ensures ScanRows(ctx, rows, code, p, st).st.codeTags ==
      (if AnyMatch(ctx, rows, p) then AddIfAbsent(st.codeTags, code) else st.codeTags)
    decreases |rows|
  {
    if rows != [] {
      AnyMatchCons(ctx, rows, p);
      var next := RowStep(ctx, rows[0], code, p, st).st;
      ScanRowsCodeTags(ctx, rows[1..], code, p, next);
      if RowMatches(ctx, rows[0], p) {
        assert code in next.codeTags;
      }
    }
  }

  /**
   * A scan that does not raise adds the report updates and "not needed"
   * messages of the reference definitions, and records the code once when
   * some row matched.
   */
  lemma ScanRowsEffects(ctx: Context, rows: seq<Row>, code: string, p: Parts, st: State)
    requires IsDigits(p.tc2)
    requires ScanRows(ctx, rows, code, p, st).Running?
    ensures var s := ScanRows(ctx, rows, code, p, st).st;
      && s.events == st.events + MatchEvents(ctx, rows, p)
      && s.errors == st.errors + NotNeededErrors(ctx, rows, code, p)
      && s.codeTags == (if AnyMatch(ctx, rows, p) then AddIfAbsent(st.codeTags, code) else st.codeTags)
  {
    ScanRowsEvents(ctx, rows, code, p, st);
    ScanRowsErrors(ctx, rows, code, p, st);
    ScanRowsCodeTags(ctx, rows, code, p, st);
  }

  /**
   * The row scan only appends tags; every tag a matching row derives is among
   * them afterwards; and every new tag was derived by some matching row.
   */
  lemma {:induction false} ScanRowsTags(ctx: Context, rows: seq<Row>, code: string, p: Parts, st: State)
    requires IsDigits(p.tc2)
    requires ScanRows(ctx, rows, code, p, st).Running?
    ensures st.tags <= ScanRows(ctx, rows, code, p, st).st.tags
    ensures forall k, t :: 0 <= k < |rows| && RowMatches(ctx, rows[k], p) && t in DerivedTags(rows[k], p) ==>
      t in ScanRows(ctx, rows, code, p, st).st.tags
    ensures forall t :: t in ScanRows(ctx, rows, code, p, st).st.tags ==>
      t in st.tags || exists k :: 0 <= k < |rows| && RowMatches(ctx, rows[k], p) && t in DerivedTags(rows[k], p)
    decreases |rows|
  {
    if rows != [] {
      var rest := rows[1..];
      var next := RowStep(ctx, rows[0], code, p, st).st;
      var s := ScanRows(ctx, rows, code, p, st).st;
      assert ScanRows(ctx, rows, code, p, st) == ScanRows(ctx, rest, code, p, next);
      ScanRowsTags(ctx, rest, code, p, next);
      assert forall t :: t in next.tags <==> t in st.tags || (RowMatches(ctx, rows[0], p) && t in DerivedTags(rows[0], p));
      assert st.tags <= next.tags;
      forall k, t | 0 <= k < |rows| && RowMatches(ctx, rows[k], p) && t in DerivedTags(rows[k], p)
        ensures t in s.tags
      {
        if k > 0 {
          assert rest[k - 1] == rows[k];
        } else {
          assert t in next.tags;
        }
      }
      forall t | t in s.tags
        ensures t in st.tags || exists k :: 0 <= k < |rows| && RowMatches(ctx, rows[k], p) && t in DerivedTags(rows[k], p)
      {
        if t !in next.tags {
          var k :| 0 <= k < |rest| && RowMatches(ctx, rest[k], p) && t in DerivedTags(rest[k], p);
          assert rows[k + 1] == rest[k];
        }
      }
    }
  }

  // ---------------------------------------------------------------------
  // One code.

  /** A code failing the pattern adds one invalid-format message and nothing else. */
  lemma InvalidCodeStep(ctx: Context, code: string, st: State)
    requires PatternSplitsInFour(ctx) && !ctx.matchesPattern(code)
    ensures CodeStep(ctx, code, st) == Running(st.(errors := st.errors + [InvalidFormat(code)]))
  {
  }

  /** The messages a code adds are those of the reference definition `CodeErrors`. */
  lemma CodeStepErrors(ctx: Context, code: string, st: State)
    requires PatternSplitsInFour(ctx)
    requires CodeStep(ctx, code, st).Running?
    ensures CodeStep(ctx, code, st).st.errors == st.errors + CodeErrors(ctx, code, st)
  {
    if ctx.matchesPattern(code) {
      var p := PartsOf(ctx, code);
      if AllPresent(p) {
        var scanned := ScanRows(ctx, ctx.rows, code, p, st);
        assert scanned.Running?;
        ScanRowsErrors(ctx, ctx.rows, code, p, st);
        if AnyMatch(ctx, ctx.rows, p) {
          ScanRowsTags(ctx, ctx.rows, code, p, st);
          var k :| 0 <= k < |ctx.rows| && RowMatches(ctx, ctx.rows[k], p);
          assert ctx.rows[k].process in DerivedTags(ctx.rows[k], p);
          assert ctx.rows[k].process in scanned.st.tags;
        } else {
          ScanRowsUnmatched(ctx, ctx.rows, code, p, st);
        }
      }
    }
  }

  /** Once the call has any tag or message, a valid code that matches no row adds nothing. */
  lemma UnmatchedCodeAddsNothing(ctx: Context, code: string, st: State)
    requires PatternSplitsInFour(ctx) && ctx.matchesPattern(code)
    requires !(AllPresent(PartsOf(ctx, code)) && AnyMatch(ctx, ctx.rows, PartsOf(ctx, code)))
    requires st.tags != [] || st.errors != []
    ensures CodeStep(ctx, code, st) == Running(st)
  {
    var p := PartsOf(ctx, code);
    if AllPresent(p) {
      ScanRowsUnmatched(ctx, ctx.rows, code, p, st);
    }
  }

  /** One code's report updates are those of `CodeEvents`. */
  lemma CodeStepEvents(ctx: Context, code: string, st: State)
    requires PatternSplitsInFour(ctx)
    requires CodeStep(ctx, code, st).Running?
    ensures CodeStep(ctx, code, st).st.events == st.events + CodeEvents(ctx, code)
  {
    if Scanned(ctx, code) {
      ScanRowsEvents(ctx, ctx.rows, code, PartsOf(ctx, code), st);
    }
  }

  /** One code's effect on the tags, the code tags and the report updates. */
  lemma CodeStepTags(ctx: Context, code: string, st: State)
    requires PatternSplitsInFour(ctx)
    requires CodeStep(ctx, code, st).Running?
    ensures var s := CodeStep(ctx, code, st).st;
      && st.tags <= s.tags
      && s.events == st.events + CodeEvents(ctx, code)
      && (forall k, t :: 0 <= k < |ctx.rows| && Contributes(ctx, code, ctx.rows[k]) && t in ContributedTags(ctx, code, ctx.rows[k]) ==> t in s.tags)
      && (forall t :: t in s.tags ==> (t in st.tags ||
            exists k :: 0 <= k < |ctx.rows| && Contributes(ctx, code, ctx.rows[k]) && t in ContributedTags(ctx, code, ctx.rows[k])))
      && s.codeTags == (if exists k :: 0 <= k < |ctx.rows| && Contributes(ctx, code, ctx.rows[k])
                        then AddIfAbsent(st.codeTags, code) else st.codeTags)
  {
    if Scanned(ctx, code) {
      var p := PartsOf(ctx, code);
      ScanRowsEffects(ctx, ctx.rows, code, p, st);
      ScanRowsTags(ctx, ctx.rows, code, p, st);
      assert AnyMatch(ctx, ctx.rows, p) <==> exists k :: 0 <= k < |ctx.rows| && Contributes(ctx, code, ctx.rows[k]);
    }
  }

  // ---------------------------------------------------------------------
  // All codes.

  /** Every report update comes from a scanned code's matching rows, in code order and then row order. */
  lemma {:induction false} ResolveCodesEvents(ctx: Context, codes: seq<string>, st: State)
    requires PatternSplitsInFour(ctx)
    requires ResolveCodes(ctx, codes, st).Running?
    ensures ResolveCodes(ctx, codes, st).st.events == st.events + CodesEvents(ctx, codes)
    decreases |codes|
  {
    if codes != [] {
      ResolveCodesStep(ctx, codes, st);
      var next := CodeStep(ctx, codes[0], st).st;
      CodeStepEvents(ctx, codes[0], st);
      ResolveCodesEvents(ctx, codes[1..], next);
      EventsAssociate(st.events, CodeEvents(ctx, codes[0]), CodesEvents(ctx, codes[1..]));
    }
  }

  /** Some scanned code of `codes` has a matching row without its flag. */
  predicate AnyCodeOutOfRange(ctx: Context, codes: seq<string>)
    requires PatternSplitsInFour(ctx)
  {
    exists i :: 0 <= i < |codes| && Scanned(ctx, codes[i]) && AnyOutOfRange(ctx, ctx.rows, PartsOf(ctx, codes[i]))
  }

  lemma AnyCodeOutOfRangeCons(ctx: Context, codes: seq<string>)
    requires PatternSplitsInFour(ctx) && codes != []
    ensures AnyCodeOutOfRange(ctx, codes) <==>
      (Scanned(ctx, codes[0]) && AnyOutOfRange(ctx, ctx.rows, PartsOf(ctx, codes[0]))) || AnyCodeOutOfRange(ctx, codes[1..])
  {
    var rest := codes[1..];
    if AnyCodeOutOfRange(ctx, rest) {
      var i :| 0 <= i < |rest| && Scanned(ctx, rest[i]) && AnyOutOfRange(ctx, ctx.rows, PartsOf(ctx, rest[i]));
      assert codes[i + 1] == rest[i];
    }
    if AnyCodeOutOfRange(ctx, codes) && !(Scanned(ctx, codes[0]) && AnyOutOfRange(ctx, ctx.rows, PartsOf(ctx, codes[0]))) {
      var i :| 0 <= i < |codes| && Scanned(ctx, codes[i]) && AnyOutOfRange(ctx, ctx.rows, PartsOf(ctx, codes[i]));
      assert rest[i - 1] == codes[i];
    }
  }

  /** The code loop raises `IndexError` exactly when some scanned code has a matching row without its flag. */
  lemma {:induction false} ResolveCodesRaises(ctx: Context, codes: seq<string>, st: State)
    requires PatternSplitsInFour(ctx)
    ensures ResolveCodes(ctx, codes, st).IndexError? <==> AnyCodeOutOfRange(ctx, codes)
    decreases |codes|
  {
    if codes != [] {
      AnyCodeOutOfRangeCons(ctx, codes);
      if Scanned(ctx, codes[0]) {
        ScanRowsRaises(ctx, ctx.rows, codes[0], PartsOf(ctx, codes[0]), st);
      }
      if CodeStep(ctx, codes[0], st).Running? {
        ResolveCodesRaises(ctx, codes[1..], CodeStep(ctx, codes[0], st).st);
      }
    }
  }


  /** Over all codes, tags only accumulate and every tag of every contributing (code, row) pair is present. */
  lemma {:induction false} ResolveCodesTagsContain(ctx: Context, codes: seq<string>, st: State)
    requires PatternSplitsInFour(ctx)
    requires ResolveCodes(ctx, codes, st).Running?
    ensures var s := ResolveCodes(ctx, codes, st).st;
      && st.tags <= s.tags
      && (forall i, k, t ::
            (0 <= i < |codes| && 0 <= k < |ctx.rows| && Contributes(ctx, codes[i], ctx.rows[k])
             && t in ContributedTags(ctx, codes[i], ctx.rows[k])) ==> t in s.tags)
    decreases |codes|
  {
    if codes != [] {
      var rest := codes[1..];
      var next := CodeStep(ctx, codes[0], st).st;
      var s := ResolveCodes(ctx, codes, st).st;
      assert ResolveCodes(ctx, codes, st) == ResolveCodes(ctx, rest, next);
      CodeStepTags(ctx, codes[0], st);
      ResolveCodesTagsContain(ctx, rest, next);
      forall i, k, t | 0 <= i < |codes| && 0 <= k < |ctx.rows| && Contributes(ctx, codes[i], ctx.rows[k])
          && t in ContributedTags(ctx, codes[i], ctx.rows[k])
        ensures t in s.tags
      {
        if i == 0 {
          assert t in next.tags;
        } else {
          assert rest[i - 1] == codes[i];
        }
      }
    }
  }

  /** Over all codes, every new tag comes from some contributing (code, row) pair. */
  lemma {:induction false} ResolveCodesTagsProvenance(ctx: Context, codes: seq<string>, st: State)
    requires PatternSplitsInFour(ctx)
    requires ResolveCodes(ctx, codes, st).Running?
    ensures forall t :: t in ResolveCodes(ctx, codes, st).st.tags ==> (t in st.tags ||
      exists i, k :: 0 <= i < |codes| && 0 <= k < |ctx.rows| && Contributes(ctx, codes[i], ctx.rows[k])
        && t in ContributedTags(ctx, codes[i], ctx.rows[k]))
    decreases |codes|
  {
    if codes != [] {
      var rest := codes[1..];
      var next := CodeStep(ctx, codes[0], st).st;
      var s := ResolveCodes(ctx, codes, st).st;
      assert ResolveCodes(ctx, codes, st) == ResolveCodes(ctx, rest, next);
      CodeStepTags(ctx, codes[0], st);
      ResolveCodesTagsProvenance(ctx, rest, next);
      forall t | t in s.tags
        ensures t in st.tags ||
          exists i, k :: 0 <= i < |codes| && 0 <= k < |ctx.rows| && Contributes(ctx, codes[i], ctx.rows[k])
            && t in ContributedTags(ctx, codes[i], ctx.rows[k])
      {
        if t !in next.tags {
          var i, k :| 0 <= i < |rest| && 0 <= k < |ctx.rows| && Contributes(ctx, rest[i], ctx.rows[k])
            && t in ContributedTags(ctx, rest[i], ctx.rows[k]);
          assert codes[i + 1] == rest[i];
        } else if t !in st.tags {
          var k :| 0 <= k < |ctx.rows| && Contributes(ctx, codes[0], ctx.rows[k]) && t in ContributedTags(ctx, codes[0], ctx.rows[k]);
          assert Contributes(ctx, codes[0], ctx.rows[k]);
        }
      }
    }
  }

  /** `t` is one of `codes` that has a contributing row. */
  predicate RecordedCode(ctx: Context, codes: seq<string>, t: string)
    requires PatternSplitsInFour(ctx)
  {
    exists i, k :: 0 <= i < |codes| && 0 <= k < |ctx.rows| && Contributes(ctx, codes[i], ctx.rows[k]) && t == codes[i]
  }

  lemma RecordedCodeCons(ctx: Context, codes: seq<string>, t: string)
    requires PatternSplitsInFour(ctx) && codes != []
    ensures RecordedCode(ctx, codes, t) <==>
      (t == codes[0] && exists k :: 0 <= k < |ctx.rows| && Contributes(ctx, codes[0], ctx.rows[k])) || RecordedCode(ctx, codes[1..], t)
  {
    var rest := codes[1..];
    if RecordedCode(ctx, rest, t) {
      var i, k :| 0 <= i < |rest| && 0 <= k < |ctx.rows| && Contributes(ctx, rest[i], ctx.rows[k]) && t == rest[i];
      assert codes[i + 1] == rest[i];
    }
    if t == codes[0] && exists k :: 0 <= k < |ctx.rows| && Contributes(ctx, codes[0], ctx.rows[k]) {
      var k :| 0 <= k < |ctx.rows| && Contributes(ctx, codes[0], ctx.rows[k]);
      assert 0 < |codes|;
    }
    if RecordedCode(ctx, codes, t) {
      var i, k :| 0 <= i < |codes| && 0 <= k < |ctx.rows| && Contributes(ctx, codes[i], ctx.rows[k]) && t == codes[i];
      if i > 0 {
        assert rest[i - 1] == codes[i];
      }
    }
  }

  /** Over all codes, the code tags gain exactly the codes that have a contributing row. */
  lemma {:induction false} ResolveCodesCodeTags(ctx: Context, codes: seq<string>, st: State)
    requires PatternSplitsInFour(ctx)
    requires ResolveCodes(ctx, codes, st).Running?
    ensures forall t :: t in ResolveCodes(ctx, codes, st).st.codeTags <==> (t in st.codeTags || RecordedCode(ctx, codes, t))
    decreases |codes|
  {
    if codes != [] {
      var next := CodeStep(ctx, codes[0], st).st;
      assert ResolveCodes(ctx, codes, st) == ResolveCodes(ctx, codes[1..], next);
      CodeStepTags(ctx, codes[0], st);
      ResolveCodesCodeTags(ctx, codes[1..], next);
      forall t ensures RecordedCode(ctx, codes, t) <==>
        (t == codes[0] && exists k :: 0 <= k < |ctx.rows| && Contributes(ctx, codes[0], ctx.rows[k])) || RecordedCode(ctx, codes[1..], t)
      {
        RecordedCodeCons(ctx, codes, t);
      }
    }
  }


  /**
   * Over all codes: tags only accumulate, every tag of every contributing
   * (code, row) pair is present, and every new tag comes from such a pair;
   * likewise the code tags hold exactly the codes with a contributing row.
   */
  lemma ResolveCodesTags(ctx: Context, codes: seq<string>, st: State)
    requires PatternSplitsInFour(ctx)
    requires ResolveCodes(ctx, codes, st).Running?
    ensures var s := ResolveCodes(ctx, codes, st).st;
      && st.tags <= s.tags
      && (forall i, k, t ::
            (0 <= i < |codes| && 0 <= k < |ctx.rows| && Contributes(ctx, codes[i], ctx.rows[k])
             && t in ContributedTags(ctx, codes[i], ctx.rows[k])) ==> t in s.tags)
      && (forall t :: t in s.tags ==> (t in st.tags ||
            exists i, k :: 0 <= i < |codes| && 0 <= k < |ctx.rows| && Contributes(ctx, codes[i], ctx.rows[k])
              && t in ContributedTags(ctx, codes[i], ctx.rows[k])))
      && (forall t :: t in s.codeTags <==> (t in st.codeTags ||
            exists i, k :: 0 <= i < |codes| && 0 <= k < |ctx.rows| && Contributes(ctx, codes[i], ctx.rows[k]) && t == codes[i]))
  {
    ResolveCodesTagsContain(ctx, codes, st);
    ResolveCodesTagsProvenance(ctx, codes, st);
    ResolveCodesCodeTags(ctx, codes, st);
  }


  /** Every message of `NotNeededErrors` is "not needed" for the code. */
  lemma {:induction false} NotNeededErrorsAre(ctx: Context, rows: seq<Row>, code: string, p: Parts)
    requires IsDigits(p.tc2)
    ensures forall e :: e in NotNeededErrors(ctx, rows, code, p) ==> e == NotNeeded(code)
    decreases |rows|
  {
    if rows != [] {
      NotNeededErrorsAre(ctx, rows[1..], code, p);
    }
  }

  /** After one code the call always holds a tag or a message. */
  lemma CodeStepLeavesMark(ctx: Context, code: string, st: State)
    requires PatternSplitsInFour(ctx)
    requires CodeStep(ctx, code, st).Running?
    ensures CodeStep(ctx, code, st).st.tags != [] || CodeStep(ctx, code, st).st.errors != []
  {
  }

  /** Once the call holds a tag or a message, no later code adds "not found". */
  lemma {:induction false} ResolveCodesNoLateNotFound(ctx: Context, codes: seq<string>, st: State)
    requires PatternSplitsInFour(ctx)
    requires st.tags != [] || st.errors != []
    requires ResolveCodes(ctx, codes, st).Running?
    ensures var s := ResolveCodes(ctx, codes, st).st;
      && st.errors <= s.errors
      && forall k :: |st.errors| <= k < |s.errors| ==> !s.errors[k].NotFound?
    decreases |codes|
  {
    if codes != [] {
      var code := codes[0];
      ResolveCodesStep(ctx, codes, st);
      CodeStepErrors(ctx, code, st);
      CodeStepLeavesMark(ctx, code, st);
      if ctx.matchesPattern(code) && AllPresent(PartsOf(ctx, code)) {
        NotNeededErrorsAre(ctx, ctx.rows, code, PartsOf(ctx, code));
      }
      var next := CodeStep(ctx, code, st).st;
      assert forall e :: e in CodeErrors(ctx, code, st) ==> !e.NotFound?;
      ResolveCodesNoLateNotFound(ctx, codes[1..], next);
      var s := ResolveCodes(ctx, codes, st).st;
      forall k | |st.errors| <= k < |s.errors| ensures !s.errors[k].NotFound? {
        if k < |next.errors| {
          assert s.errors[k] == next.errors[k] == CodeErrors(ctx, code, st)[k - |st.errors|];
        }
      }
    }
  }

  /** The first matching row that has no flag at the code's level. */
  function FirstOutOfRange(ctx: Context, rows: seq<Row>, p: Parts): (k: nat)
    requires IsDigits(p.tc2) && AnyOutOfRange(ctx, rows, p)
    ensures k < |rows| && RowMatches(ctx, rows[k], p) && !FlagInRange(rows[k], p)
    decreases |rows|
  {
    AnyOutOfRangeCons(ctx, rows, p);
    if RowMatches(ctx, rows[0], p) && !FlagInRange(rows[0], p) then 0
    else 1 + FirstOutOfRange(ctx, rows[1..], p)
  }

  /** No matching row before `FirstOutOfRange` lacks its flag. */
  lemma {:induction false} FirstOutOfRangeIsFirst(ctx: Context, rows: seq<Row>, p: Parts)
    requires IsDigits(p.tc2) && AnyOutOfRange(ctx, rows, p)
    ensures !AnyOutOfRange(ctx, rows[..FirstOutOfRange(ctx, rows, p)], p)
    decreases |rows|
  {
    AnyOutOfRangeCons(ctx, rows, p);
    var k := FirstOutOfRange(ctx, rows, p);
    if k == 0 {
      assert rows[..0] == [];
    } else {
      FirstOutOfRangeIsFirst(ctx, rows[1..], p);
      AnyOutOfRangeCons(ctx, rows[..k], p);
      assert rows[..k][1..] == rows[1..][..k - 1];
    }
  }

  /**
   * A scan with a matching row lacking its flag raises at the first such row,
   * keeping the report updates of the matching rows before it.
   */
  lemma {:induction false} ScanRowsRaisedEvents(ctx: Context, rows: seq<Row>, code: string, p: Parts, st: State)
    requires IsDigits(p.tc2) && AnyOutOfRange(ctx, rows, p)
    ensures ScanRows(ctx, rows, code, p, st).IndexError?
    ensures ScanRows(ctx, rows, code, p, st).events
         == st.events + MatchEvents(ctx, rows[..FirstOutOfRange(ctx, rows, p)], p)
    decreases |rows|
  {
    var k := FirstOutOfRange(ctx, rows, p);
    if k == 0 {
      assert rows[..0] == [];
    } else {
      FirstOutOfRangeStep(ctx, rows, p);
      var next := RowStep(ctx, rows[0], code, p, st).st;
      ScanRowsRaisedEvents(ctx, rows[1..], code, p, next);
      MatchEventsPrefix(ctx, rows, p, k);
      var own := if RowMatches(ctx, rows[0], p) then [ProcessUpdate(p.tc1, p.tc2), SubjectUpdate(p.tc1, p.tc2, p.tc3, p.tc4)] else [];
      assert next.events == st.events + own;
      EventsAssociate(st.events, own, MatchEvents(ctx, rows[1..][..k - 1], p));
    }
  }

  /** When the first row does not fail, the first failing row is found among the rest. */
  lemma FirstOutOfRangeStep(ctx: Context, rows: seq<Row>, p: Parts)
    requires IsDigits(p.tc2) && AnyOutOfRange(ctx, rows, p)
    requires FirstOutOfRange(ctx, rows, p) > 0
    ensures RowMatches(ctx, rows[0], p) ==> FlagInRange(rows[0], p)
    ensures AnyOutOfRange(ctx, rows[1..], p)
    ensures FirstOutOfRange(ctx, rows, p) == 1 + FirstOutOfRange(ctx, rows[1..], p)
  {
    AnyOutOfRangeCons(ctx, rows, p);
  }

  /** The report updates of a non-empty prefix of rows start with those of its first row. */
  lemma MatchEventsPrefix(ctx: Context, rows: seq<Row>, p: Parts, k: nat)
    requires 0 < k <= |rows|
    ensures MatchEvents(ctx, rows[..k], p) ==
      (if RowMatches(ctx, rows[0], p) then [ProcessUpdate(p.tc1, p.tc2), SubjectUpdate(p.tc1, p.tc2, p.tc3, p.tc4)] else [])
      + MatchEvents(ctx, rows[1..][..k - 1], p)
  {
    var before := rows[..k];
    assert before[0] == rows[0] && before[1..] == rows[1..][..k - 1];
  }

  /** The first scanned code that has a matching row without its flag. */
  function FirstFailingCode(ctx: Context, codes: seq<string>): (i: nat)
    requires PatternSplitsInFour(ctx) && AnyCodeOutOfRange(ctx, codes)
    ensures i < |codes| && Scanned(ctx, codes[i]) && AnyOutOfRange(ctx, ctx.rows, PartsOf(ctx, codes[i]))
    decreases |codes|
  {
    AnyCodeOutOfRangeCons(ctx, codes);
    if Scanned(ctx, codes[0]) && AnyOutOfRange(ctx, ctx.rows, PartsOf(ctx, codes[0])) then 0
    else 1 + FirstFailingCode(ctx, codes[1..])
  }

  /** No code before `FirstFailingCode` fails. */
  lemma {:induction false} FirstFailingCodeIsFirst(ctx: Context, codes: seq<string>)
    requires PatternSplitsInFour(ctx) && AnyCodeOutOfRange(ctx, codes)
    ensures !AnyCodeOutOfRange(ctx, codes[..FirstFailingCode(ctx, codes)])
    decreases |codes|
  {
    AnyCodeOutOfRangeCons(ctx, codes);
    var i := FirstFailingCode(ctx, codes);
    if i == 0 {
      assert codes[..0] == [];
    } else {
      FirstFailingCodeIsFirst(ctx, codes[1..]);
      AnyCodeOutOfRangeCons(ctx, codes[..i]);
      assert codes[..i][1..] == codes[1..][..i - 1];
    }
  }

  /**
   * The report updates made before the first failing code raises: those of
   * the codes before it, and of its matching rows before its first row
   * without a flag.
   */
  function RaisedEvents(ctx: Context, codes: seq<string>): seq<Event>
    requires PatternSplitsInFour(ctx) && AnyCodeOutOfRange(ctx, codes)
  {
    var i := FirstFailingCode(ctx, codes);
    var p := PartsOf(ctx, codes[i]);
    CodesEvents(ctx, codes[..i]) + MatchEvents(ctx, ctx.rows[..FirstOutOfRange(ctx, ctx.rows, p)], p)
  }

  /** When the first code does not fail, the first failing code is found among the rest. */
  lemma FirstFailingCodeStep(ctx: Context, codes: seq<string>)
    requires PatternSplitsInFour(ctx) && AnyCodeOutOfRange(ctx, codes)
    requires FirstFailingCode(ctx, codes) > 0
    ensures AnyCodeOutOfRange(ctx, codes[1..])
    ensures FirstFailingCode(ctx, codes) == 1 + FirstFailingCode(ctx, codes[1..])
  {
    AnyCodeOutOfRangeCons(ctx, codes);
  }

  /** When the first code does not fail, it contributes its own report updates ahead of the rest. */
  lemma RaisedEventsStep(ctx: Context, codes: seq<string>)
    requires PatternSplitsInFour(ctx) && AnyCodeOutOfRange(ctx, codes)
    requires FirstFailingCode(ctx, codes) > 0
    ensures AnyCodeOutOfRange(ctx, codes[1..])
    ensures RaisedEvents(ctx, codes) == CodeEvents(ctx, codes[0]) + RaisedEvents(ctx, codes[1..])
  {
    FirstFailingCodeStep(ctx, codes);
    var i := FirstFailingCode(ctx, codes);
    CodesEventsPrefix(ctx, codes, i);
    assert codes[i] == codes[1..][i - 1];
    var p := PartsOf(ctx, codes[i]);
    EventsAssociate(CodeEvents(ctx, codes[0]), CodesEvents(ctx, codes[1..][..i - 1]),
      MatchEvents(ctx, ctx.rows[..FirstOutOfRange(ctx, ctx.rows, p)], p));
  }

  /** The report updates of a non-empty prefix start with those of its first code. */
  lemma CodesEventsPrefix(ctx: Context, codes: seq<string>, i: nat)
    requires PatternSplitsInFour(ctx) && 0 < i <= |codes|
    ensures CodesEvents(ctx, codes[..i]) == CodeEvents(ctx, codes[0]) + CodesEvents(ctx, codes[1..][..i - 1])
  {
    var before := codes[..i];
    assert before[0] == codes[0] && before[1..] == codes[1..][..i - 1];
  }

  /** A code without a matching row lacking its flag completes, adding its own report updates. */
  lemma CodeStepCompletes(ctx: Context, code: string, st: State)
    requires PatternSplitsInFour(ctx)
    requires !(Scanned(ctx, code) && AnyOutOfRange(ctx, ctx.rows, PartsOf(ctx, code)))
    ensures CodeStep(ctx, code, st).Running?
    ensures CodeStep(ctx, code, st).st.events == st.events + CodeEvents(ctx, code)
  {
    if Scanned(ctx, code) {
      ScanRowsRaises(ctx, ctx.rows, code, PartsOf(ctx, code), st);
    }
    CodeStepEvents(ctx, code, st);
  }

  /** When the first code does not fail, its step completes with its own report updates. */
  lemma FirstCodeCompletes(ctx: Context, codes: seq<string>, st: State)
    requires PatternSplitsInFour(ctx) && AnyCodeOutOfRange(ctx, codes)
    requires FirstFailingCode(ctx, codes) > 0
    ensures CodeStep(ctx, codes[0], st).Running?
    ensures CodeStep(ctx, codes[0], st).st.events == st.events + CodeEvents(ctx, codes[0])
  {
    CodeStepCompletes(ctx, codes[0], st);
  }

  /** When the first code fails, the code loop raises in its row scan. */
  lemma FirstCodeRaises(ctx: Context, codes: seq<string>, st: State)
    requires PatternSplitsInFour(ctx) && AnyCodeOutOfRange(ctx, codes)
    requires FirstFailingCode(ctx, codes) == 0
    ensures ResolveCodes(ctx, codes, st).IndexError?
    ensures ResolveCodes(ctx, codes, st).events == st.events + RaisedEvents(ctx, codes)
  {
    var code := codes[0];
    var p := PartsOf(ctx, code);
    ScanRowsRaisedEvents(ctx, ctx.rows, code, p, st);
    assert codes[..0] == [];
    var kept := MatchEvents(ctx, ctx.rows[..FirstOutOfRange(ctx, ctx.rows, p)], p);
    assert RaisedEvents(ctx, codes) == [] + kept;
    assert ResolveCodes(ctx, codes, st) == ScanRows(ctx, ctx.rows, code, p, st);
  }

  /** Concatenation of report updates is associative. */
  lemma EventsAssociate(a: seq<Event>, b: seq<Event>, c: seq<Event>)
    ensures (a + b) + c == a + (b + c)
  {
  }

  /** A code loop with a failing code raises at the first one, keeping `RaisedEvents`. */
  lemma {:induction false} ResolveCodesRaisedEvents(ctx: Context, codes: seq<string>, st: State)
    requires PatternSplitsInFour(ctx) && AnyCodeOutOfRange(ctx, codes)
    ensures ResolveCodes(ctx, codes, st).IndexError?
    ensures ResolveCodes(ctx, codes, st).events == st.events + RaisedEvents(ctx, codes)
    decreases |codes|
  {
    var code := codes[0];
    if FirstFailingCode(ctx, codes) == 0 {
      FirstCodeRaises(ctx, codes, st);
    } else {
      RaisedEventsStep(ctx, codes);
      FirstCodeCompletes(ctx, codes, st);
      var next := CodeStep(ctx, code, st).st;
      ResolveCodesRaisedEvents(ctx, codes[1..], next);
      EventsAssociate(st.events, CodeEvents(ctx, code), RaisedEvents(ctx, codes[1..]));
    }
  }

  /**
   * The messages a code adds once the call already holds a tag or a message:
   * an invalid-format message, or the "not needed" messages of its rows.
   */
  function LaterCodeErrors(ctx: Context, code: string): seq<Error>
    requires PatternSplitsInFour(ctx)
  {
    if !ctx.matchesPattern(code) then [InvalidFormat(code)]
    else if AllPresent(PartsOf(ctx, code)) then NotNeededErrors(ctx, ctx.rows, code, PartsOf(ctx, code))
    else []
  }

  /** `LaterCodeErrors` of every code, in order. */
  function LaterCodesErrors(ctx: Context, codes: seq<string>): seq<Error>
    requires PatternSplitsInFour(ctx)
    decreases |codes|
  {
    if codes == [] then [] else LaterCodeErrors(ctx, codes[0]) + LaterCodesErrors(ctx, codes[1..])
  }

  /** Once the call holds a tag or a message, each later code adds exactly its `LaterCodeErrors`. */
  lemma {:induction false} ResolveCodesLaterErrors(ctx: Context, codes: seq<string>, st: State)
    requires PatternSplitsInFour(ctx)
    requires st.tags != [] || st.errors != []
    requires ResolveCodes(ctx, codes, st).Running?
    ensures ResolveCodes(ctx, codes, st).st.errors == st.errors + LaterCodesErrors(ctx, codes)
    decreases |codes|
  {
    if codes != [] {
      var code := codes[0];
      ResolveCodesStep(ctx, codes, st);
      CodeStepErrors(ctx, code, st);
      CodeStepLeavesMark(ctx, code, st);
      assert CodeErrors(ctx, code, st) == LaterCodeErrors(ctx, code);
      var next := CodeStep(ctx, code, st).st;
      ResolveCodesLaterErrors(ctx, codes[1..], next);
      ErrorsAssociate(st.errors, LaterCodeErrors(ctx, code), LaterCodesErrors(ctx, codes[1..]));
    }
  }

  /** From any state: the first code's `CodeErrors`, then the later codes' `LaterCodeErrors`. */
  lemma ResolveCodesErrors(ctx: Context, codes: seq<string>, st: State)
    requires PatternSplitsInFour(ctx) && codes != []
    requires ResolveCodes(ctx, codes, st).Running?
    ensures ResolveCodes(ctx, codes, st).st.errors
         == st.errors + CodeErrors(ctx, codes[0], st) + LaterCodesErrors(ctx, codes[1..])
  {
    var code := codes[0];
    ResolveCodesStep(ctx, codes, st);
    var first := CodeStep(ctx, code, st).st;
    CodeStepErrors(ctx, code, st);
    CodeStepLeavesMark(ctx, code, st);
    ResolveCodesLaterErrors(ctx, codes[1..], first);
  }

  /** A code loop that completes completes its first code, then the rest from the state that code leaves. */
  lemma ResolveCodesStep(ctx: Context, codes: seq<string>, st: State)
    requires PatternSplitsInFour(ctx) && codes != []
    requires ResolveCodes(ctx, codes, st).Running?
    ensures CodeStep(ctx, codes[0], st).Running?
    ensures ResolveCodes(ctx, codes, st) == ResolveCodes(ctx, codes[1..], CodeStep(ctx, codes[0], st).st)
  {
  }

  /** Concatenation of messages is associative. */
  lemma ErrorsAssociate(a: seq<Error>, b: seq<Error>, c: seq<Error>)
    ensures (a + b) + c == a + (b + c)
  {
  }

  // ---------------------------------------------------------------------
  // One call of generateTags.

  /** With no codes: the one "no codes" message, no report updates, and the existing tags ordered and deduplicated. */
  lemma ResolveNoCodes(ctx: Context, taxonomies: Option<seq<string>>, existingTags: Option<seq<string>>)
    requires PatternSplitsInFour(ctx) && NoCodesSupplied(taxonomies)
    ensures Resolve(ctx, taxonomies, existingTags) == Returned(FinalTags(ExistingOrEmpty(existingTags)), [NoCodes], [])
  {
  }

  /** The call raises `IndexError` exactly when some scanned code has a matching row without its flag. */
  lemma ResolveRaises(ctx: Context, codes: seq<string>, existingTags: Option<seq<string>>)
    requires PatternSplitsInFour(ctx) && !NoCodesSupplied(Some(codes))
    ensures Resolve(ctx, Some(codes), existingTags).Raised? <==>
      exists i :: 0 <= i < |codes| && Scanned(ctx, codes[i]) && AnyOutOfRange(ctx, ctx.rows, PartsOf(ctx, codes[i]))
  {
    ResolveCodesRaises(ctx, codes, EmptyState);
  }

  /** The report updates of a call are those of `CodesEvents`: two per matching row, in order. */
  lemma ResolveEvents(ctx: Context, codes: seq<string>, existingTags: Option<seq<string>>)
    requires PatternSplitsInFour(ctx) && !NoCodesSupplied(Some(codes))
    requires Resolve(ctx, Some(codes), existingTags).Returned?
    ensures Resolve(ctx, Some(codes), existingTags).events == CodesEvents(ctx, codes)
  {
    ResolveCodesEvents(ctx, codes, EmptyState);
  }

  /**
   * Every contributing (code, row) pair puts its level tag, process, process
   * step and TC3 value, and the code itself, into the returned tags.
   */
  lemma ResolveContributedTagsAppear(ctx: Context, codes: seq<string>, existingTags: Option<seq<string>>, i: nat, k: nat)
    requires PatternSplitsInFour(ctx) && !NoCodesSupplied(Some(codes))
    requires Resolve(ctx, Some(codes), existingTags).Returned?
    requires i < |codes| && k < |ctx.rows| && Contributes(ctx, codes[i], ctx.rows[k])
    ensures var out := Resolve(ctx, Some(codes), existingTags).tags;
      var p := PartsOf(ctx, codes[i]);
      && LevelPrefix + p.tc2 in out
      && ctx.rows[k].process in out
      && ctx.rows[k].processStep in out
      && ctx.rows[k].tc3 in out
      && codes[i] in out
  {
    ResolveCodesTags(ctx, codes, EmptyState);
    var s := ResolveCodes(ctx, codes, EmptyState).st;
    var derived := ContributedTags(ctx, codes[i], ctx.rows[k]);
    assert derived[0] in derived && derived[1] in derived && derived[2] in derived && derived[3] in derived;
    assert codes[i] in s.codeTags;
  }

  /**
   * Every returned tag is an existing tag, a tag some contributing (code, row)
   * pair derives, or a code that has a contributing row: invalid codes and
   * unmatched codes contribute nothing.
   */
  lemma ResolveTagProvenance(ctx: Context, codes: seq<string>, existingTags: Option<seq<string>>, t: string)
    requires PatternSplitsInFour(ctx) && !NoCodesSupplied(Some(codes))
    requires Resolve(ctx, Some(codes), existingTags).Returned?
    requires t in Resolve(ctx, Some(codes), existingTags).tags
    ensures t in ExistingOrEmpty(existingTags) ||
      exists i, k :: 0 <= i < |codes| && 0 <= k < |ctx.rows| && Contributes(ctx, codes[i], ctx.rows[k])
        && (t in ContributedTags(ctx, codes[i], ctx.rows[k]) || t == codes[i])
  {
    ResolveCodesTags(ctx, codes, EmptyState);
  }

  /** A single valid code that matches no row: one "not found" message, no new tags, no report updates. */
  lemma ResolveSingleUnmatchedCode(ctx: Context, code: string, existingTags: Option<seq<string>>)
    requires PatternSplitsInFour(ctx) && ctx.matchesPattern(code)
    requires !(AllPresent(PartsOf(ctx, code)) && AnyMatch(ctx, ctx.rows, PartsOf(ctx, code)))
    ensures Resolve(ctx, Some([code]), existingTags)
         == Returned(FinalTags(ExistingOrEmpty(existingTags)), [NotFound(code)], [])
  {
    SplitWithoutSeparator("None", '.');
    SplitWithoutSeparator("", '.');
    assert code != "None" && code != "";
    assert !NoCodesSupplied(Some([code]));
    var p := PartsOf(ctx, code);
    if AllPresent(p) {
      ScanRowsUnmatched(ctx, ctx.rows, code, p, EmptyState);
    }
    var after := State([], [NotFound(code)], [], []);
    assert CodeStep(ctx, code, EmptyState) == Running(after);
    assert [code][1..] == [];
    assert ResolveCodes(ctx, [code], EmptyState) == ResolveCodes(ctx, [], after);
    assert ExistingOrEmpty(existingTags) + after.tags + after.codeTags == ExistingOrEmpty(existingTags);
  }

  /**
   * Only the first code can yield "not found", and then as the call's first
   * message: after it the call always holds a tag or a message.
   */
  lemma ResolveNotFoundOnlyFirst(ctx: Context, codes: seq<string>, existingTags: Option<seq<string>>)
    requires PatternSplitsInFour(ctx) && !NoCodesSupplied(Some(codes))
    requires Resolve(ctx, Some(codes), existingTags).Returned?
    ensures var errors := Resolve(ctx, Some(codes), existingTags).errors;
      forall k :: 0 <= k < |errors| && errors[k].NotFound? ==> k == 0 && errors[k] == NotFound(codes[0])
  {
    var code := codes[0];
    assert CodeStep(ctx, code, EmptyState).Running?;
    var first := CodeStep(ctx, code, EmptyState).st;
    CodeStepErrors(ctx, code, EmptyState);
    CodeStepLeavesMark(ctx, code, EmptyState);
    assert ResolveCodes(ctx, codes, EmptyState) == ResolveCodes(ctx, codes[1..], first);
    ResolveCodesNoLateNotFound(ctx, codes[1..], first);
    if ctx.matchesPattern(code) {
      var p := PartsOf(ctx, code);
      if AllPresent(p) {
        NotNeededErrorsAre(ctx, ctx.rows, code, p);
        if !AnyMatch(ctx, ctx.rows, p) {
          ScanRowsUnmatched(ctx, ctx.rows, code, p, EmptyState);
        }
      }
    }
    var errors := Resolve(ctx, Some(codes), existingTags).errors;
    var own := CodeErrors(ctx, code, EmptyState);
    assert first.errors == own && own <= errors;
    forall k | 0 <= k < |own| ensures own[k].NotFound? ==> k == 0 && own[k] == NotFound(code) {
      if ctx.matchesPattern(code) {
        var p := PartsOf(ctx, code);
        var scan := if AllPresent(p) then NotNeededErrors(ctx, ctx.rows, code, p) else [];
        assert own == scan + (if !(AllPresent(p) && AnyMatch(ctx, ctx.rows, p)) then [NotFound(code)] else []);
        if k < |scan| {
          assert own[k] == scan[k] && scan[k] in scan;
        }
      }
    }
  }

  /**
   * A call with a failing code raises at the first one, keeping the report
   * updates of the codes before it and of that code's matching rows before its
   * first row without a flag.
   */
  lemma ResolveRaisedEvents(ctx: Context, codes: seq<string>, existingTags: Option<seq<string>>)
    requires PatternSplitsInFour(ctx) && !NoCodesSupplied(Some(codes))
    requires AnyCodeOutOfRange(ctx, codes)
    ensures Resolve(ctx, Some(codes), existingTags) == Raised(RaisedEvents(ctx, codes))
  {
    ResolveCodesRaisedEvents(ctx, codes, EmptyState);
    assert [] + RaisedEvents(ctx, codes) == RaisedEvents(ctx, codes);
  }

  /**
   * The messages of a call: those of the first code under the cumulative
   * "not found" rule, then for every later code its invalid-format message or
   * its "not needed" messages, in code order and then row order.
   */
  lemma ResolveErrors(ctx: Context, codes: seq<string>, existingTags: Option<seq<string>>)
    requires PatternSplitsInFour(ctx) && !NoCodesSupplied(Some(codes))
    requires Resolve(ctx, Some(codes), existingTags).Returned?
    ensures Resolve(ctx, Some(codes), existingTags).errors
         == CodeErrors(ctx, codes[0], EmptyState) + LaterCodesErrors(ctx, codes[1..])
  {
    assert ResolveCodes(ctx, codes, EmptyState).Running?;
    ResolveCodesErrors(ctx, codes, EmptyState);
    var own := CodeErrors(ctx, codes[0], EmptyState);
    assert [] + own == own;
  }
}
