/**
 * The server-side parse of an uploaded batch file, whose lines are already split into cells:
 * every data row becomes one row to screen or one failure, never both and never neither.
 */
module BatchParsing {
  import opened Prelude
  import opened BatchCells

  const MaxRows: nat := 500
  const AnswerMinChars: nat := 10
  const AnswerMaxChars: nat := 10000
  const ExternalRefMaxChars: nat := 128
  const QuestionMaxChars: nat := 2000
  const RequiredFields: set<string> := {"external_ref", "answer_text"}

  datatype Reason =
    | EmptyFile
    | MissingColumns(names: set<string>)
    | OverRowLimit
    | RefEmpty
    | RefTooLong
    | AnswerEmpty
    | AnswerTooShort
    | AnswerTooLong
    | QuestionTooLong
    | QuestionMissing

  datatype Rejection = Rejection(rowNumber: nat, externalRef: Option<string>, reason: Reason)

  // ---- one row

  /** What a row must be to be screened. */
  ghost predicate Acceptable(s: Submission, requiresQuestion: bool) {
    && 1 <= |s.externalRef| <= 128
    && 10 <= |s.answerText| <= 10000
    && (s.questionText.Some? ==> 1 <= |s.questionText.value| <= 2000)
    && (requiresQuestion ==> s.questionText.Some?)
  }

  /** The first thing wrong with a row: its reference, then its answer, then its question. */
  ghost predicate FirstFault(s: Submission, requiresQuestion: bool, reason: Reason) {
    var goodRef, goodAnswer := 1 <= |s.externalRef| <= 128, 10 <= |s.answerText| <= 10000;
    match reason
    case RefEmpty => |s.externalRef| == 0
    case RefTooLong => |s.externalRef| > 128
    case AnswerEmpty => goodRef && |s.answerText| == 0
    case AnswerTooShort => goodRef && 1 <= |s.answerText| < 10
    case AnswerTooLong => goodRef && |s.answerText| > 10000
    case QuestionTooLong => goodRef && goodAnswer && s.questionText.Some? && |s.questionText.value| > 2000
    case QuestionMissing => goodRef && goodAnswer && s.questionText.None? && requiresQuestion
    case _ => false
  }

  function ValidateRow(s: Submission, requiresQuestion: bool): (reason: Option<Reason>)
    requires s.questionText != Some("")
    ensures reason.None? <==> Acceptable(s, requiresQuestion)
    ensures reason.Some? ==> FirstFault(s, requiresQuestion, reason.value)
  {
    if s.externalRef == "" then Some(RefEmpty)
    else if |s.externalRef| > ExternalRefMaxChars then Some(RefTooLong)
    else if s.answerText == "" then Some(AnswerEmpty)
    else if |s.answerText| < AnswerMinChars then Some(AnswerTooShort)
    else if |s.answerText| > AnswerMaxChars then Some(AnswerTooLong)
    else if s.questionText.Some? && |s.questionText.value| > QuestionMaxChars then Some(QuestionTooLong)
    else if requiresQuestion && s.questionText.None? then Some(QuestionMissing)
    else None
  }

  // ---- the whole file

  /** The reader skips blank lines. */
  function DataRows(lines: seq<seq<string>>): seq<seq<string>> {
    if lines == [] then []
    else DataRows(lines[..|lines| - 1]) + if lines[|lines| - 1] == [] then [] else [lines[|lines| - 1]]
  }

  /** The data rows are the lines that are not blank, each once and in their order. */
  lemma {:induction false} DataRowsAreLines(lines: seq<seq<string>>) returns (places: seq<nat>)
    ensures Rising(places, |lines|) && |places| == |DataRows(lines)|
    ensures forall k :: 0 <= k < |places| ==> DataRows(lines)[k] == lines[places[k]]
    ensures forall p: nat :: p < |lines| ==> (p in places <==> lines[p] != [])
  {
    places := [];
    if lines != [] {
      var n := |lines| - 1;
      places := DataRowsAreLines(lines[..n]);
      if lines[n] != [] {
        places := places + [n];
      }
    }
  }

  /** Places below `n`, in rising order. */
  ghost predicate Rising(places: seq<nat>, n: nat) {
    && (forall i, j :: 0 <= i < j < |places| ==> places[i] < places[j])
    && forall i :: 0 <= i < |places| ==> places[i] < n
  }

  /** Every place below `n` is in exactly one of the two lists. */
  ghost predicate SharedOut(a: seq<nat>, b: seq<nat>, n: nat) {
    && Rising(a, n) && Rising(b, n)
    && forall p: nat :: p < n ==> (p in a <==> p !in b)
  }

  /** An accepted row holds the trimmed cells of its data row, is acceptable, and among the first ones. */
  ghost predicate RowIs(titles: seq<string>, mapping: Mapping, cells: seq<string>, place: nat, requiresQuestion: bool,
                        row: Submission) {
    place < 500 && Reads(titles, mapping, cells, row) && Acceptable(row, requiresQuestion)
  }

  /** A failure names its row's place in the file, counted from the header, and why that row cannot be screened. */
  ghost predicate FailureIs(titles: seq<string>, mapping: Mapping, cells: seq<string>, place: nat,
                            requiresQuestion: bool,
                            failure: Rejection) {
    && failure.rowNumber == place + 2
    && if place >= 500 then failure.reason == OverRowLimit && failure.externalRef.None?
       else exists row :: Reads(titles, mapping, cells, row) && FirstFault(row, requiresQuestion, failure.reason)
                          && failure.externalRef == if row.externalRef == "" then None else Some(row.externalRef)
  }

  ghost predicate RowsAre(titles: seq<string>, mapping: Mapping, data: seq<seq<string>>, requiresQuestion: bool,
                          kept: seq<nat>, rows: seq<Submission>) {
    && |kept| == |rows|
    && forall k :: 0 <= k < |rows| ==>
         kept[k] < |data| && RowIs(titles, mapping, data[kept[k]], kept[k], requiresQuestion, rows[k])
  }

  ghost predicate FailuresAre(titles: seq<string>, mapping: Mapping, data: seq<seq<string>>, requiresQuestion: bool,
                              refused: seq<nat>, failures: seq<Rejection>) {
    && |refused| == |failures|
    && forall k :: 0 <= k < |failures| ==>
         refused[k] < |data| && FailureIs(titles, mapping, data[refused[k]], refused[k], requiresQuestion, failures[k])
  }

  /** Every data row is in exactly one of the two lists. */
  ghost predicate EachRowOnce(titles: seq<string>, mapping: Mapping, data: seq<seq<string>>, requiresQuestion: bool,
                              rows: seq<Submission>, failures: seq<Rejection>) {
    exists kept, refused ::
      && SharedOut(kept, refused, |data|)
      && RowsAre(titles, mapping, data, requiresQuestion, kept, rows)
      && FailuresAre(titles, mapping, data, requiresQuestion, refused, failures)
  }

  /** Places shared out between two lists add up. */
  lemma {:induction false} SharesAddUp(a: seq<nat>, b: seq<nat>, n: nat)
    requires SharedOut(a, b, n)
    ensures |a| + |b| == n
  {
    if n == 0 {
      RisingFits(a, 0);
      RisingFits(b, 0);
    } else if n - 1 in a {
      DropLast(a, b, n);
      SharesAddUp(a[..|a| - 1], b, n - 1);
    } else {
      SharesAddUpSwap(b, a, n);
      DropLast(b, a, n);
      SharesAddUp(a, b[..|b| - 1], n - 1);
    }
  }

  lemma SharesAddUpSwap(a: seq<nat>, b: seq<nat>, n: nat)
    requires SharedOut(b, a, n)
    ensures SharedOut(a, b, n)
  {
  }

  lemma DropLast(a: seq<nat>, b: seq<nat>, n: nat)
    requires n > 0 && SharedOut(a, b, n) && n - 1 in a
    ensures a != [] && SharedOut(a[..|a| - 1], b, n - 1) && SharedOut(b, a[..|a| - 1], n - 1)
  {
    var i :| 0 <= i < |a| && a[i] == n - 1;
    assert a[|a| - 1] < n;
    assert n - 1 !in b;
    assert a == a[..|a| - 1] + [n - 1];
    assert forall k :: 0 <= k < |b| ==> b[k] in b;
  }

  /** The count a batch is committed with is the number of its data rows, and at most the limit is screened. */
  lemma RowTotalIsDataRows(titles: seq<string>, mapping: Mapping, data: seq<seq<string>>, requiresQuestion: bool,
                           rows: seq<Submission>, failures: seq<Rejection>)
    requires EachRowOnce(titles, mapping, data, requiresQuestion, rows, failures)
    ensures |rows| + |failures| == |data| && |rows| <= MaxRows
  {
    var kept, refused :|
      && SharedOut(kept, refused, |data|)
      && RowsAre(titles, mapping, data, requiresQuestion, kept, rows)
      && FailuresAre(titles, mapping, data, requiresQuestion, refused, failures);
    SharesAddUp(kept, refused, |data|);
    RisingFits(kept, MaxRows);
  }

  lemma {:induction false} RisingFits(places: seq<nat>, n: nat)
    requires Rising(places, n)
    ensures |places| <= n
  {
    if places != [] {
      RisingFits(places[..|places| - 1], places[|places| - 1]);
    }
  }

  /** The outcome of a file is settled: the same file cannot be shared out in two ways. */
  lemma OutcomeIsSettled(titles: seq<string>, mapping: Mapping, data: seq<seq<string>>, requiresQuestion: bool,
                         rows: seq<Submission>, failures: seq<Rejection>, kept: seq<nat>, refused: seq<nat>, p: nat)
    requires p < |data| && SharedOut(kept, refused, |data|)
    requires RowsAre(titles, mapping, data, requiresQuestion, kept, rows)
    requires FailuresAre(titles, mapping, data, requiresQuestion, refused, failures)
    ensures p in kept <==>
            p < 500 && exists row :: Reads(titles, mapping, data[p], row) && Acceptable(row, requiresQuestion)
  {
    if p in kept {
      var k :| 0 <= k < |kept| && kept[k] == p;
      assert Reads(titles, mapping, data[p], rows[k]);
    } else {
      var k :| 0 <= k < |refused| && refused[k] == p;
      assert FailureIs(titles, mapping, data[p], p, requiresQuestion, failures[k]);
      forall row | Reads(titles, mapping, data[p], row) ensures row == Fields(titles, mapping, data[p]) {
        ReadsIsFields(titles, mapping, data[p], row);
      }
    }
  }

  function Missing(titles: seq<string>, mapping: Mapping): set<string> {
    RequiredFields - set title | title in titles :: FieldOf(mapping, title)
  }

  ghost predicate Filled(titles: seq<string>, mapping: Mapping, field: string) {
    exists d :: 0 <= d < |titles| && StandsFor(mapping, titles[d], field)
  }

  /** The required fields no title stands for. */
  ghost function Unfilled(titles: seq<string>, mapping: Mapping): set<string> {
    (if Filled(titles, mapping, "external_ref") then {} else {"external_ref"})
    + if Filled(titles, mapping, "answer_text") then {} else {"answer_text"}
  }

  lemma MissingIsUnfilled(titles: seq<string>, mapping: Mapping)
    ensures Missing(titles, mapping) == Unfilled(titles, mapping)
  {
    var fields := set title | title in titles :: FieldOf(mapping, title);
    forall field ensures field in fields <==> Filled(titles, mapping, field) {
      if field in fields {
        var title :| title in titles && FieldOf(mapping, title) == field;
        var d :| 0 <= d < |titles| && titles[d] == title;
        assert StandsFor(mapping, titles[d], field);
      }
      if d :| 0 <= d < |titles| && StandsFor(mapping, titles[d], field) {
        assert FieldOf(mapping, titles[d]) == field;
      }
    }
  }

  /** A file without a header or a required column is one failure; otherwise each data row is accounted for once. */
  ghost predicate ParseOutcome(header: Option<seq<string>>, lines: seq<seq<string>>, mapping: Mapping,
                               requiresQuestion: bool, rows: seq<Submission>, failures: seq<Rejection>) {
    if header.None? then rows == [] && failures == [Rejection(0, None, EmptyFile)]
    else if Unfilled(header.value, mapping) != {} then
      rows == [] && failures == [Rejection(0, None, MissingColumns(Unfilled(header.value, mapping)))]
    else EachRowOnce(header.value, mapping, DataRows(lines), requiresQuestion, rows, failures)
  }

  /** The number a batch of this file is committed with: its data rows, or one for a file that fails as a whole. */
  ghost function RowTotal(header: Option<seq<string>>, lines: seq<seq<string>>, mapping: Mapping): nat {
    if header.None? || Unfilled(header.value, mapping) != {} then 1 else |DataRows(lines)|
  }

  lemma OutcomesAddUp(header: Option<seq<string>>, lines: seq<seq<string>>, mapping: Mapping, requiresQuestion: bool,
                      rows: seq<Submission>, failures: seq<Rejection>)
    requires ParseOutcome(header, lines, mapping, requiresQuestion, rows, failures)
    ensures |rows| + |failures| == RowTotal(header, lines, mapping) && |rows| <= MaxRows
  {
    if header.Some? && Unfilled(header.value, mapping) == {} {
      RowTotalIsDataRows(header.value, mapping, DataRows(lines), requiresQuestion, rows, failures);
    }
  }

  /** One row of the loop: it goes to the rows or to the failures. */
  method TakeRow(titles: seq<string>, mapping: Mapping, cells: seq<string>, place: nat, requiresQuestion: bool)
    returns (row: Option<Submission>, failure: Option<Rejection>)
    ensures row.Some? <==> failure.None?
    ensures row.Some? ==> RowIs(titles, mapping, cells, place, requiresQuestion, row.value)
    ensures failure.Some? ==> FailureIs(titles, mapping, cells, place, requiresQuestion, failure.value)
  {
    if place >= MaxRows {
      return None, Some(Rejection(place + 2, None, OverRowLimit));
    }
    var fields := Fields(titles, mapping, cells);
    ReadsIsFields(titles, mapping, cells, fields);
    var reason := ValidateRow(fields, requiresQuestion);
    if reason.Some? {
      var ref := if fields.externalRef == "" then None else Some(fields.externalRef);
      return None, Some(Rejection(place + 2, ref, reason.value));
    }
    return Some(fields), None;
  }

  /** Missing header or columns fail the file as a whole; otherwise each data row is accounted for once. */
  method ParseAndValidate(header: Option<seq<string>>, lines: seq<seq<string>>, mapping: Mapping,
                          requiresQuestion: bool)
    returns (rows: seq<Submission>, failures: seq<Rejection>)
    ensures ParseOutcome(header, lines, mapping, requiresQuestion, rows, failures)
  {
    rows, failures := [], [];
    if header.None? {
      failures := [Rejection(0, None, EmptyFile)];
      return;
    }
    var titles := header.value;
    var missing := Missing(titles, mapping);
    MissingIsUnfilled(titles, mapping);
    if missing != {} {
      failures := [Rejection(0, None, MissingColumns(missing))];
      return;
    }
    var data := DataRows(lines);
    ghost var kept: seq<nat>, refused: seq<nat> := [], [];
    for n := 0 to |data|
      invariant SharedOut(kept, refused, n)
      invariant RowsAre(titles, mapping, data, requiresQuestion, kept, rows)
      invariant FailuresAre(titles, mapping, data, requiresQuestion, refused, failures)
    {
      var row, failure := TakeRow(titles, mapping, data[n], n, requiresQuestion);
      ShareNext(kept, refused, n);
      if row.Some? {
        OneMoreRow(titles, mapping, data, requiresQuestion, kept, rows, n, row.value);
        rows, kept := rows + [row.value], kept + [n];
      } else {
        OneMoreFailure(titles, mapping, data, requiresQuestion, refused, failures, n, failure.value);
        failures, refused := failures + [failure.value], refused + [n];
      }
    }
  }

  lemma OneMoreRow(titles: seq<string>, mapping: Mapping, data: seq<seq<string>>, requiresQuestion: bool,
                   kept: seq<nat>, rows: seq<Submission>, n: nat, row: Submission)
    requires RowsAre(titles, mapping, data, requiresQuestion, kept, rows) && n < |data|
    requires RowIs(titles, mapping, data[n], n, requiresQuestion, row)
    ensures RowsAre(titles, mapping, data, requiresQuestion, kept + [n], rows + [row])
  {
  }

  lemma OneMoreFailure(titles: seq<string>, mapping: Mapping, data: seq<seq<string>>, requiresQuestion: bool,
                       refused: seq<nat>, failures: seq<Rejection>, n: nat, failure: Rejection)
    requires FailuresAre(titles, mapping, data, requiresQuestion, refused, failures) && n < |data|
    requires FailureIs(titles, mapping, data[n], n, requiresQuestion, failure)
    ensures FailuresAre(titles, mapping, data, requiresQuestion, refused + [n], failures + [failure])
  {
  }

  lemma ShareNext(a: seq<nat>, b: seq<nat>, n: nat)
    requires SharedOut(a, b, n)
    ensures SharedOut(a + [n], b, n + 1) && SharedOut(a, b + [n], n + 1)
  {
    assert n !in a && n !in b;
  }
}
