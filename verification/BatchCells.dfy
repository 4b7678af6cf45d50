/**
 * The cells of a batch file: which column a field is read from, and the stripped values of
 * one data row.
 */
module BatchCells {
  import opened Prelude

  datatype Submission = Submission(externalRef: string, answerText: string, questionText: Option<string>)

  // ---- cells

  function Strip(s: string): string {
    if s == "" then ""
    else if IsSpace(s[0]) then Strip(s[1..])
    else if IsSpace(s[|s| - 1]) then Strip(s[..|s| - 1])
    else s
  }

  /** The stretch of s from i to j has all the rest of s as space around it. */
  ghost predicate SpaceAround(s: string, i: nat, j: nat) {
    && i <= j <= |s|
    && (forall k :: 0 <= k < i ==> IsSpace(s[k])) && (forall k :: j <= k < |s| ==> IsSpace(s[k]))
  }

  lemma SpaceBefore(s: string, i: nat, j: nat)
    requires s != "" && IsSpace(s[0]) && SpaceAround(s[1..], i, j)
    ensures SpaceAround(s, i + 1, j + 1) && s[i + 1..j + 1] == s[1..][i..j]
  {
    assert forall k :: 0 < k < |s| ==> s[k] == s[1..][k - 1];
  }

  /** A stripped text is a stretch of the original between spaces, with no space at its own ends. */
  lemma {:induction false} StripTrims(s: string) returns (i: nat, j: nat)
    ensures SpaceAround(s, i, j) && Strip(s) == s[i..j]
    ensures Strip(s) != "" ==> !IsSpace(Strip(s)[0]) && !IsSpace(Strip(s)[|Strip(s)| - 1])
  {
    if s == "" {
      i, j := 0, 0;
    } else if IsSpace(s[0]) {
      i, j := StripTrims(s[1..]);
      SpaceBefore(s, i, j);
      i, j := i + 1, j + 1;
    } else if IsSpace(s[|s| - 1]) {
      i, j := StripTrims(s[..|s| - 1]);
    } else {
      i, j := 0, |s|;
    }
  }

  // ---- one row

  type Mapping = map<string, string>

  function FieldOf(mapping: Mapping, title: string): string {
    if title in mapping then mapping[title] else title
  }

  /** A row's cell under a column title: of equal titles the last counts, a cell that is not there is empty. */
  function Cell(titles: seq<string>, cells: seq<string>, title: string): string {
    if titles == [] then ""
    else if titles[|titles| - 1] == title then (if |titles| <= |cells| then cells[|titles| - 1] else "")
    else Cell(titles[..|titles| - 1], cells, title)
  }

  /** A field's value: of different titles that stand for it, the one that first appears last. */
  function Value(titles: seq<string>, mapping: Mapping, cells: seq<string>, field: string, upTo: nat): string
    requires upTo <= |titles|
  {
    if upTo == 0 then ""
    else if titles[upTo - 1] !in titles[..upTo - 1] && FieldOf(mapping, titles[upTo - 1]) == field then
      Cell(titles, cells, titles[upTo - 1])
    else Value(titles, mapping, cells, field, upTo - 1)
  }

  /** The stripped values of one data row. */
  function Fields(titles: seq<string>, mapping: Mapping, cells: seq<string>): Submission {
    var question := Strip(Value(titles, mapping, cells, "question_text", |titles|));
    Submission(Strip(Value(titles, mapping, cells, "external_ref", |titles|)),
               Strip(Value(titles, mapping, cells, "answer_text", |titles|)),
               if question == "" then None else Some(question))
  }

  // ---- the same, said of the columns

  /** The text without the space at its ends. */
  ghost predicate Trimmed(s: string, t: string) {
    && (exists i: nat, j: nat :: SpaceAround(s, i, j) && t == s[i..j])
    && (t != "" ==> !IsSpace(t[0]) && !IsSpace(t[|t| - 1]))
  }

  /** There is only one such text, and stripping finds it. */
  lemma TrimmedIsStrip(s: string, t: string)
    ensures Trimmed(s, t) <==> t == Strip(s)
  {
    var i, j := StripTrims(s);
    assert Trimmed(s, Strip(s));
    if Trimmed(s, t) {
      var k: nat, l: nat :| SpaceAround(s, k, l) && t == s[k..l];
      StretchesAgree(s, i, j, k, l);
    }
  }

  lemma StretchesAgree(s: string, i: nat, j: nat, k: nat, l: nat)
    requires SpaceAround(s, i, j) && SpaceAround(s, k, l)
    requires i < j ==> !IsSpace(s[i]) && !IsSpace(s[j - 1])
    requires k < l ==> !IsSpace(s[k]) && !IsSpace(s[l - 1])
    ensures s[i..j] == s[k..l]
  {
  }

  predicate StandsFor(mapping: Mapping, title: string, field: string) {
    if title in mapping then mapping[title] == field else title == field
  }

  /** Where a title appears first. */
  function FirstPlace(titles: seq<string>, title: string): (p: nat)
    requires title in titles
    ensures p < |titles| && titles[p] == title && title !in titles[..p]
  {
    if titles[0] == title then 0
    else
      assert titles == [titles[0]] + titles[1..];
      var p := FirstPlace(titles[1..], title);
      assert titles[..p + 1] == [titles[0]] + titles[1..][..p];
      p + 1
  }

  /**
   * The column a field is read from: of the titles that stand for it the one whose first
   * appearance is last, and of that title's columns the last.
   */
  ghost predicate Column(titles: seq<string>, mapping: Mapping, field: string, c: nat) {
    && c < |titles| && StandsFor(mapping, titles[c], field)
    && (forall d :: c < d < |titles| ==> titles[d] != titles[c])
    && forall d :: 0 <= d < |titles| && StandsFor(mapping, titles[d], field) ==>
         FirstPlace(titles, titles[d]) <= FirstPlace(titles, titles[c])
  }

  /** The cell of a column; a line that is too short has an empty one. */
  function CellAt(cells: seq<string>, c: nat): string {
    if c < |cells| then cells[c] else ""
  }

  /** The field's text in the line: its column's cell trimmed, or nothing when no title stands for it. */
  ghost predicate HoldsText(titles: seq<string>, mapping: Mapping, cells: seq<string>, field: string, text: string) {
    || (exists c :: Column(titles, mapping, field, c) && Trimmed(CellAt(cells, c), text))
    || (text == "" && forall d :: 0 <= d < |titles| ==> !StandsFor(mapping, titles[d], field))
  }

  /** With different titles and one that stands for the field, its column is the one to read. */
  lemma OnlyColumn(titles: seq<string>, mapping: Mapping, field: string, c: nat)
    requires Distinct(titles) && c < |titles| && StandsFor(mapping, titles[c], field)
    requires forall d :: 0 <= d < |titles| && StandsFor(mapping, titles[d], field) ==> d == c
    ensures Column(titles, mapping, field, c)
  {
  }

  lemma {:induction false} LastOfTitle(titles: seq<string>, cells: seq<string>, c: nat)
    requires c < |titles| && forall d :: c < d < |titles| ==> titles[d] != titles[c]
    ensures Cell(titles, cells, titles[c]) == CellAt(cells, c)
  {
    if c < |titles| - 1 {
      LastOfTitle(titles[..|titles| - 1], cells, c);
    }
  }

  lemma LaterHasAppeared(titles: seq<string>, mapping: Mapping, field: string, c: nat, u: nat)
    requires Column(titles, mapping, field, c) && FirstPlace(titles, titles[c]) < u < |titles|
    requires StandsFor(mapping, titles[u], field)
    ensures titles[u] in titles[..u]
  {
    var f := FirstPlace(titles, titles[u]);
    assert titles[..u][f] == titles[u];
  }

  lemma {:induction false} ColumnValue(titles: seq<string>, mapping: Mapping, cells: seq<string>, field: string,
                                       c: nat, upTo: nat)
    requires Column(titles, mapping, field, c) && FirstPlace(titles, titles[c]) < upTo <= |titles|
    ensures Value(titles, mapping, cells, field, upTo) == CellAt(cells, c)
  {
    if upTo - 1 == FirstPlace(titles, titles[c]) {
      assert titles[upTo - 1] == titles[c] && titles[upTo - 1] !in titles[..upTo - 1];
      LastOfTitle(titles, cells, c);
    } else {
      if StandsFor(mapping, titles[upTo - 1], field) {
        LaterHasAppeared(titles, mapping, field, c, upTo - 1);
      }
      ColumnValue(titles, mapping, cells, field, c, upTo - 1);
    }
  }

  lemma {:induction false} NoColumnNoValue(titles: seq<string>, mapping: Mapping, cells: seq<string>, field: string,
                                           upTo: nat)
    requires upTo <= |titles| && forall d :: 0 <= d < |titles| ==> !StandsFor(mapping, titles[d], field)
    ensures Value(titles, mapping, cells, field, upTo) == ""
  {
    if upTo > 0 {
      NoColumnNoValue(titles, mapping, cells, field, upTo - 1);
    }
  }

  lemma {:induction false} LastAppearance(titles: seq<string>, c: nat) returns (last: nat)
    requires c < |titles|
    ensures c <= last < |titles| && titles[last] == titles[c]
    ensures forall d :: last < d < |titles| ==> titles[d] != titles[c]
    decreases |titles| - c
  {
    last := c;
    if d :| c < d < |titles| && titles[d] == titles[c] {
      last := LastAppearance(titles, d);
    }
  }

  /** A field that some title stands for has a column to read. */
  lemma {:induction false} SomeColumn(titles: seq<string>, mapping: Mapping, field: string, upTo: nat) returns (c: nat)
    requires upTo <= |titles| && exists d :: 0 <= d < upTo && StandsFor(mapping, titles[d], field)
    requires forall d :: upTo <= d < |titles| && StandsFor(mapping, titles[d], field) ==> titles[d] in titles[..d]
    ensures Column(titles, mapping, field, c)
  {
    var t := upTo - 1;
    if StandsFor(mapping, titles[t], field) && titles[t] !in titles[..t] {
      c := LastAppearance(titles, t);
      assert FirstPlace(titles, titles[t]) == t;
      forall d | 0 <= d < |titles| && StandsFor(mapping, titles[d], field)
        ensures FirstPlace(titles, titles[d]) <= t
      {
        assert StandsFor(mapping, titles[FirstPlace(titles, titles[d])], field);
      }
    } else {
      if StandsFor(mapping, titles[t], field) {
        var d :| 0 <= d < t && titles[d] == titles[t];
        assert StandsFor(mapping, titles[d], field);
      }
      c := SomeColumn(titles, mapping, field, t);
    }
  }

  /** What the code reads is the field's text, and it is the only one. */
  lemma HoldsIsStripped(titles: seq<string>, mapping: Mapping, cells: seq<string>, field: string, text: string)
    ensures HoldsText(titles, mapping, cells, field, text)
            <==> text == Strip(Value(titles, mapping, cells, field, |titles|))
  {
    if forall d :: 0 <= d < |titles| ==> !StandsFor(mapping, titles[d], field) {
      NoColumnNoValue(titles, mapping, cells, field, |titles|);
    } else {
      var c := SomeColumn(titles, mapping, field, |titles|);
      ReadFrom(titles, mapping, cells, field, c);
      TrimmedIsStrip(CellAt(cells, c), text);
      forall d | Column(titles, mapping, field, d) ensures CellAt(cells, d) == CellAt(cells, c) {
        ReadFrom(titles, mapping, cells, field, d);
      }
    }
  }

  lemma ReadFrom(titles: seq<string>, mapping: Mapping, cells: seq<string>, field: string, c: nat)
    requires Column(titles, mapping, field, c)
    ensures Value(titles, mapping, cells, field, |titles|) == CellAt(cells, c)
  {
    ColumnValue(titles, mapping, cells, field, c, |titles|);
  }

  /** The row holds the texts of the three fields in its line. */
  ghost predicate Reads(titles: seq<string>, mapping: Mapping, cells: seq<string>, s: Submission) {
    && HoldsText(titles, mapping, cells, "external_ref", s.externalRef)
    && HoldsText(titles, mapping, cells, "answer_text", s.answerText)
    && HoldsText(titles, mapping, cells, "question_text", if s.questionText.Some? then s.questionText.value else "")
    && s.questionText != Some("")
  }

  /** Every line has exactly one such row, and it is the one the code builds. */
  lemma ReadsIsFields(titles: seq<string>, mapping: Mapping, cells: seq<string>, s: Submission)
    ensures Reads(titles, mapping, cells, s) <==> s == Fields(titles, mapping, cells)
  {
    HoldsIsStripped(titles, mapping, cells, "external_ref", s.externalRef);
    HoldsIsStripped(titles, mapping, cells, "answer_text", s.answerText);
    HoldsIsStripped(titles, mapping, cells, "question_text", if s.questionText.Some? then s.questionText.value else "");
  }
}
