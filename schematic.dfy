/** The classifier end to end: check the columns, derive the per-row
    columns, resolve the relevant keys, mark every row, and fold in the
    ticked checkboxes. */
module Schematic {
  import opened Text
  import opened Sheet
  import opened Serial
  import opened Tags
  import opened Sections
  import opened Relevance
  import opened Confirm

  datatype Error = MissingColumns

  datatype Result<T> = Success(value: T) | Failure(error: Error)

  /** The final "D1" column for the given selections and ticks. */
  function FinalColumn(rows: seq<Row>, project: string, tester: string, ticked: set<int>): (d1: seq<string>)
    ensures |d1| == |rows|
  {
    var ann := Annotate(rows);
    Merged(rows, MarkColumn(ann, RelevantKeys(ann, project, tester)), ticked)
  }

  /** `Schematic()` once the sheet is read: `columns` are the sheet's column
      names, `project` and `tester` the two selections and `ticked` the rows
      whose checkbox the user ticked. */
  method Classify(columns: set<string>, rows: seq<Row>, project: string, tester: string, ticked: set<int>)
    returns (result: Result<seq<string>>)
    ensures result.Failure? <==> !(RequiredColumns <= columns)
    ensures result.Success? ==> result.value == FinalColumn(rows, project, tester, ticked)
    ensures result.Success? ==> |result.value| == |rows|
    ensures result.Success? ==>
              forall i :: 0 <= i < |rows| ==> result.value[i] in {"", "NA", "Checked"}
  {
    if !("Description" in columns && "D1" in columns && "S.No" in columns) {
      return Failure(MissingColumns);
    }
    var ann := AnnotateRows(rows);
    var relevant := ResolveRelevant(ann, project, tester);
    var marks := MarkColumn(ann, relevant);
    forall k | 0 <= k < |rows|
      ensures marks[k] == "" || marks[k] == "NA"
    {
      MarkMeaning(ann, project, tester, k);
    }
    var d1 := MergeCheckboxes(rows, marks, ticked);
    MergeTriState(rows, marks, ticked);
    result := Success(d1);
  }

  /** Rows that are not headings and share their section and base serial end
      with the same mark, unless one of them was ticked. */
  lemma SharedKeySharedFinalMark(rows: seq<Row>, project: string, tester: string, ticked: set<int>, i: nat, j: nat)
    requires i < |rows| && j < |rows|
    requires !IsHeadingRow(rows[i]) && !IsHeadingRow(rows[j])
    requires MarkKey(Annotate(rows)[i]) == MarkKey(Annotate(rows)[j])
    requires i !in ticked && j !in ticked
    ensures FinalColumn(rows, project, tester, ticked)[i] == FinalColumn(rows, project, tester, ticked)[j]
  {
    var ann := Annotate(rows);
    var marks := MarkColumn(ann, RelevantKeys(ann, project, tester));
    SharedKeySharedMark(ann, RelevantKeys(ann, project, tester), i, j);
    MergeOnlyConfirmsBlankRows(rows, marks, ticked, i);
    MergeOnlyConfirmsBlankRows(rows, marks, ticked, j);
  }

  /** Ticking a main point does not confirm its sub-points: a row that was not
      ticked keeps the mark the resolver gave it. */
  lemma UntickedRowKeepsMark(rows: seq<Row>, project: string, tester: string, ticked: set<int>, i: nat)
    requires i < |rows| && i !in ticked
    ensures var ann := Annotate(rows);
            FinalColumn(rows, project, tester, ticked)[i]
            == MarkColumn(ann, RelevantKeys(ann, project, tester))[i]
  {
    var ann := Annotate(rows);
    MergeOnlyConfirmsBlankRows(rows, MarkColumn(ann, RelevantKeys(ann, project, tester)), ticked, i);
  }

  /** A row the resolver marked "NA" stays "NA" whatever is ticked. */
  lemma NotApplicableIsFinal(rows: seq<Row>, project: string, tester: string, ticked: set<int>, i: nat)
    requires i < |rows|
    requires var ann := Annotate(rows); MarkColumn(ann, RelevantKeys(ann, project, tester))[i] == "NA"
    ensures FinalColumn(rows, project, tester, ticked)[i] == "NA"
  {
    var ann := Annotate(rows);
    MergeOnlyConfirmsBlankRows(rows, MarkColumn(ann, RelevantKeys(ann, project, tester)), ticked, i);
  }

  /** The checkbox filter tests the serial differently from the section scan:
      a serial cell holding only blanks opens a section, yet the row is still
      offered a checkbox, since the cell is not empty and does not read "nan". */
  lemma BlankSerialHeadingOffered()
    ensures IsHeadingRow(Row(Value(" "), Value("Power")))
    ensures Offered(Row(Value(" "), Value("Power")), "")
  {
    assert Strip(" ") == "" by {
      assert IsSpace(' ');
      assert " "[1..] == "";
    }
    assert Strip("Power") != "" by {
      assert !IsSpace('P') && !IsSpace('r');
      assert TrimStart("Power") == "Power";
    }
  }
}
