/** The manual pass: the rows already marked "" that carry a point get a
    checkbox, and every ticked checkbox turns its own row's mark into
    "Checked". Rows are identified by their position in the sheet. */
module Confirm {
  import opened Text
  import opened Sheet

  /** A row is offered a checkbox when it is marked "", its serial cell is not
      empty and does not read "nan" once stripped and lower-cased, and its
      stripped description is not empty. */
  predicate Offered(r: Row, mark: string)
  {
    && mark == ""
    && r.serial.Value?
    && Lower(Strip(r.serial.text)) != "nan"
    && Strip(Str(r.description)) != ""
  }

  /** `checkbox_states`: one entry per offered row, holding whether it was ticked. */
  function CheckboxStates(rows: seq<Row>, marks: seq<string>, ticked: set<int>): map<int, bool>
    requires |marks| == |rows|
  {
    map i | 0 <= i < |rows| && Offered(rows[i], marks[i]) :: i in ticked
  }

  /** The mark column once the ticked checkboxes are applied. */
  function Merged(rows: seq<Row>, marks: seq<string>, ticked: set<int>): (final: seq<string>)
    requires |marks| == |rows|
    ensures |final| == |marks|
  {
    seq(|marks|, i requires 0 <= i < |marks| =>
      if Offered(rows[i], marks[i]) && i in ticked then "Checked" else marks[i])
  }

  /** The loop that offers the checkboxes, in row order, and records each
      widget's state. */
  method OfferCheckboxes(rows: seq<Row>, marks: seq<string>, ticked: set<int>)
    returns (states: map<int, bool>)
    requires |marks| == |rows|
    ensures states == CheckboxStates(rows, marks, ticked)
  {
    states := map[];
    var i := 0;
    while i < |rows|
      invariant 0 <= i <= |rows|
      invariant forall k :: k in states <==> 0 <= k < i && Offered(rows[k], marks[k])
      invariant forall k :: k in states ==> states[k] == (k in ticked)
    {
      if Offered(rows[i], marks[i]) {
        states := states[i := i in ticked];
      }
      i := i + 1;
    }
  }

  /** Every checkbox entry whose state is ticked writes "Checked" into its
      own row of the "D1" column. The entries are visited in row order; each
      writes only its own row, so the order of the visit does not matter. */
  method ApplyCheckboxes(d1: array<string>, states: map<int, bool>)
    requires forall i :: i in states ==> 0 <= i < d1.Length
    modifies d1
    ensures forall i :: 0 <= i < d1.Length ==>
              d1[i] == if i in states && states[i] then "Checked" else old(d1[i])
  {
    for idx := 0 to d1.Length
      invariant forall i :: 0 <= i < d1.Length ==>
                  d1[i] == if i < idx && i in states && states[i] then "Checked" else old(d1[i])
    {
      if idx in states && states[idx] {
        d1[idx] := "Checked";
      }
    }
  }

  /** The manual pass: offer the checkboxes, then write "Checked" into the
      "D1" column for every ticked one. */
  method MergeCheckboxes(rows: seq<Row>, marks: seq<string>, ticked: set<int>)
    returns (final: seq<string>)
    requires |marks| == |rows|
    ensures final == Merged(rows, marks, ticked)
  {
    var states := OfferCheckboxes(rows, marks, ticked);
    var d1 := new string[|marks|](k requires 0 <= k < |marks| => marks[k]);
    ApplyCheckboxes(d1, states);
    forall k | 0 <= k < |rows|
      ensures d1[k] == Merged(rows, marks, ticked)[k]
    {
      ApplyingStatesIsMerge(rows, marks, ticked, k);
    }
    final := d1[..];
  }

  /** Offering the checkboxes and applying them yields `Merged`. */
  lemma ApplyingStatesIsMerge(rows: seq<Row>, marks: seq<string>, ticked: set<int>, i: nat)
    requires |marks| == |rows| && i < |rows|
    ensures var states := CheckboxStates(rows, marks, ticked);
            Merged(rows, marks, ticked)[i]
            == if i in states && states[i] then "Checked" else marks[i]
  {
  }

  /** A row changes only when it was marked "", was offered a checkbox and
      was ticked, and then it becomes "Checked". */
  lemma MergeOnlyConfirmsBlankRows(rows: seq<Row>, marks: seq<string>, ticked: set<int>, i: nat)
    requires |marks| == |rows| && i < |rows|
    ensures Merged(rows, marks, ticked)[i] != marks[i] ==>
              marks[i] == "" && i in ticked && Offered(rows[i], marks[i])
              && Merged(rows, marks, ticked)[i] == "Checked"
    ensures marks[i] == "NA" ==> Merged(rows, marks, ticked)[i] == "NA"
    ensures i !in ticked ==> Merged(rows, marks, ticked)[i] == marks[i]
  {
  }

  /** Each checkbox affects only its own row: a row's final mark depends on
      whether that row, and no other, was ticked. */
  lemma MergeIsLocal(rows: seq<Row>, marks: seq<string>, t1: set<int>, t2: set<int>, i: nat)
    requires |marks| == |rows| && i < |rows|
    requires (i in t1) == (i in t2)
    ensures Merged(rows, marks, t1)[i] == Merged(rows, marks, t2)[i]
  {
  }

  /** Merging the same ticks a second time changes nothing. */
  lemma MergeIdempotent(rows: seq<Row>, marks: seq<string>, ticked: set<int>)
    requires |marks| == |rows|
    ensures Merged(rows, Merged(rows, marks, ticked), ticked) == Merged(rows, marks, ticked)
  {
    var once := Merged(rows, marks, ticked);
    var twice := Merged(rows, once, ticked);
    forall i | 0 <= i < |marks|
      ensures twice[i] == once[i]
    {
      if Offered(rows[i], marks[i]) && i in ticked {
        assert once[i] == "Checked";
        assert !Offered(rows[i], once[i]);
      }
    }
  }

  /** Starting from "" and "NA", every row ends as "", "NA" or "Checked". */
  lemma MergeTriState(rows: seq<Row>, marks: seq<string>, ticked: set<int>)
    requires |marks| == |rows|
    requires forall i :: 0 <= i < |marks| ==> marks[i] == "" || marks[i] == "NA"
    ensures forall i :: 0 <= i < |marks| ==>
              Merged(rows, marks, ticked)[i] in {"", "NA", "Checked"}
  {
  }
}
