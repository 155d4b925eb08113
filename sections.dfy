/** The section scan: every row is labelled with the heading it sits under.
    A heading row is one whose serial cell is empty, blank or "nan". */
module Sections {
  import opened Text
  import opened Sheet

  /** The serial as the scan reads it: the text of the cell ("nan" when
      empty) with surrounding whitespace removed. */
  function SerialText(r: Row): string
  {
    Strip(Str(r.serial))
  }

  predicate IsHeadingSerial(sno: string)
  {
    sno == "" || Lower(sno) == "nan"
  }

  predicate IsHeadingRow(r: Row)
  {
    IsHeadingSerial(SerialText(r))
  }

  /** The label a heading row opens: its stripped description, or "" when the
      description cell is empty. */
  function HeadingText(r: Row): string
  {
    match r.description
    case Missing => ""
    case Value(d) => Strip(d)
  }

  /** `current_heading` once the first `n` rows have been scanned. */
  function CurrentHeading(rows: seq<Row>, n: nat): string
    requires n <= |rows|
  {
    if n == 0 then ""
    else if IsHeadingRow(rows[n - 1]) then HeadingText(rows[n - 1])
    else CurrentHeading(rows, n - 1)
  }

  /** The "Section_Heading" column: one label per row. */
  function SectionLabels(rows: seq<Row>): (labels: seq<string>)
    ensures |labels| == |rows|
  {
    seq(|rows|, i requires 0 <= i < |rows| => CurrentHeading(rows, i + 1))
  }

  /** Growing a prefix of `full` by its next element gives the longer prefix. */
  lemma Snoc<T>(full: seq<T>, i: nat, prefix: seq<T>, x: T)
    requires i < |full| && prefix == full[..i] && x == full[i]
    ensures prefix + [x] == full[..i + 1]
  {
  }

  /** The scan over the rows, updating `current_heading` at every heading row
      and appending it to `section_headings` for every row. */
  method SectionHeadings(rows: seq<Row>) returns (labels: seq<string>)
    ensures labels == SectionLabels(rows)
  {
    var current := "";
    labels := [];
    var i := 0;
    while i < |rows|
      invariant 0 <= i <= |rows|
      invariant current == CurrentHeading(rows, i)
      invariant labels == SectionLabels(rows)[..i]
    {
      if IsHeadingRow(rows[i]) {
        current := HeadingText(rows[i]);
      }
      Snoc(SectionLabels(rows), i, labels, current);
      labels := labels + [current];
      i := i + 1;
    }
  }

  /** A heading row is labelled with its own text. */
  lemma HeadingLabelsItself(rows: seq<Row>, i: nat)
    requires i < |rows| && IsHeadingRow(rows[i])
    ensures SectionLabels(rows)[i] == HeadingText(rows[i])
  {
  }

  /** Any other row is labelled with the text of the nearest heading row above it. */
  lemma {:induction false} LabelIsNearestHeading(rows: seq<Row>, h: nat, i: nat)
    requires h <= i < |rows| && IsHeadingRow(rows[h])
    requires forall k :: h < k <= i ==> !IsHeadingRow(rows[k])
    ensures SectionLabels(rows)[i] == HeadingText(rows[h])
  {
    assert SectionLabels(rows)[i] == CurrentHeading(rows, i + 1);
    NearestHeading(rows, h, i + 1);
  }

  lemma {:induction false} NearestHeading(rows: seq<Row>, h: nat, n: nat)
    requires h < n <= |rows| && IsHeadingRow(rows[h])
    requires forall k :: h < k < n ==> !IsHeadingRow(rows[k])
    ensures CurrentHeading(rows, n) == HeadingText(rows[h])
  {
    if n - 1 > h {
      NearestHeading(rows, h, n - 1);
    }
  }

  /** Rows above the first heading are labelled "". */
  lemma {:induction false} LabelBeforeAnyHeading(rows: seq<Row>, i: nat)
    requires i < |rows|
    requires forall k :: 0 <= k <= i ==> !IsHeadingRow(rows[k])
    ensures SectionLabels(rows)[i] == ""
  {
    NoHeadingYet(rows, i + 1);
  }

  lemma {:induction false} NoHeadingYet(rows: seq<Row>, n: nat)
    requires n <= |rows|
    requires forall k :: 0 <= k < n ==> !IsHeadingRow(rows[k])
    ensures CurrentHeading(rows, n) == ""
  {
    if n > 0 {
      NoHeadingYet(rows, n - 1);
    }
  }

  /** Section labels carry no whitespace at either end, since the scan
      stores each heading's description stripped. */
  lemma LabelsAreStripped(rows: seq<Row>, i: nat)
    requires i < |rows|
    ensures var l := SectionLabels(rows)[i];
            l == [] || (!IsSpace(l[0]) && !IsSpace(l[|l| - 1]))
  {
    assert SectionLabels(rows)[i] == CurrentHeading(rows, i + 1);
    CurrentHeadingStripped(rows, i + 1);
  }

  lemma {:induction false} CurrentHeadingStripped(rows: seq<Row>, n: nat)
    requires n <= |rows|
    ensures var l := CurrentHeading(rows, n);
            l == [] || (!IsSpace(l[0]) && !IsSpace(l[|l| - 1]))
  {
    if n > 0 {
      if IsHeadingRow(rows[n - 1]) {
        if rows[n - 1].description.Value? {
          StripEnds(rows[n - 1].description.text);
        }
      } else {
        CurrentHeadingStripped(rows, n - 1);
      }
    }
  }

  /** An empty serial cell, and one holding "NaN" in any case, makes a heading row. */
  lemma MissingSerialIsHeading(d: Cell)
    ensures IsHeadingRow(Row(Missing, d))
    ensures IsHeadingRow(Row(Value("NaN"), d))
  {
    assert Strip("nan") == "nan" by {
      assert TrimStart("nan") == "nan";
      assert TrimEnd("nan") == "nan";
    }
    assert Strip("NaN") == "NaN" by {
      assert TrimStart("NaN") == "NaN";
      assert TrimEnd("NaN") == "NaN";
    }
    assert Lower("NaN") == "nan";
  }
}
