/** Deciding which points apply to the selected project and tester. Main
    points register a (section, base serial) key when they match; every row
    is then marked "" or "NA" by whether its own key was registered. */
module Relevance {
  import opened Text
  import opened Sheet
  import opened Serial
  import opened Tags
  import opened Sections

  /** A row with the columns the classifier derives from it. */
  datatype Annotated = Annotated(
    row: Row,
    baseSNo: string,            // "Base_SNo": base of the serial as read, unstripped
    customers: seq<string>,     // "Applies_To_Extracted"
    testers: seq<string>,       // "Applies_To_ExtractedTester"
    section: string)            // "Section_Heading"

  /** The derived columns of one row, given its section heading. */
  function AnnotateRow(r: Row, section: string): Annotated
  {
    Annotated(r, BaseSerial(Str(r.serial)), CustomersOf(Str(r.description)), TestersOf(Str(r.description)), section)
  }

  /** The derived columns of every row. */
  function Annotate(rows: seq<Row>): (ann: seq<Annotated>)
    ensures |ann| == |rows|
  {
    var labels := SectionLabels(rows);
    seq(|rows|, i requires 0 <= i < |rows| => AnnotateRow(rows[i], labels[i]))
  }

  /** The column assignments `Base_SNo`, `Applies_To_Extracted`,
      `Applies_To_ExtractedTester` and `Section_Heading`. */
  method AnnotateRows(rows: seq<Row>) returns (ann: seq<Annotated>)
    ensures ann == Annotate(rows)
  {
    var labels := SectionHeadings(rows);
    ann := [];
    var i := 0;
    while i < |rows|
      invariant 0 <= i <= |rows|
      invariant ann == Annotate(rows)[..i]
    {
      var customers := ExtractCustomers(Str(rows[i].description));
      var testers := ExtractTesters(Str(rows[i].description));
      var a := Annotated(rows[i], BaseSerial(Str(rows[i].serial)), customers, testers, labels[i]);
      Snoc(Annotate(rows), i, ann, a);
      ann := ann + [a];
      i := i + 1;
    }
  }

  /** The resolver's test: the stripped serial is its own base. Heading rows
      ("nan" or "") pass it too. */
  predicate IsMainPoint(a: Annotated)
  {
    var sno := SerialText(a.row);
    sno == BaseSerial(sno)
  }

  /** The key a main point registers: its section and the base of its
      stripped serial. */
  function ResolverKey(a: Annotated): (string, string)
  {
    (a.section, BaseSerial(SerialText(a.row)))
  }

  /** The key a row is marked by: its section and its "Base_SNo". */
  function MarkKey(a: Annotated): (string, string)
  {
    (a.section, a.baseSNo)
  }

  /** A main point applies when it names the selected project or tester, when
      either selection is "All", or when it names no project and no tester. */
  predicate Selects(a: Annotated, project: string, tester: string)
  {
    || project in a.customers || project == "All"
    || tester in a.testers || tester == "All"
    || (a.customers == [] && a.testers == [])
  }

  /** The row registers its key in `relevant_main_bases`. */
  predicate Registers(a: Annotated, project: string, tester: string)
  {
    IsMainPoint(a) && Selects(a, project, tester)
  }

  /** The keys of the entries of `xs` that pass `keep`, gathered in order. */
  function Collect<T, K>(xs: seq<T>, keep: T -> bool, key: T -> K): set<K>
  {
    if xs == [] then {}
    else
      var last := xs[|xs| - 1];
      Collect(xs[..|xs| - 1], keep, key) + (if keep(last) then {key(last)} else {})
  }

  /** A key is collected exactly when some entry that passes `keep` has it. */
  lemma CollectMembership<T, K>(xs: seq<T>, keep: T -> bool, key: T -> K, k: K)
    ensures k in Collect(xs, keep, key) <==> exists m :: 0 <= m < |xs| && keep(xs[m]) && key(xs[m]) == k
  {
    if k in Collect(xs, keep, key) {
      var m := CollectingEntry(xs, keep, key, k);
    }
    if exists m :: 0 <= m < |xs| && keep(xs[m]) && key(xs[m]) == k {
      var m :| 0 <= m < |xs| && keep(xs[m]) && key(xs[m]) == k;
      CollectedKey(xs, keep, key, m);
    }
  }

  /** Every collected key comes from some entry, found here. */
  lemma {:induction false} CollectingEntry<T, K>(xs: seq<T>, keep: T -> bool, key: T -> K, k: K)
    returns (m: nat)
    requires k in Collect(xs, keep, key)
    ensures m < |xs| && keep(xs[m]) && key(xs[m]) == k
    decreases |xs|
  {
    var init := xs[..|xs| - 1];
    if k in Collect(init, keep, key) {
      m := CollectingEntry(init, keep, key, k);
      assert xs[m] == init[m];
    } else {
      m := |xs| - 1;
    }
  }

  /** Every entry that passes `keep` has its key collected. */
  lemma {:induction false} CollectedKey<T, K>(xs: seq<T>, keep: T -> bool, key: T -> K, m: nat)
    requires m < |xs| && keep(xs[m])
    ensures key(xs[m]) in Collect(xs, keep, key)
    decreases |xs|
  {
    var init := xs[..|xs| - 1];
    if m < |init| {
      assert init[m] == xs[m];
      CollectedKey(init, keep, key, m);
    }
  }

  /** `relevant_main_bases` once the rows `ann` have been visited. */
  function RelevantKeys(ann: seq<Annotated>, project: string, tester: string): set<(string, string)>
  {
    Collect(ann, a => Registers(a, project, tester), ResolverKey)
  }

  /** The loop that fills `relevant_main_bases`. */
  method ResolveRelevant(ann: seq<Annotated>, project: string, tester: string)
    returns (keys: set<(string, string)>)
    ensures keys == RelevantKeys(ann, project, tester)
  {
    keys := {};
    var i := 0;
    while i < |ann|
      invariant 0 <= i <= |ann|
      invariant keys == RelevantKeys(ann[..i], project, tester)
    {
      assert ann[..i + 1][..i] == ann[..i];
      if IsMainPoint(ann[i]) && Selects(ann[i], project, tester) {
        keys := keys + {ResolverKey(ann[i])};
      }
      i := i + 1;
    }
    assert ann[..i] == ann;
  }

  /** A key is relevant exactly when some selected main point registered it. */
  lemma RelevantKeysMembership(ann: seq<Annotated>, project: string, tester: string, key: (string, string))
    ensures key in RelevantKeys(ann, project, tester) <==>
              exists m :: 0 <= m < |ann| && Registers(ann[m], project, tester) && ResolverKey(ann[m]) == key
  {
    CollectMembership(ann, a => Registers(a, project, tester), ResolverKey, key);
  }

  /** `mark_relevance`: heading rows get "", other rows "" when their key was
      registered and "NA" otherwise. */
  function MarkRelevance(a: Annotated, relevant: set<(string, string)>): string
  {
    if IsHeadingRow(a.row) then ""
    else if MarkKey(a) in relevant then ""
    else "NA"
  }

  /** The "D1" column after `df.apply(mark_relevance, axis=1)`. */
  function MarkColumn(ann: seq<Annotated>, relevant: set<(string, string)>): (marks: seq<string>)
    ensures |marks| == |ann|
  {
    seq(|ann|, i requires 0 <= i < |ann| => MarkRelevance(ann[i], relevant))
  }

  /** The marks before any checkbox: heading rows are "", and every other row
      is "" exactly when some selected main point in its section has its base,
      and "NA" otherwise. */
  lemma MarkMeaning(ann: seq<Annotated>, project: string, tester: string, i: nat)
    requires i < |ann|
    ensures var mark := MarkColumn(ann, RelevantKeys(ann, project, tester))[i];
            && (mark == "" || mark == "NA")
            && (IsHeadingRow(ann[i].row) ==> mark == "")
            && (!IsHeadingRow(ann[i].row) ==>
                  (mark == "" <==> exists m :: 0 <= m < |ann| && Registers(ann[m], project, tester)
                                                && ResolverKey(ann[m]) == MarkKey(ann[i])))
  {
    RelevantKeysMembership(ann, project, tester, MarkKey(ann[i]));
  }

  /** Rows that are not headings and share a (section, base) key share their mark. */
  lemma SharedKeySharedMark(ann: seq<Annotated>, relevant: set<(string, string)>, i: nat, j: nat)
    requires i < |ann| && j < |ann|
    requires !IsHeadingRow(ann[i].row) && !IsHeadingRow(ann[j].row)
    requires MarkKey(ann[i]) == MarkKey(ann[j])
    ensures MarkColumn(ann, relevant)[i] == MarkColumn(ann, relevant)[j]
  {
  }

  /** With "All" chosen for the project or for the tester, every main point
      registers its key. */
  lemma WildcardSelectsEveryMainPoint(ann: seq<Annotated>, project: string, tester: string, i: nat)
    requires project == "All" || tester == "All"
    requires i < |ann| && IsMainPoint(ann[i])
    ensures ResolverKey(ann[i]) in RelevantKeys(ann, project, tester)
  {
    RelevantKeysMembership(ann, project, tester, ResolverKey(ann[i]));
  }

  /** A point that names neither a project nor a tester applies whatever is selected. */
  lemma GenericMainPointSelected(ann: seq<Annotated>, project: string, tester: string, i: nat)
    requires i < |ann| && IsMainPoint(ann[i])
    requires ann[i].customers == [] && ann[i].testers == []
    ensures ResolverKey(ann[i]) in RelevantKeys(ann, project, tester)
  {
    RelevantKeysMembership(ann, project, tester, ResolverKey(ann[i]));
  }

  /** For annotated rows, the two keys of a row agree when its serial has no
      whitespace around it. */
  lemma {:induction false} KeysAgree(rows: seq<Row>, i: nat)
    requires i < |rows|
    requires Str(rows[i].serial) == [] || (!IsSpace(Str(rows[i].serial)[0])
               && !IsSpace(Str(rows[i].serial)[|Str(rows[i].serial)| - 1]))
    ensures ResolverKey(Annotate(rows)[i]) == MarkKey(Annotate(rows)[i])
  {
    StripTrimmed(Str(rows[i].serial));
  }

  /** So with "All" selected, a main point whose serial has no surrounding
      whitespace is marked "". */
  lemma WildcardMarksMainPointBlank(rows: seq<Row>, project: string, tester: string, i: nat)
    requires project == "All" || tester == "All"
    requires i < |rows|
    requires Str(rows[i].serial) == [] || (!IsSpace(Str(rows[i].serial)[0])
               && !IsSpace(Str(rows[i].serial)[|Str(rows[i].serial)| - 1]))
    requires IsMainPoint(Annotate(rows)[i])
    ensures MarkColumn(Annotate(rows), RelevantKeys(Annotate(rows), project, tester))[i] == ""
  {
    KeysAgree(rows, i);
    WildcardSelectsEveryMainPoint(Annotate(rows), project, tester, i);
  }

  /** The resolver registers the base of the stripped serial, while the mark
      looks up the base of the serial as read. A main point whose serial
      carries a leading space (" 12") registers ("", "12") but is looked up as
      ("", " 12"), so it is marked "NA" even with every selection "All". */
  lemma LeadingSpaceMainPointMarkedNA()
    ensures var rows := [Row(Value(" 12"), Value("Check ground plane"))];
            var ann := Annotate(rows);
            IsMainPoint(ann[0]) && MarkColumn(ann, RelevantKeys(ann, "All", "All"))[0] == "NA"
  {
    var rows := [Row(Value(" 12"), Value("Check ground plane"))];
    var ann := Annotate(rows);
    LeadingSpaceSerial();
    assert ann[0].row == rows[0];
    assert ann[0].baseSNo == BaseSerial(" 12");
    LoneRowKeyMismatch(ann, "All", "All");
  }

  lemma LeadingSpaceSerial()
    ensures BaseSerial(" 12") == " 12"
    ensures SerialText(Row(Value(" 12"), Value("Check ground plane"))) == "12"
    ensures BaseSerial("12") == "12"
    ensures !IsHeadingSerial("12")
  {
    assert Strip(" 12") == "12" by {
      assert IsSpace(' ');
      DigitNotSpace('1');
      DigitNotSpace('2');
      assert " 12"[1..] == "12";
      assert TrimStart(" 12") == TrimStart("12") == "12";
      assert TrimEnd("12") == "12";
    }
    OwnBaseIff("12");
    assert Lower("12")[0] == '1';
  }

  /** A lone row whose two keys differ is never found in the relevant set. */
  lemma LoneRowKeyMismatch(ann: seq<Annotated>, project: string, tester: string)
    requires |ann| == 1 && !IsHeadingRow(ann[0].row)
    requires ResolverKey(ann[0]) != MarkKey(ann[0])
    ensures MarkColumn(ann, RelevantKeys(ann, project, tester))[0] == "NA"
  {
    RelevantKeysMembership(ann, project, tester, MarkKey(ann[0]));
  }
}
