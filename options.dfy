/** The choices offered for "Select Project Type" and "Select Tester Type":
    the tags found anywhere in the sheet, sorted, with the wildcard "All". */
module Options {
  import opened Tags

  /** Python's `<` on strings: lexicographic by code point, a proper prefix first. */
  predicate StrLess(a: string, b: string)
  {
    if a == [] then b != []
    else if b == [] then false
    else if a[0] == b[0] then StrLess(a[1..], b[1..])
    else a[0] < b[0]
  }

  /** Strictly increasing, hence also free of repeats: what `sorted(set(...))` returns. */
  predicate StrictlySorted(s: seq<string>)
  {
    forall i, j | 0 <= i < j < |s| :: StrLess(s[i], s[j])
  }

  /** Every tag in the "Applies_To..." column. */
  function AllTags(column: seq<seq<string>>): set<string>
  {
    set i, t | 0 <= i < |column| && t in column[i] :: t
  }

  /** The customer names with "All", in Python's string order. */
  const ProjectUniverse: seq<string> :=
    ["AMD", "Advantest", "All", "Hi-Silicon", "Intel", "Mellanox", "Nvidia", "Xilinx"]

  /** The tester names, in Python's string order. */
  const TesterUniverse: seq<string> := ["93K", "T2K", "Ultraflex"]

  /** The entries of `u` that lie in `keep`, in the order of `u`. */
  function Select(u: seq<string>, keep: set<string>): (r: seq<string>)
    ensures forall x :: x in r <==> x in u && x in keep
    ensures StrictlySorted(u) ==> StrictlySorted(r)
  {
    if u == [] then []
    else
      var rest := Select(u[1..], keep);
      if u[0] in keep then
        assert forall k | 0 <= k < |rest| :: rest[k] in u[1..];
        [u[0]] + rest
      else rest
  }

  /** Python's string order is transitive. */
  lemma {:induction false} StrLessTransitive(a: string, b: string, c: string)
    requires StrLess(a, b) && StrLess(b, c)
    ensures StrLess(a, c)
    decreases |a|
  {
    if a != [] && a[0] == b[0] && b[0] == c[0] {
      StrLessTransitive(a[1..], b[1..], c[1..]);
    }
  }

  /** A list whose neighbours are in order is strictly sorted. */
  lemma {:induction false} SortedByNeighbours(s: seq<string>)
    requires forall k | 0 <= k < |s| - 1 :: StrLess(s[k], s[k + 1])
    ensures StrictlySorted(s)
    decreases |s|
  {
    if |s| > 1 {
      SortedByNeighbours(s[1..]);
      assert StrictlySorted(s[1..]);
      forall j | 1 < j < |s|
        ensures StrLess(s[0], s[j])
      {
        assert StrLess(s[1], s[j]) by { assert s[1] == s[1..][0] && s[j] == s[1..][j - 1]; }
        StrLessTransitive(s[0], s[1], s[j]);
      }
    }
  }

  lemma UniversesSorted()
    ensures StrictlySorted(ProjectUniverse)
    ensures StrictlySorted(TesterUniverse)
  {
    assert StrLess("AMD", "Advantest") && StrLess("Advantest", "All");
    assert StrLess("All", "Hi-Silicon") && StrLess("Hi-Silicon", "Intel");
    assert StrLess("Intel", "Mellanox") && StrLess("Mellanox", "Nvidia");
    assert StrLess("Nvidia", "Xilinx");
    SortedByNeighbours(ProjectUniverse);
    assert StrLess("93K", "T2K") && StrLess("T2K", "Ultraflex");
    SortedByNeighbours(TesterUniverse);
  }

  /** The project choices: `sorted(set(sorted(set(customers)) + ["All"]))`. */
  function ProjectOptions(column: seq<seq<string>>): (r: seq<string>)
    requires forall i :: 0 <= i < |column| ==> forall t :: t in column[i] ==> t in Customers
    ensures StrictlySorted(r)
    ensures forall x :: x in r <==> x == "All" || x in AllTags(column)
  {
    UniversesSorted();
    Select(ProjectUniverse, AllTags(column) + {"All"})
  }

  /** The tester choices: `sorted(set(testers)) + ["All"]`; "All" comes last
      even though "93K" sorts before it. */
  function TesterOptions(column: seq<seq<string>>): (r: seq<string>)
    requires forall i :: 0 <= i < |column| ==> forall t :: t in column[i] ==> t in Testers
    ensures r != [] && r[|r| - 1] == "All"
    ensures StrictlySorted(r[..|r| - 1])
    ensures forall x :: x in r[..|r| - 1] <==> x in AllTags(column)
  {
    UniversesSorted();
    var found := Select(TesterUniverse, AllTags(column));
    assert (found + ["All"])[..|found|] == found;
    found + ["All"]
  }
}
