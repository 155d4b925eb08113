/** Customer and tester tags read off a point's description: a vocabulary
    term counts when it occurs as a whole word, unless a "for reference",
    "for e.g." or "for example" phrase precedes it on the same line. */
module Tags {
  import opened Text

  const Customers: seq<string> := ["Intel", "Xilinx", "AMD", "Nvidia", "Hi-Silicon", "Advantest", "Mellanox"]
  const Testers: seq<string> := ["93K", "T2K", "Ultraflex"]

  /** One position of a search pattern: a literal character, or the regular
      expression `.`, which matches any character except a newline. */
  datatype Atom = Lit(c: char) | AnyButNewline

  predicate AtomMatches(a: Atom, c: char)
  {
    match a
    case Lit(x) => c == x
    case AnyButNewline => c != '\n'
  }

  function Literal(s: string): seq<Atom>
  {
    seq(|s|, k requires 0 <= k < |s| => Lit(s[k]))
  }

  /** The phrase `p` matches the text starting at position `i`. */
  predicate PatternAt(s: string, i: int, p: seq<Atom>)
  {
    0 <= i && i + |p| <= |s| && forall k | 0 <= k < |p| :: AtomMatches(p[k], s[i + k])
  }

  /** `t` occurs in `s` starting at position `j`. */
  predicate OccursAt(s: string, j: int, t: string)
  {
    0 <= j && j + |t| <= |s| && s[j..j + |t|] == t
  }

  /** `\b`: exactly one of the characters around position `j` is a word character. */
  predicate WordBoundary(s: string, j: int)
    requires 0 <= j <= |s|
  {
    (j > 0 && IsWordChar(s[j - 1])) != (j < |s| && IsWordChar(s[j]))
  }

  /** `.*?` can span `s[a..b]`: that stretch holds no newline. */
  predicate NoNewline(s: string, a: int, b: int)
    requires 0 <= a <= b <= |s|
  {
    forall k | a <= k < b :: s[k] != '\n'
  }

  /** `re.search(phrase + r'.*?\b' + re.escape(term), s)` finds a match: the phrase,
      then anything but a newline, then the term starting at a word boundary. */
  predicate Suppresses(s: string, phrase: seq<Atom>, term: string)
  {
    exists i, j | 0 <= i <= j <= |s| ::
      && PatternAt(s, i, phrase)
      && i + |phrase| <= j
      && OccursAt(s, j, term)
      && WordBoundary(s, j)
      && NoNewline(s, i + |phrase|, j)
  }

  /** `re.search(r'\b' + term + r'\b', s)` finds a match: the term as a whole word. */
  predicate WholeWord(s: string, term: string)
  {
    exists j | 0 <= j <= |s| ::
      OccursAt(s, j, term) && WordBoundary(s, j) && WordBoundary(s, j + |term|)
  }

  /** `any(re.search(...) for p in ignore_phrases)`. */
  predicate Suppressed(s: string, phrases: seq<seq<Atom>>, term: string)
  {
    exists q | 0 <= q < |phrases| :: Suppresses(s, phrases[q], term)
  }

  /** "for e.g." as a regular expression: each of its two dots is a wildcard. */
  const ForEg: seq<Atom> := Literal("for e") + [AnyButNewline, Lit('g'), AnyButNewline]

  const CustomerPhrases: seq<seq<Atom>> := [Literal("for reference"), ForEg, Literal("for example")]

  /** The tester patterns spell the third phrase with a capital F; they are
      matched case-sensitively against lower-cased text. */
  const TesterPhrases: seq<seq<Atom>> := [Literal("for reference"), ForEg, Literal("For example")]

  /** The vocabulary entry `v` is reported for the lower-cased text `s`. */
  predicate Keeps(s: string, phrases: seq<seq<Atom>>, v: string)
  {
    !Suppressed(s, phrases, Lower(v)) && WholeWord(s, Lower(v))
  }

  /** The tags of the lower-cased text `s`: the vocabulary entries it keeps, in
      vocabulary order. */
  function TagsOf(s: string, vocab: seq<string>, phrases: seq<seq<Atom>>): seq<string>
  {
    if vocab == [] then []
    else
      var last := vocab[|vocab| - 1];
      TagsOf(s, vocab[..|vocab| - 1], phrases) + (if Keeps(s, phrases, last) then [last] else [])
  }

  /** `extract_customers(description)`. */
  function CustomersOf(description: string): seq<string>
  {
    TagsOf(Lower(description), Customers, CustomerPhrases)
  }

  /** `extract_testers(description)`. */
  function TestersOf(description: string): seq<string>
  {
    TagsOf(Lower(description), Testers, TesterPhrases)
  }

  /** The loop shared by `extract_customers` and `extract_testers`: lower-case
      the description, then append each vocabulary entry that is not
      suppressed and occurs as a whole word. */
  method ExtractTags(description: string, vocab: seq<string>, phrases: seq<seq<Atom>>)
    returns (found: seq<string>)
    ensures found == TagsOf(Lower(description), vocab, phrases)
  {
    var text := Lower(description);
    found := [];
    var k := 0;
    while k < |vocab|
      invariant 0 <= k <= |vocab|
      invariant found == TagsOf(text, vocab[..k], phrases)
    {
      var term := Lower(vocab[k]);
      assert vocab[..k + 1][..k] == vocab[..k];
      if Suppressed(text, phrases, term) {
        // continue
      } else if WholeWord(text, term) {
        found := found + [vocab[k]];
      }
      k := k + 1;
    }
    assert vocab[..k] == vocab;
  }

  method ExtractCustomers(description: string) returns (found: seq<string>)
    ensures found == CustomersOf(description)
  {
    found := ExtractTags(description, Customers, CustomerPhrases);
  }

  method ExtractTesters(description: string) returns (found: seq<string>)
    ensures found == TestersOf(description)
  {
    found := ExtractTags(description, Testers, TesterPhrases);
  }

  predicate Distinct(s: seq<string>)
  {
    forall i, j | 0 <= i < j < |s| :: s[i] != s[j]
  }

  /** `a` lists some of the entries of `b`, in the order `b` lists them. */
  predicate IsSubsequence(a: seq<string>, b: seq<string>)
    decreases |b|
  {
    if a == [] then true
    else if b == [] then false
    else if a[|a| - 1] == b[|b| - 1] then IsSubsequence(a[..|a| - 1], b[..|b| - 1])
    else IsSubsequence(a, b[..|b| - 1])
  }

  /** A vocabulary entry is reported iff it is not suppressed and occurs as a
      whole word. */
  lemma {:induction false} TagsMembership(s: string, vocab: seq<string>, phrases: seq<seq<Atom>>, v: string)
    ensures v in TagsOf(s, vocab, phrases) <==> v in vocab && Keeps(s, phrases, v)
  {
    if vocab != [] {
      var init := vocab[..|vocab| - 1];
      TagsMembership(s, init, phrases, v);
      assert vocab == init + [vocab[|vocab| - 1]];
    }
  }

  /** The tags come in vocabulary order. */
  lemma {:induction false} TagsInVocabularyOrder(s: string, vocab: seq<string>, phrases: seq<seq<Atom>>)
    ensures IsSubsequence(TagsOf(s, vocab, phrases), vocab)
  {
    if vocab != [] {
      var init := vocab[..|vocab| - 1];
      var last := vocab[|vocab| - 1];
      TagsInVocabularyOrder(s, init, phrases);
      var prev := TagsOf(s, init, phrases);
      assert vocab == init + [last];
      if Keeps(s, phrases, last) {
        assert (prev + [last])[..|prev|] == prev;
      } else {
        assert TagsOf(s, vocab, phrases) == prev + [] == prev;
        SubsequenceExtend(prev, init, last);
      }
    }
  }

  /** Appending to `b` keeps `a` a subsequence of it. */
  lemma {:induction false} SubsequenceExtend(a: seq<string>, b: seq<string>, x: string)
    requires IsSubsequence(a, b)
    ensures IsSubsequence(a, b + [x])
    decreases |b|, 1
  {
    assert (b + [x])[..|b|] == b;
    if a != [] && a[|a| - 1] == x {
      SubsequenceDropLast(a, b);
    }
  }

  /** Dropping the last entry of `a` keeps it a subsequence of `b`. */
  lemma {:induction false} SubsequenceDropLast(a: seq<string>, b: seq<string>)
    requires a != [] && IsSubsequence(a, b)
    ensures IsSubsequence(a[..|a| - 1], b)
    decreases |b|, 0
  {
    var init := b[..|b| - 1];
    assert b == init + [b[|b| - 1]];
    if a[|a| - 1] == b[|b| - 1] {
      SubsequenceExtend(a[..|a| - 1], init, b[|b| - 1]);
    } else {
      SubsequenceDropLast(a, init);
      SubsequenceExtend(a[..|a| - 1], init, b[|b| - 1]);
    }
  }

  /** Each term is reported at most once when the vocabulary has no repeats. */
  lemma {:induction false} TagsDistinct(s: string, vocab: seq<string>, phrases: seq<seq<Atom>>)
    requires Distinct(vocab)
    ensures Distinct(TagsOf(s, vocab, phrases))
  {
    if vocab != [] {
      var init := vocab[..|vocab| - 1];
      var last := vocab[|vocab| - 1];
      TagsDistinct(s, init, phrases);
      TagsMembership(s, init, phrases, last);
      assert last !in init;
    }
  }

  lemma VocabulariesDistinct()
    ensures Distinct(Customers) && Distinct(Testers)
  {
  }

  /** What `extract_customers` returns: distinct customer names, in vocabulary
      order, exactly those that occur case-insensitively as whole words and
      are not suppressed. */
  lemma CustomersSpec(description: string, v: string)
    ensures Distinct(CustomersOf(description))
    ensures IsSubsequence(CustomersOf(description), Customers)
    ensures v in CustomersOf(description) <==>
              v in Customers && !Suppressed(Lower(description), CustomerPhrases, Lower(v))
              && WholeWord(Lower(description), Lower(v))
  {
    VocabulariesDistinct();
    TagsDistinct(Lower(description), Customers, CustomerPhrases);
    TagsInVocabularyOrder(Lower(description), Customers, CustomerPhrases);
    TagsMembership(Lower(description), Customers, CustomerPhrases, v);
  }

  /** What `extract_testers` returns, in the same terms. */
  lemma TestersSpec(description: string, v: string)
    ensures Distinct(TestersOf(description))
    ensures IsSubsequence(TestersOf(description), Testers)
    ensures v in TestersOf(description) <==>
              v in Testers && !Suppressed(Lower(description), TesterPhrases, Lower(v))
              && WholeWord(Lower(description), Lower(v))
  {
    VocabulariesDistinct();
    TagsDistinct(Lower(description), Testers, TesterPhrases);
    TagsInVocabularyOrder(Lower(description), Testers, TesterPhrases);
    TagsMembership(Lower(description), Testers, TesterPhrases, v);
  }

  /** A suppression phrase earlier on the same line than a word-start
      occurrence of a customer name drops that name, even when the name also
      occurs elsewhere as a whole word. */
  lemma SuppressedCustomerDropped(description: string, v: string, q: nat, i: int, j: int)
    requires q < |CustomerPhrases|
    requires 0 <= i <= j <= |description|
    requires PatternAt(Lower(description), i, CustomerPhrases[q])
    requires i + |CustomerPhrases[q]| <= j
    requires OccursAt(Lower(description), j, Lower(v)) && WordBoundary(Lower(description), j)
    requires NoNewline(Lower(description), i + |CustomerPhrases[q]|, j)
    ensures v !in CustomersOf(description)
  {
    assert Suppresses(Lower(description), CustomerPhrases[q], Lower(v));
    TagsMembership(Lower(description), Customers, CustomerPhrases, v);
  }

  /** The capitalised "For example" pattern never matches lower-cased text. */
  lemma CapitalisedPhraseNeverMatches(description: string, i: int)
    ensures !PatternAt(Lower(description), i, Literal("For example"))
  {
    if 0 <= i < |description| {
      assert Literal("For example")[0] == Lit('F');
    }
  }

  /** So only "for reference" and "for e.g." suppress a tester name. */
  lemma TesterSuppressionIgnoresForExample(description: string, term: string)
    ensures Suppressed(Lower(description), TesterPhrases, term) <==>
              Suppressed(Lower(description), TesterPhrases[..2], term)
  {
    var s := Lower(description);
    if Suppresses(s, TesterPhrases[2], term) {
      var i, j :| 0 <= i <= j <= |s| && PatternAt(s, i, TesterPhrases[2])
                  && i + |TesterPhrases[2]| <= j && OccursAt(s, j, term) && WordBoundary(s, j)
                  && NoNewline(s, i + |TesterPhrases[2]|, j);
      CapitalisedPhraseNeverMatches(description, i);
      assert false;
    }
    if Suppressed(s, TesterPhrases, term) {
      var q :| 0 <= q < |TesterPhrases| && Suppresses(s, TesterPhrases[q], term);
      assert TesterPhrases[..2][q] == TesterPhrases[q];
    }
    if Suppressed(s, TesterPhrases[..2], term) {
      var q :| 0 <= q < 2 && Suppresses(s, TesterPhrases[..2][q], term);
      assert TesterPhrases[..2][q] == TesterPhrases[q];
    }
  }

  /** "For example Intel parts may need X" is not tagged Intel. */
  lemma ForExampleIntelNotTagged()
    ensures "Intel" !in CustomersOf("For example Intel parts may need X")
  {
    var d := "For example Intel parts may need X";
    ExamplePhraseMatches(d);
    ExampleNamesIntel(d);
    SuppressedCustomerDropped(d, "Intel", 2, 0, 12);
  }

  lemma ExamplePhraseMatches(d: string)
    requires d == "For example Intel parts may need X"
    ensures PatternAt(Lower(d), 0, CustomerPhrases[2])
  {
    var s := Lower(d);
    forall k | 0 <= k < 11
      ensures AtomMatches(CustomerPhrases[2][k], s[k])
    {
      assert s[k] == LowerChar(d[k]);
    }
  }

  lemma ExampleNamesIntel(d: string)
    requires d == "For example Intel parts may need X"
    ensures OccursAt(Lower(d), 12, Lower("Intel")) && WordBoundary(Lower(d), 12)
    ensures NoNewline(Lower(d), 11, 12)
  {
    var s := Lower(d);
    forall k | 0 <= k < 5
      ensures s[12 + k] == Lower("Intel")[k]
    {
      assert s[12 + k] == LowerChar(d[12 + k]);
    }
    assert s[12..17] == Lower("Intel");
    assert s[11] == ' ';
  }
}
