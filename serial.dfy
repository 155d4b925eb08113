/** Serial numbers of checklist points: a main point ("12") and its
    sub-points ("12.1", "12.2", ...) share the leading run of digits. */
module Serial {
  import opened Text

  predicate AllDigits(s: string)
  {
    forall k :: 0 <= k < |s| ==> IsDigit(s[k])
  }

  /** The longest prefix of `s` made of digits. */
  function LeadingDigits(s: string): (r: string)
    ensures r <= s && AllDigits(r)
    ensures |r| < |s| ==> !IsDigit(s[|r|])
  {
    if s != [] && IsDigit(s[0]) then [s[0]] + LeadingDigits(s[1..]) else []
  }

  /** `get_base_serial`: the text matched by `^(\d+)`, or the whole string when
      it does not start with a digit. */
  function BaseSerial(s: string): (r: string)
    ensures s != [] && IsDigit(s[0]) ==>
              r != [] && r <= s && AllDigits(r) && (|r| < |s| ==> !IsDigit(s[|r|]))
    ensures !(s != [] && IsDigit(s[0])) ==> r == s
  {
    var digits := LeadingDigits(s);
    if digits != [] then digits else s
  }

  /** A serial is its own base exactly when it has no sub-component after its
      digits: it is all digits, or it does not start with a digit at all. */
  lemma {:induction false} OwnBaseIff(s: string)
    ensures BaseSerial(s) == s <==> (s == [] || !IsDigit(s[0]) || AllDigits(s))
  {
  }

  lemma {:induction false} LeadingDigitsOfRun(digits: string, rest: string)
    requires AllDigits(digits)
    requires rest == [] || !IsDigit(rest[0])
    ensures LeadingDigits(digits + rest) == digits
  {
    if digits != [] {
      assert (digits + rest)[1..] == digits[1..] + rest;
      LeadingDigitsOfRun(digits[1..], rest);
    } else {
      assert digits + rest == rest;
    }
  }

  /** A serial that is a run of digits followed by a non-digit has that run as
      its base, whatever follows: "12.1" and "12a" both have base "12". */
  lemma BaseOfSubSerial(digits: string, rest: string)
    requires digits != [] && AllDigits(digits)
    requires rest == [] || !IsDigit(rest[0])
    ensures BaseSerial(digits + rest) == digits
  {
    LeadingDigitsOfRun(digits, rest);
  }

  /** The serials the sheet uses: "12" is a main point, "12.1" a sub-point of
      it, and the "nan" that an empty cell reads as is its own base. */
  lemma SerialExamples()
    ensures BaseSerial("12") == "12"
    ensures BaseSerial("12.1") == "12" && BaseSerial("12.1") != "12.1"
    ensures BaseSerial("nan") == "nan"
  {
    BaseOfSubSerial("12", ".1");
    assert "12" + ".1" == "12.1";
    OwnBaseIff("12");
  }
}
