/** Engagement counters (`string_to_int`).  The platform reports counts either
    as numbers or as strings such as "542", "3万" or "10万+", where 万 is ten
    thousand.  The suffix is replaced by "0000" and the result read with
    `int()`, so only an integral prefix is accepted. */
module Counter {
  import opened Wrappers
  import opened Strings
  import opened Numeric

  /** The ten-thousand suffix, with and without the approximate "+". */
  const Wan: string := "\U{4E07}"
  const WanPlus: string := "\U{4E07}+"

  /** `string_to_int`: a number passes through; a string ending in 万+ or 万
      has that suffix replaced by "0000"; the rest goes through `int()`. */
  function StringToInt(x: Scalar): (r: Result<int>)
    ensures x.Int? ==> r == Success(x.n)
    ensures x.Str? && r.Success? ==> r.value >= 0
    ensures r.Failure? ==> r.error == ValueError
  {
    match x
    case Int(n) => Success(n)
    case Str(s) =>
      if EndsWith(s, WanPlus) then ParseInt(s[..|s| - 2] + "0000")
      else if EndsWith(s, Wan) then ParseInt(s[..|s| - 1] + "0000")
      else ParseInt(s)
  }

  /** The strings accepted: a digit prefix `p` followed by 万 or 万+ denotes
      p * 10000 (the empty prefix denotes 0), and a non-empty digit string
      denotes its own value. */
  lemma StringToIntAccepts(p: string)
    requires IsDigits(p)
    ensures StringToInt(Str(p + Wan)) == Success(Value(p) * 10000)
    ensures StringToInt(Str(p + WanPlus)) == Success(Value(p) * 10000)
    ensures |p| > 0 ==> StringToInt(Str(p)) == Success(Value(p))
  {
    WanAccepted(p);
    WanPlusAccepted(p);
    if |p| > 0 {
      assert !EndsWith(p, Wan) && !EndsWith(p, WanPlus) by {
        assert IsDigit(p[|p| - 1]);
      }
    }
  }

  lemma WanAccepted(p: string)
    requires IsDigits(p)
    ensures StringToInt(Str(p + Wan)) == Success(Value(p) * 10000)
  {
    TimesTenThousand(p);
    var s := p + Wan;
    assert !EndsWith(s, WanPlus) by {
      assert s[|s| - 1] != '+';
    }
    assert s[..|s| - 1] == p;
  }

  lemma WanPlusAccepted(p: string)
    requires IsDigits(p)
    ensures StringToInt(Str(p + WanPlus)) == Success(Value(p) * 10000)
  {
    TimesTenThousand(p);
    var s := p + WanPlus;
    assert s[..|s| - 2] == p;
  }

  /** Appending "0000" multiplies by ten thousand. */
  lemma TimesTenThousand(p: string)
    requires IsDigits(p)
    ensures IsDigits(p + "0000") && |p + "0000"| > 0
    ensures Value(p + "0000") == Value(p) * 10000
  {
    ValueAppend(p, "0000");
    assert Zeros(4) == "0000";
    assert Pow10(4) == 10000 by {
      assert Pow10(2) == 100;
    }
  }

  /** Every other string fails with ValueError, in particular any decimal
      prefix such as "1.2万". */
  lemma {:induction false} StringToIntRejects(s: string)
    requires forall p :: IsDigits(p) ==> s != p + Wan && s != p + WanPlus && (|p| > 0 ==> s != p)
    ensures StringToInt(Str(s)) == Failure(ValueError)
  {
    if EndsWith(s, WanPlus) {
      var p := s[..|s| - 2];
      assert s == p + WanPlus;
      DigitsPrefix(p, "0000");
    } else if EndsWith(s, Wan) {
      var p := s[..|s| - 1];
      assert s == p + Wan;
      DigitsPrefix(p, "0000");
    } else {
      assert !(|s| > 0 && IsDigits(s)) by {
        assert IsDigits(s) ==> s != s + Wan;
      }
    }
  }

  /** A digit string only has digit prefixes. */
  lemma DigitsPrefix(p: string, q: string)
    ensures IsDigits(p + q) ==> IsDigits(p)
  {
    assert forall i :: 0 <= i < |p| ==> (p + q)[i] == p[i];
  }

  /** A bare 万 reads as 0, because `int("0000")` is 0. */
  lemma BareWanIsZero()
    ensures StringToInt(Str(Wan)) == Success(0)
  {
    StringToIntAccepts("");
    assert "" + Wan == Wan;
  }

  /** A decimal prefix is refused: "1.2万" becomes "1.20000", which `int()`
      does not read. */
  lemma DecimalPrefixFails()
    ensures StringToInt(Str("1.2" + Wan)) == Failure(ValueError)
  {
    var d := "1.2" + Wan;
    assert d[|d| - 1] != '+';
    assert d[..|d| - 1] + "0000" == "1.20000";
    assert !IsDigit("1.20000"[1]);
  }

  /** Plain and suffixed numerals read as expected. */
  lemma StringToIntExamples()
    ensures StringToInt(Str("3" + WanPlus)) == Success(30000)
    ensures StringToInt(Str("542")) == Success(542)
  {
    SuffixedExample();
    PlainExample();
  }

  lemma SuffixedExample()
    ensures StringToInt(Str("3" + WanPlus)) == Success(30000)
  {
    WanPlusAccepted("3");
    assert "3"[..0] == [];
  }

  lemma PlainExample()
    ensures StringToInt(Str("542")) == Success(542)
  {
    assert !EndsWith("542", Wan) && !EndsWith("542", WanPlus);
    assert "542"[..2] == "54";
    assert "54"[..1] == "5";
    assert "5"[..0] == [];
  }
}
