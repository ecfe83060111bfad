/** The quota-string parser (`byte_conversion`): a string such as "1tb" is
    split into its digit characters and its other characters, the digits are
    read as a u64 and multiplied by the power of 1000 or 1024 the unit names. */
module Units {
  import opened Basics
  import opened Numerals

  /** The unit convention fixed by the configuration. */
  datatype UnitType = Decimal | Binary

  /** The unit spellings the parser accepts, smallest first; index k names base^k. */
  const LowerUnits: seq<string> := ["b", "kb", "mb", "gb", "tb"]
  const UpperUnits: seq<string> := ["B", "KB", "MB", "GB", "TB"]

  function Base(u: UnitType): nat {
    match u
    case Decimal => 1000
    case Binary => 1024
  }

  /** The digit characters of s, in order. */
  function Digits(s: seq<char>): (r: seq<char>)
    ensures AllDigits(r) && |r| <= |s|
  {
    if s == [] then [] else (if IsDigit(s[0]) then [s[0]] else []) + Digits(s[1..])
  }

  /** The non-digit characters of s, in order. */
  function NonDigits(s: seq<char>): (r: seq<char>)
    ensures NoDigitIn(r) && |r| <= |s|
  {
    if s == [] then [] else (if IsDigit(s[0]) then [] else [s[0]]) + NonDigits(s[1..])
  }

  /** Splitting distributes over concatenation: scanning character by
      character builds the two parts by appending. */
  lemma SplitAppend(a: seq<char>, b: seq<char>)
    ensures Digits(a + b) == Digits(a) + Digits(b)
    ensures NonDigits(a + b) == NonDigits(a) + NonDigits(b)
  {
    DigitsAppend(a, b);
    NonDigitsAppend(a, b);
  }

  lemma {:induction false} DigitsAppend(a: seq<char>, b: seq<char>)
    ensures Digits(a + b) == Digits(a) + Digits(b)
  {
    if a == [] {
      assert a + b == b;
    } else {
      assert (a + b)[0] == a[0];
      assert (a + b)[1..] == a[1..] + b;
      DigitsAppend(a[1..], b);
      var h := if IsDigit(a[0]) then [a[0]] else [];
      assert Digits(a + b) == h + (Digits(a[1..]) + Digits(b));
      assert h + (Digits(a[1..]) + Digits(b)) == (h + Digits(a[1..])) + Digits(b);
    }
  }

  lemma {:induction false} NonDigitsAppend(a: seq<char>, b: seq<char>)
    ensures NonDigits(a + b) == NonDigits(a) + NonDigits(b)
  {
    if a == [] {
      assert a + b == b;
    } else {
      assert (a + b)[0] == a[0];
      assert (a + b)[1..] == a[1..] + b;
      NonDigitsAppend(a[1..], b);
      var h := if IsDigit(a[0]) then [] else [a[0]];
      assert NonDigits(a + b) == h + (NonDigits(a[1..]) + NonDigits(b));
      assert h + (NonDigits(a[1..]) + NonDigits(b)) == (h + NonDigits(a[1..])) + NonDigits(b);
    }
  }

  /** Every character of s lands in exactly one of the two parts. */
  lemma {:induction false} SplitPartition(s: seq<char>)
    ensures multiset(Digits(s)) + multiset(NonDigits(s)) == multiset(s)
    ensures |Digits(s)| + |NonDigits(s)| == |s|
  {
    if s != [] {
      SplitPartition(s[1..]);
      assert s == [s[0]] + s[1..];
    }
  }

  /** A string written as digits followed by a unit splits back into them. */
  lemma {:induction false} SplitCanonical(d: seq<char>, unit: seq<char>)
    requires AllDigits(d) && NoDigitIn(unit)
    ensures Digits(d + unit) == d && NonDigits(d + unit) == unit
  {
    SplitAppend(d, unit);
    DigitsOfDigits(d);
    DigitsOfUnit(unit);
  }

  lemma {:induction false} DigitsOfDigits(d: seq<char>)
    requires AllDigits(d)
    ensures Digits(d) == d && NonDigits(d) == []
  {
    if d != [] {
      DigitsOfDigits(d[1..]);
    }
  }

  lemma {:induction false} DigitsOfUnit(unit: seq<char>)
    requires NoDigitIn(unit)
    ensures Digits(unit) == [] && NonDigits(unit) == unit
  {
    if unit != [] {
      DigitsOfUnit(unit[1..]);
    }
  }

  /** `num.parse::<u64>()`: fails on an empty digit run and on a run whose
      value does not fit in 64 bits. */
  function ParseU64(ds: seq<char>): Outcome<u64>
    requires AllDigits(ds)
  {
    if ds == [] then Panic(NoDigits)
    else if ValueOf(ds) > U64_MAX then Panic(DigitsOverflow)
    else Ok(ValueOf(ds))
  }

  /** Every rendered u64 parses back to itself. */
  lemma ParseShow(n: u64)
    ensures ParseU64(Show(n)) == Ok(n)
  {
    ValueOfShow(n);
  }

  /** Runs of one to nineteen digits never overflow. */
  lemma ShortRunsParse(ds: seq<char>)
    requires AllDigits(ds) && 1 <= |ds| <= 19
    ensures ParseU64(ds) == Ok(ValueOf(ds))
  {
    ValueOfBound(ds);
    PowTenMonotone(|ds|, 19);
    assert Pow(10, 19) == 10_000_000_000_000_000_000 by {
      assert Pow(10, 4) == 10_000;
      assert Pow(10, 8) == 10_000 * Pow(10, 4) by { PowTenAdd(4, 4); }
      assert Pow(10, 16) == Pow(10, 8) * Pow(10, 8) by { PowTenAdd(8, 8); }
      assert Pow(10, 19) == Pow(10, 16) * Pow(10, 3) by { PowTenAdd(16, 3); }
    }
  }

  lemma {:induction false} PowTenAdd(i: nat, j: nat)
    ensures Pow(10, i + j) == Pow(10, i) * Pow(10, j)
  {
    if j > 0 {
      PowTenAdd(i, j - 1);
    }
  }

  lemma {:induction false} PowTenMonotone(i: nat, j: nat)
    requires i <= j
    ensures Pow(10, i) <= Pow(10, j)
  {
    if i < j {
      PowTenMonotone(i, j - 1);
    }
  }

  /** The exact-match unit table of `byte_conversion`. */
  function Multiplier(unit: seq<char>, u: UnitType): Option<nat> {
    var b := Base(u);
    if unit == "b" || unit == "B" then Some(1)
    else if unit == "kb" || unit == "KB" then Some(b)
    else if unit == "mb" || unit == "MB" then Some(b * b)
    else if unit == "gb" || unit == "GB" then Some(b * b * b)
    else if unit == "tb" || unit == "TB" then Some(b * b * b * b)
    else None
  }

  /** The table gives base^k to the k-th spelling, lower- or upper-case, and
      nothing to any other string. */
  lemma MultiplierTable(unit: seq<char>, u: UnitType)
    ensures Multiplier(unit, u).Some? <==> unit in LowerUnits || unit in UpperUnits
    ensures forall k :: 0 <= k < 5 && (unit == LowerUnits[k] || unit == UpperUnits[k]) ==>
              Multiplier(unit, u) == Some(Pow(Base(u), k))
  {
    assert Pow(Base(u), 1) == Base(u);
    assert Pow(Base(u), 2) == Base(u) * Base(u);
    assert Pow(Base(u), 3) == Base(u) * Base(u) * Base(u);
    assert Pow(Base(u), 4) == Base(u) * Base(u) * Base(u) * Base(u);
  }

  /** `byte_conversion(s, u)`: a panic, `None` for an unknown unit, or the
      byte count. */
  function Convert(s: seq<char>, u: UnitType): Outcome<Option<u64>> {
    match ParseU64(Digits(s))
    case Panic(e) => Panic(e)
    case Ok(n) =>
      match Multiplier(NonDigits(s), u)
      case None => Ok(None)
      case Some(m) => if n * m <= U64_MAX then Ok(Some(n * m)) else Panic(ProductOverflow)
  }

  /** The imperative scan of the source: one pass over the characters,
      pushing digits to `num` and everything else to `unit`. */
  method ByteConversion(s: string, unitType: UnitType) returns (r: Outcome<Option<u64>>)
    ensures r == Convert(s, unitType)
  {
    var num: seq<char> := [];
    var unit: seq<char> := [];
    for i := 0 to |s|
      invariant num == Digits(s[..i]) && unit == NonDigits(s[..i])
    {
      var c := s[i];
      if IsDigit(c) {
        num := num + [c];
      } else {
        unit := unit + [c];
      }
      assert s[..i + 1] == s[..i] + [c];
      SplitAppend(s[..i], [c]);
    }
    assert s[..|s|] == s;
    var parsed := ParseU64(num);
    if parsed.Panic? {
      return Panic(parsed.reason);
    }
    var n := parsed.value;
    var m := Multiplier(unit, unitType);
    if m.None? {
      return Ok(None);
    }
    if n * m.value > U64_MAX {
      return Panic(ProductOverflow);
    }
    r := Ok(Some(n * m.value));
  }

  /** A quota written as a number and one of the ten unit spellings converts
      to the number times the unit's power of the base, or panics exactly when
      that product leaves the u64 range. */
  lemma ConvertSpelled(n: u64, k: nat, upper: bool, u: UnitType)
    requires k < 5
    ensures var unit := if upper then UpperUnits[k] else LowerUnits[k];
            var bytes := n * Pow(Base(u), k);
            Convert(Show(n) + unit, u) == if bytes <= U64_MAX then Ok(Some(bytes)) else Panic(ProductOverflow)
  {
    var unit := if upper then UpperUnits[k] else LowerUnits[k];
    assert NoDigitIn(unit);
    SplitCanonical(Show(n), unit);
    ParseShow(n);
    MultiplierTable(unit, u);
  }

  /** A parse with no digit, or with more digits than a u64 holds, panics
      before the unit is looked at; otherwise the result is `None` exactly
      when the non-digit part is not one of the ten spellings. */
  lemma ConvertFailures(s: seq<char>, u: UnitType)
    ensures Digits(s) == [] ==> Convert(s, u) == Panic(NoDigits)
    ensures Digits(s) != [] && ValueOf(Digits(s)) > U64_MAX ==> Convert(s, u) == Panic(DigitsOverflow)
    ensures Convert(s, u) == Ok(None) <==>
              Digits(s) != [] && ValueOf(Digits(s)) <= U64_MAX &&
              NonDigits(s) !in LowerUnits && NonDigits(s) !in UpperUnits
  {
    MultiplierTable(NonDigits(s), u);
  }

  /** Any input that converts, whatever the order of its characters, is
      worth the number its digits spell times base^k for the k-th unit
      spelled by its other characters. */
  lemma ConvertValue(s: seq<char>, u: UnitType)
    requires Convert(s, u).Ok? && Convert(s, u).value.Some?
    ensures exists k :: 0 <= k < 5 && (NonDigits(s) == LowerUnits[k] || NonDigits(s) == UpperUnits[k]) &&
              Convert(s, u).value.value == ValueOf(Digits(s)) * Pow(Base(u), k)
  {
    MultiplierTable(NonDigits(s), u);
  }

  /** Worked examples. */
  lemma OneTerabyte()
    ensures Convert("1tb", Decimal) == Ok(Some(1_000_000_000_000))
    ensures Convert("1tb", Binary) == Ok(Some(1_099_511_627_776))
  {
    ConvertSpelled(1, 4, false, Decimal);
    ConvertSpelled(1, 4, false, Binary);
    assert Show(1) + LowerUnits[4] == "1tb";
  }

  lemma FiveGigabytes()
    ensures Convert("5gb", Decimal) == Ok(Some(5_000_000_000))
  {
    ConvertSpelled(5, 3, false, Decimal);
    assert Show(5) + LowerUnits[3] == "5gb";
  }

  lemma ProductOverflows()
    ensures Convert("20000000tb", Decimal) == Panic(ProductOverflow)
  {
    var d := "20000000";
    SplitCanonical(d, "tb");
    assert d + "tb" == "20000000tb";
    assert ValueOf(d) == 20000000 by { ValueOfShow(20000000); ShowTwentyMillion(); }
    assert Multiplier("tb", Decimal) == Some(1_000_000_000_000);
  }

  lemma ShowTwentyMillion()
    ensures Show(20000000) == "20000000"
  {
    assert Show(20) == "20";
    assert Show(2000) == Show(200) + ['0'] == "2000";
    assert Show(200000) == Show(20000) + ['0'] == "200000";
    assert Show(20000000) == Show(2000000) + ['0'] == "20000000";
  }

  lemma UnknownUnitIsNone()
    ensures Convert("3xz", Decimal) == Ok(None)
  {
    SplitCanonical("3", "xz");
    assert "3" + "xz" == "3xz";
  }

  lemma MixedCaseIsNone()
    ensures Convert("1Kb", Binary) == Ok(None)
  {
    SplitCanonical("1", "Kb");
    assert "1" + "Kb" == "1Kb";
  }

  lemma EmptyUnitIsNone()
    ensures Convert("100", Decimal) == Ok(None)
  {
    SplitCanonical("100", "");
    assert "100" + "" == "100";
    ShortRunsParse("100");
  }

  lemma UnitWithoutNumberPanics()
    ensures Convert("tb", Binary) == Panic(NoDigits)
  {
    SplitCanonical("", "tb");
    assert "" + "tb" == "tb";
  }
}
