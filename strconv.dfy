/**
 * The parts of Go's strconv package that the field-resolution engine uses:
 * ParseBool / FormatBool and base-10, 64-bit ParseInt / FormatInt.
 * They are written from the package's documented behaviour.
 */
module Strconv {
  import opened Wrappers

  const MinInt64: int := -0x8000_0000_0000_0000
  const MaxInt64: int := 0x7FFF_FFFF_FFFF_FFFF

  predicate IsInt64(i: int) { MinInt64 <= i <= MaxInt64 }

  /** strconv.FormatBool */
  function FormatBool(b: bool): string
  {
    if b then "true" else "false"
  }

  /** The literals strconv.ParseBool accepts for true. */
  predicate IsTrueLiteral(s: string)
  {
    s == "1" || s == "t" || s == "T" || s == "TRUE" || s == "true" || s == "True"
  }

  /** The literals strconv.ParseBool accepts for false. */
  predicate IsFalseLiteral(s: string)
  {
    s == "0" || s == "f" || s == "F" || s == "FALSE" || s == "false" || s == "False"
  }

  /** strconv.ParseBool: a bool for the twelve accepted literals, an error for anything else. */
  function ParseBool(s: string): (r: Option<bool>)
    ensures r == Some(true) <==> IsTrueLiteral(s)
    ensures r == Some(false) <==> IsFalseLiteral(s)
    ensures r == None <==> !IsTrueLiteral(s) && !IsFalseLiteral(s)
  {
    match s
    case "1" => Some(true)
    case "t" => Some(true)
    case "T" => Some(true)
    case "TRUE" => Some(true)
    case "true" => Some(true)
    case "True" => Some(true)
    case "0" => Some(false)
    case "f" => Some(false)
    case "F" => Some(false)
    case "FALSE" => Some(false)
    case "false" => Some(false)
    case "False" => Some(false)
    case _ => None
  }

  /** ParseBool reads back what FormatBool writes. */
  lemma ParseFormatBool(b: bool)
    ensures ParseBool(FormatBool(b)) == Some(b)
  {
  }

  predicate IsDigit(c: char) { '0' <= c <= '9' }

  predicate AllDigits(s: string)
  {
    forall i :: 0 <= i < |s| ==> IsDigit(s[i])
  }

  function DigitChar(d: nat): (c: char)
    requires d < 10
    ensures IsDigit(c)
  {
    (d + '0' as int) as char
  }

  function DigitValue(c: char): (d: nat)
    requires IsDigit(c)
    ensures d < 10 && DigitChar(d) == c
  {
    (c as int - '0' as int) as nat
  }

  /** The value of a string of decimal digits, most significant first. */
  function DecimalValue(ds: string): nat
    requires AllDigits(ds)
  {
    if ds == [] then 0
    else DecimalValue(ds[..|ds| - 1]) * 10 + DigitValue(ds[|ds| - 1])
  }

  /** The shortest decimal spelling of a natural number. */
  function Digits(n: nat): (ds: string)
    ensures ds != [] && AllDigits(ds)
    ensures |ds| > 1 ==> ds[0] != '0'
  {
    if n < 10 then [DigitChar(n)] else Digits(n / 10) + [DigitChar(n % 10)]
  }

  /** strconv.FormatInt(i, 10): an optional minus sign, then the digits. */
  function FormatInt(i: int): string
  {
    if i < 0 then "-" + Digits(-i) else Digits(i)
  }

  /**
   * strconv.ParseInt(s, 10, 64): an optional '+' or '-', then one or more
   * decimal digits (no underscores in base 10), and a value that fits in a
   * signed 64-bit integer. Anything else is an error.
   */
  function ParseInt(s: string): (r: Option<int>)
    ensures r.Some? ==> IsInt64(r.value)
    ensures r.Some? ==> s != "" && AllDigits(if s[0] == '+' || s[0] == '-' then s[1..] else s)
    ensures r.Some? && s[0] == '-' ==> r.value <= 0
    ensures r.Some? && s[0] != '-' ==> r.value >= 0
  {
    if s == "" then None
    else
      var body := if s[0] == '+' || s[0] == '-' then s[1..] else s;
      if body == [] || !AllDigits(body) then None
      else
        var n: int := DecimalValue(body);
        var v: int := if s[0] == '-' then -n else n;
        if IsInt64(v) then Some(v) else None
  }

  lemma {:induction false} DecimalValueOfDigits(n: nat)
    ensures DecimalValue(Digits(n)) == n
  {
    if n >= 10 {
      var ds := Digits(n);
      assert ds[..|ds| - 1] == Digits(n / 10);
      DecimalValueOfDigits(n / 10);
    }
  }

  /** ParseInt reads back every 64-bit integer FormatInt writes. */
  lemma ParseFormatInt(i: int)
    requires IsInt64(i)
    ensures ParseInt(FormatInt(i)) == Some(i)
  {
    var s := FormatInt(i);
    if i < 0 {
      assert s[1..] == Digits(-i);
      DecimalValueOfDigits(-i);
    } else {
      DecimalValueOfDigits(i);
    }
  }

  /** ... and rejects the spelling of every integer outside the 64-bit range. */
  lemma ParseFormatIntOutOfRange(i: int)
    requires !IsInt64(i)
    ensures ParseInt(FormatInt(i)) == None
  {
    var s := FormatInt(i);
    if i < 0 {
      assert s[1..] == Digits(-i);
      DecimalValueOfDigits(-i);
    } else {
      DecimalValueOfDigits(i);
    }
  }

  /**
   * Every well-formed spelling parses to its value when that fits in 64
   * bits: an optional sign, then one or more digits, leading zeros allowed.
   */
  lemma ParseIntSpelling(sign: string, ds: string)
    requires sign == "" || sign == "+" || sign == "-"
    requires ds != [] && AllDigits(ds)
    ensures var n: int := DecimalValue(ds); var v := if sign == "-" then -n else n;
      ParseInt(sign + ds) == (if IsInt64(v) then Some(v) else None)
  {
    var s := sign + ds;
    if sign == "" {
      assert s == ds && IsDigit(s[0]);
    } else {
      assert s[0] == sign[0] && s[1..] == ds;
    }
  }

  /** "007" and "+5" are accepted, as strconv.ParseInt accepts them. */
  lemma ParseIntNonCanonical()
    ensures ParseInt("007") == Some(7) && ParseInt("+5") == Some(5)
  {
    ParseIntSpelling("", "007");
    assert "007"[..2] == "00" && "00"[..1] == "0";
    ParseIntSpelling("+", "5");
    assert "+" + "5" == "+5";
  }

  /** A float64, known only by its IEEE 754 bit pattern: no float arithmetic is modelled. */
  datatype Float64 = Float64(bits: bv64)

  /**
   * strconv.ParseFloat(s, 64) and fmt's "%g" formatting of a float64. Neither
   * is defined by this model; each use takes them as given.
   */
  datatype FloatCodec = FloatCodec(parse: string -> Option<Float64>, formatG: Float64 -> string)
}
