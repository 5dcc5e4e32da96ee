/**
 * The Python 2 string operations the scripts rely on: str() and int() on
 * decimal integers, slicing, ASCII upper/lower case, and the two ways the
 * scripts rewrite a species code (chars 1..4 upper-cased).
 */
module PyText {
  import opened Wrappers

  predicate IsDigit(c: char) { '0' <= c <= '9' }

  predicate AllDigits(s: string) { forall i :: 0 <= i < |s| ==> IsDigit(s[i]) }

  function DigitChar(d: int): (c: char)
    requires 0 <= d <= 9
    ensures IsDigit(c) && (c as int) - ('0' as int) == d
  {
    "0123456789"[d]
  }

  function DigitValue(c: char): (d: int)
    requires IsDigit(c)
    ensures 0 <= d <= 9 && DigitChar(d) == c
  {
    (c as int) - ('0' as int)
  }

  /** The decimal digits of n, most significant first, without leading zeros. */
  function NatStr(n: nat): (s: string)
    ensures |s| >= 1 && AllDigits(s)
    ensures |s| == 1 <==> n < 10
    ensures s[0] != '0' || n == 0
    decreases n
  {
    if n < 10 then [DigitChar(n)] else NatStr(n / 10) + [DigitChar(n % 10)]
  }

  /** Python's str() of an integer. */
  function Str(n: int): (s: string)
    ensures |s| >= 1
    ensures s[0] == '-' <==> n < 0
  {
    if n < 0 then "-" + NatStr(-n) else NatStr(n)
  }

  /** The value of a string of decimal digits (leading zeros allowed). */
  function DigitsValue(s: string): nat
    requires AllDigits(s)
  {
    if s == [] then 0 else 10 * DigitsValue(s[..|s| - 1]) + DigitValue(s[|s| - 1])
  }

  /**
   * Python's int() of a string: an optional sign followed by at least one
   * decimal digit. None stands for the ValueError int() raises otherwise
   * (for example on the empty string or on a lone "-").
   */
  function ParseInt(s: string): (r: Option<int>)
    ensures s == [] ==> r == None
    ensures s == "-" ==> r == None
    ensures AllDigits(s) && s != [] ==> r == Some(DigitsValue(s))
  {
    if |s| > 0 && (s[0] == '-' || s[0] == '+') then
      if |s| > 1 && AllDigits(s[1..]) then
        var v: int := DigitsValue(s[1..]);
        Some(if s[0] == '-' then -v else v)
      else None
    else if |s| > 0 && AllDigits(s) then Some(DigitsValue(s))
    else None
  }

  lemma {:induction false} DigitsValueOfNatStr(n: nat)
    ensures DigitsValue(NatStr(n)) == n
    decreases n
  {
    var s := NatStr(n);
    if n >= 10 {
      DigitsValueOfNatStr(n / 10);
      assert s[..|s| - 1] == NatStr(n / 10);
    }
  }

  /** int(str(n)) == n for every integer n. */
  lemma ParseStr(n: int)
    ensures ParseInt(Str(n)) == Some(n)
  {
    if n < 0 {
      ParseNegative(n);
    } else {
      DigitsValueOfNatStr(n);
    }
  }

  /** int() of a minus sign followed by the digits of -n is n. */
  lemma ParseNegative(n: int)
    requires n < 0
    ensures ParseInt(Str(n)) == Some(n)
  {
    ParseMinus(-n);
  }

  /** int() of a minus sign followed by the digits of m is -m. */
  lemma ParseMinus(m: int)
    requires m > 0
    ensures ParseInt("-" + NatStr(m)) == Some(-m)
  {
    DigitsValueOfNatStr(m);
    ParseMinusDigits(NatStr(m), m);
  }

  /** int() of a minus sign followed by the digits of m is -m, whatever the digits. */
  lemma ParseMinusDigits(x: string, m: int)
    requires AllDigits(x) && x != [] && DigitsValue(x) == m
    ensures ParseInt("-" + x) == Some(-m)
  {
    assert ("-" + x)[1..] == x;
  }

  /** Appending a decimal digit to a positive number appends its character. */
  lemma StrAppendDigit(z: int, k: int)
    requires z >= 1 && 0 <= k <= 9
    ensures Str(10 * z + k) == Str(z) + [DigitChar(k)]
  {
    assert (10 * z + k) / 10 == z && (10 * z + k) % 10 == k;
  }

  function UpperChar(c: char): char
  {
    if 'a' <= c <= 'z' then (c as int - 32) as char else c
  }

  function LowerChar(c: char): char
  {
    if 'A' <= c <= 'Z' then (c as int + 32) as char else c
  }

  /** str.upper() on ASCII text: letters a..z become A..Z, everything else stays. */
  function Upper(s: string): (r: string)
    ensures |r| == |s|
    ensures forall i :: 0 <= i < |s| ==> r[i] == UpperChar(s[i])
  {
    seq(|s|, i requires 0 <= i < |s| => UpperChar(s[i]))
  }

  /** str.lower() on ASCII text. */
  function Lower(s: string): (r: string)
    ensures |r| == |s|
    ensures forall i :: 0 <= i < |s| ==> r[i] == LowerChar(s[i])
  {
    seq(|s|, i requires 0 <= i < |s| => LowerChar(s[i]))
  }

  /**
   * The `strUC` column: i[0] + i[1:5].upper() + i[5]. Python raises an
   * IndexError (None here) for a code shorter than six characters; the
   * result always has exactly six characters.
   */
  function StrUC(code: string): (r: Option<string>)
    ensures r.Some? <==> |code| >= 6
    ensures r.Some? ==> |r.value| == 6 && r.value[0] == code[0] && r.value[5] == code[5]
    ensures r.Some? ==> forall i :: 1 <= i < 5 ==> r.value[i] == UpperChar(code[i])
  {
    if |code| < 6 then None else Some([code[0]] + Upper(code[1..5]) + [code[5]])
  }

  /**
   * The raster-name normalisation of the AOI overlay script:
   * i[0] + i[1:5].upper() + i[5:]. Python raises an IndexError (None) only
   * on the empty name; the slice i[1:5] is clipped for short names, so the
   * length is always preserved.
   */
  function NormaliseName(name: string): (r: Option<string>)
    ensures r.Some? <==> |name| >= 1
    ensures r.Some? ==> |r.value| == |name|
    ensures r.Some? ==> forall i :: 0 <= i < |name| ==>
              r.value[i] == if 1 <= i < 5 then UpperChar(name[i]) else name[i]
  {
    if |name| == 0 then None
    else
      var cut := if |name| < 5 then |name| else 5;
      Some([name[0]] + Upper(name[1..cut]) + name[cut..])
  }

  /**
   * Normalisation only changes the case of chars 1..4, so two names with the
   * same normal form are equal up to case: names that differ other than by
   * case stay distinct.
   */
  lemma NormaliseKeepsDistinct(a: string, b: string)
    requires |a| >= 1 && |b| >= 1
    ensures NormaliseName(a).value == NormaliseName(b).value ==> Upper(a) == Upper(b)
  {
    var na, nb := NormaliseName(a).value, NormaliseName(b).value;
    if na == nb {
      assert |a| == |b|;
      forall i | 0 <= i < |a| ensures Upper(a)[i] == Upper(b)[i] {
        assert na[i] == nb[i];
      }
    }
  }
}
