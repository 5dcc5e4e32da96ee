/**
 * The combined habitat/zone code of the zonal overlays (habitat.py and
 * representation.py): CellStatistics SUM of a habitat map (class 0..3) and
 * ten times the zone raster gives k + 10 * z; the code is split back by
 * taking the last decimal digit as the season and the rest as the zone.
 */
module ZoneCodes {
  import opened Wrappers
  import opened PyText

  /** The habitat classes of a GAP habitat map (ValueMap): 0 none, 1 summer, 2 winter, 3 all year. */
  datatype Season = NonHabitat | Summer | Winter | AllYear

  function SeasonCode(s: Season): (k: int)
    ensures 0 <= k <= 3
  {
    match s
    case NonHabitat => 0
    case Summer => 1
    case Winter => 2
    case AllYear => 3
  }

  /** ValueMap[k]: None is the KeyError for a digit outside 0..3. */
  function SeasonOf(k: int): (r: Option<Season>)
    ensures r.Some? <==> 0 <= k <= 3
    ensures r.Some? ==> SeasonCode(r.value) == k
  {
    if k == 0 then Some(NonHabitat)
    else if k == 1 then Some(Summer)
    else if k == 2 then Some(Winter)
    else if k == 3 then Some(AllYear)
    else None
  }

  /** The column a season's pixel count is written to. */
  function ColumnName(s: Season): string
  {
    match s
    case NonHabitat => "NonHabitatPixels"
    case Summer => "SummerPixels"
    case Winter => "WinterPixels"
    case AllYear => "AllYearPixels"
  }

  /** The value of the summed raster where the habitat class is k and the zone is z. */
  function Encode(k: int, z: int): int
  {
    k + 10 * z
  }

  /** The expected code list: for each zone in order, z*10 + k for k = 0, 1, 2, 3. */
  function ExpectedCodes(zones: seq<int>): (codes: seq<int>)
    ensures |codes| == 4 * |zones|
    ensures forall j :: 0 <= j < |codes| ==> codes[j] == Encode(j % 4, zones[j / 4])
  {
    seq(4 * |zones|, j requires 0 <= j < 4 * |zones| => Encode(j % 4, zones[j / 4]))
  }

  /** Position 4 * b + k of a zone-major list lies in block b at offset k. */
  lemma BlockOffset(b: int, k: int)
    requires 0 <= k < 4
    ensures (4 * b + k) / 4 == b && (4 * b + k) % 4 == k
  {
  }

  /** A code is expected exactly when it is some zone's code for some class 0..3. */
  lemma ExpectedCodesMembers(zones: seq<int>, c: int)
    ensures c in ExpectedCodes(zones) <==>
              exists i, k :: 0 <= i < |zones| && 0 <= k <= 3 && c == Encode(k, zones[i])
  {
    var codes := ExpectedCodes(zones);
    if c in codes {
      var j :| 0 <= j < |codes| && codes[j] == c;
      assert c == Encode(j % 4, zones[j / 4]);
    }
    if exists i, k :: 0 <= i < |zones| && 0 <= k <= 3 && c == Encode(k, zones[i]) {
      var i, k :| 0 <= i < |zones| && 0 <= k <= 3 && c == Encode(k, zones[i]);
      var j := 4 * i + k;
      assert j / 4 == i && j % 4 == k;
      assert codes[j] == c;
    }
  }

  /** Builds the expected code list by repeated concatenation, one zone at a time. */
  method BuildExpectedCodes(zones: seq<int>) returns (codes: seq<int>)
    ensures codes == ExpectedCodes(zones)
  {
    codes := [];
    var i := 0;
    while i < |zones|
      invariant 0 <= i <= |zones|
      invariant |codes| == 4 * i
      invariant forall j :: 0 <= j < |codes| ==> codes[j] == Encode(j % 4, zones[j / 4])
    {
      var z := zones[i];
      codes := codes + [Encode(0, z), Encode(1, z), Encode(2, z), Encode(3, z)];
      i := i + 1;
    }
  }

  /** A (zone, season) pair when the digit names a class of ValueMap, otherwise the KeyError. */
  function Pair(zone: int, digit: int): Option<(int, Season)>
  {
    if SeasonOf(digit).Some? then Some((zone, SeasonOf(digit).value)) else None
  }

  /**
   * habitat.py's decoding: the season is int(str(x)[-1:]) looked up in
   * ValueMap, the zone int(str(x)[:-1]); a single-character code has zone 0
   * and its season is the code itself. None is the exception (ValueError
   * from int() or KeyError from ValueMap).
   */
  function DecodeHabitat(code: int): Option<(int, Season)>
  {
    var s := Str(code);
    var digit := if |s| > 1 then ParseInt(s[|s| - 1..]) else ParseInt(s);
    var zone := if |s| > 1 then ParseInt(s[..|s| - 1]) else Some(0);
    if digit.None? || zone.None? then None else Pair(zone.value, digit.value)
  }

  /**
   * representation.py's decoding: the same slicing without the
   * single-character branch, so a code 0..9 gives int("") and fails.
   */
  function DecodeRepresentation(code: int): Option<(int, Season)>
  {
    var s := Str(code);
    var digit := ParseInt(s[|s| - 1..]);
    var zone := ParseInt(s[..|s| - 1]);
    if digit.None? || zone.None? then None else Pair(zone.value, digit.value)
  }

  lemma NatStrSplit(n: nat)
    requires n >= 10
    ensures NatStr(n)[..|NatStr(n)| - 1] == NatStr(n / 10)
    ensures NatStr(n)[|NatStr(n)| - 1..] == [DigitChar(n % 10)]
  {
  }

  lemma DecodeHabitatLarge(code: int)
    requires code >= 10
    ensures DecodeHabitat(code) == Pair(code / 10, code % 10)
  {
    var s := Str(code);
    NatStrSplit(code);
    ParseStr(code / 10);
    DigitsValueOfNatStr(code % 10);
    assert ParseInt(s[..|s| - 1]) == Some(code / 10);
    assert ParseInt(s[|s| - 1..]) == Some(code % 10);
  }

  /** str() of a code <= -10 is the sign and prefix of the zone followed by the last digit. */
  lemma NegativeStrSplit(code: int)
    requires code <= -10
    ensures Str(code)[..|Str(code)| - 1] == Str(-((-code) / 10))
    ensures Str(code)[|Str(code)| - 1..] == NatStr((-code) % 10)
  {
    NatStrSplit(-code);
    StrNeg((-code) / 10);
    MinusSplit(Str(code), NatStr(-code));
  }

  /** Dropping the last character of a signed string keeps the sign. */
  lemma MinusSplit(t: string, s: string)
    requires t == "-" + s && |s| >= 1
    ensures t[..|t| - 1] == "-" + s[..|s| - 1]
    ensures t[|t| - 1..] == s[|s| - 1..]
  {
    assert t[..|t| - 1] == ("-" + s)[..|s|];
  }

  /** str() of a negative number is the minus sign before the digits of its magnitude. */
  lemma StrNeg(q: int)
    requires q > 0
    ensures Str(-q) == "-" + NatStr(q)
  {
  }

  /** Decoding a code of at least two characters from what its two slices parse to. */
  lemma DecodeHabitatSlices(code: int, zone: int, digit: int)
    requires |Str(code)| > 1
    requires ParseInt(Str(code)[..|Str(code)| - 1]) == Some(zone)
    requires ParseInt(Str(code)[|Str(code)| - 1..]) == Some(digit)
    ensures DecodeHabitat(code) == Pair(zone, digit)
  {
  }

  lemma DecodeHabitatNegative(code: int)
    requires code <= -10
    ensures DecodeHabitat(code) == Pair(-((-code) / 10), (-code) % 10)
  {
    var zone, digit := -((-code) / 10), (-code) % 10;
    NegativeStrSplit(code);
    ParseStr(zone);
    ParseStr(digit);
    DecodeHabitatSlices(code, zone, digit);
  }

  /**
   * The decimal slicing read as arithmetic: for a non-negative code the
   * zone is code / 10 and the season the last digit; a negative code keeps
   * the minus sign on the zone (truncation toward zero), and -9..-1 fail
   * because int("-") raises.
   */
  lemma DecodeHabitatArithmetic(code: int)
    ensures 0 <= code ==> DecodeHabitat(code) == Pair(code / 10, code % 10)
    ensures -10 < code < 0 ==> DecodeHabitat(code) == None
    ensures code <= -10 ==> DecodeHabitat(code) == Pair(-((-code) / 10), (-code) % 10)
  {
    var s := Str(code);
    if 10 <= code {
      DecodeHabitatLarge(code);
    } else if code <= -10 {
      DecodeHabitatNegative(code);
    } else if code < 0 {
      assert s[..|s| - 1] == "-";
    } else {
      ParseStr(code);
    }
  }

  /** Round trip of habitat.py's decoding: zone 0 is handled by the single-digit guard. */
  lemma HabitatRoundTrip(z: int, k: int)
    requires z >= 0 && 0 <= k <= 3
    ensures DecodeHabitat(Encode(k, z)) == Some((z, SeasonOf(k).value))
  {
    DecodeHabitatArithmetic(Encode(k, z));
    assert Encode(k, z) / 10 == z && Encode(k, z) % 10 == k;
  }

  /** representation.py decodes like habitat.py except that every code 0..9 fails. */
  lemma {:induction false} RepresentationDecodeAgrees(code: int)
    ensures DecodeRepresentation(code) == if 0 <= code < 10 then None else DecodeHabitat(code)
  {
    var s := Str(code);
    if 0 <= code < 10 {
      assert s[..|s| - 1] == [];
    } else {
      assert |s| > 1;
    }
  }

  /** Round trip of representation.py's decoding, which needs zones of at least 1. */
  lemma RepresentationRoundTrip(z: int, k: int)
    requires z >= 1 && 0 <= k <= 3
    ensures DecodeRepresentation(Encode(k, z)) == Some((z, SeasonOf(k).value))
  {
    RepresentationDecodeAgrees(Encode(k, z));
    HabitatRoundTrip(z, k);
  }

  /** Zone 0 breaks representation.py: every code of zone 0 fails to decode. */
  lemma RepresentationZeroZoneFails(k: int)
    requires 0 <= k <= 3
    ensures DecodeRepresentation(Encode(k, 0)) == None
  {
    RepresentationDecodeAgrees(Encode(k, 0));
  }
}
