/** Human-readable byte counts: `human_readable_size` in
    disk_image_toolkit/util.py and the `convert_size` copies in the two
    stand-alone scripts. The unit is the largest power of 1024 not above the
    size, the count is rounded to an integer, and zero is "0 bytes".
    Python 3's `round` rounds halves to even; the Python 2 script rounds
    halves away from zero, so the rounding rule is a parameter. */
module Sizes {
  import opened Outcomes
  import opened PyStr

  const Units: seq<string> := ["bytes", "KB", "MB", "GB", "TB", "PB", "EB", "ZB", "YB"]

  datatype Rounding = HalfEven | HalfAwayFromZero

  function Pow1024(i: nat): (r: nat)
    ensures r >= 1
  {
    if i == 0 then 1 else 1024 * Pow1024(i - 1)
  }

  lemma {:induction false} Pow1024Monotone(i: nat, j: nat)
    requires i <= j
    ensures Pow1024(i) <= Pow1024(j)
    decreases j
  {
    if i < j {
      Pow1024Monotone(i, j - 1);
    }
  }

  /** `floor(log(size, 1024))` computed exactly: the largest `i` with
      `1024^i <= size`. */
  function UnitIndex(size: nat): (i: nat)
    requires size >= 1
    ensures Pow1024(i) <= size < Pow1024(i + 1)
    decreases size
  {
    if size < 1024 then 0
    else
      var i := UnitIndex(size / 1024);
      assert Pow1024(i + 1) == 1024 * Pow1024(i);
      assert Pow1024(i + 2) == 1024 * Pow1024(i + 1);
      assert 1024 * (size / 1024) <= size < 1024 * (size / 1024 + 1);
      i + 1
  }

  function Dist(a: nat, b: nat): nat {
    if a < b then b - a else a - b
  }

  /** `round(n / d)` to an integer: the nearest multiple of `d`, with the
      tie broken by `mode`. */
  function RoundDiv(n: nat, d: nat, mode: Rounding): (q: nat)
    requires d > 0
    ensures 2 * Dist(q * d, n) <= d
    ensures 2 * Dist(q * d, n) == d && mode == HalfEven ==> q % 2 == 0
    ensures 2 * Dist(q * d, n) == d && mode == HalfAwayFromZero ==> q * d > n
  {
    var f := n / d;
    var r := n % d;
    NeighbourMultiples(n, d, f, r);
    if 2 * r < d then f
    else if 2 * r > d then f + 1
    else if mode == HalfEven && f % 2 == 0 then f
    else f + 1
  }

  /** The multiples of `d` just below and just above `n`, and their
      distances to `n`. */
  lemma NeighbourMultiples(n: nat, d: nat, f: nat, r: nat)
    requires d > 0 && f == n / d && r == n % d
    ensures f * d <= n && Dist(f * d, n) == r
    ensures (f + 1) * d > n && Dist((f + 1) * d, n) == d - r
  {
    assert (f + 1) * d == f * d + d;
  }

  /** The text shown for `size` bytes. A size of 1024^9 or more has no unit
      name: the lookup `size_name[i]` raises IndexError. */
  function HumanReadableSize(size: nat, mode: Rounding): (r: Result<string>)
    ensures size == 0 ==> r == Ok("0 bytes")
    ensures size > 0 ==> (r.Ok? <==> size < Pow1024(|Units|))
  {
    if size == 0 then Ok("0 bytes")
    else
      var i := UnitIndex(size);
      if i >= |Units| then
        Pow1024Monotone(|Units|, i);
        Err(IndexError)
      else
        Pow1024Monotone(i + 1, |Units|);
        Ok(NatToString(RoundDiv(size, Pow1024(i), mode)) + " " + Units[i])
  }

  /** Reads "<count> <unit>" back into the count and the unit's index. */
  function ParseSizeText(t: string): Option<(nat, nat)> {
    match Find(t, " ")
    case None => None
    case Some(k) =>
      var digits := t[..k];
      var unit := t[k + 1..];
      if |digits| == 0 || !AllDigits(digits) then None
      else
        match UnitPosition(unit, 0)
        case None => None
        case Some(j) => Some((DecimalValue(digits), j))
  }

  function UnitPosition(u: string, from: nat): (r: Option<nat>)
    requires from <= |Units|
    ensures r.Some? ==> from <= r.value < |Units| && Units[r.value] == u
    ensures r.None? ==> forall j :: from <= j < |Units| ==> Units[j] != u
    decreases |Units| - from
  {
    if from == |Units| then None
    else if Units[from] == u then Some(from)
    else UnitPosition(u, from + 1)
  }

  lemma UnitsDistinct(i: nat, j: nat)
    requires i < |Units| && j < |Units| && Units[i] == Units[j]
    ensures i == j
  {
  }

  /** In "<digits> <rest>" the first space is the one after the digits. */
  lemma FirstSpaceAfterDigits(digits: string, rest: string)
    requires AllDigits(digits)
    ensures Find(digits + " " + rest, " ") == Some(|digits|)
  {
    var t := digits + " " + rest;
    assert OccursAt(t, " ", |digits|);
    forall j | 0 <= j < |digits|
      ensures !OccursAt(t, " ", j)
    {
      assert t[j..j + 1] == [digits[j]];
    }
  }

  /** "<digits> <unit>" parses back into the digits' value and the unit. */
  lemma ParseSizeTextOf(digits: string, i: nat)
    requires |digits| > 0 && AllDigits(digits) && i < |Units|
    ensures ParseSizeText(digits + " " + Units[i]) == Some((DecimalValue(digits), i))
  {
    var t := digits + " " + Units[i];
    FirstSpaceAfterDigits(digits, Units[i]);
    assert t[..|digits|] == digits;
    assert t[|digits| + 1..] == Units[i];
    var u := UnitPosition(Units[i], 0);
    assert u.Some?;
    UnitsDistinct(u.value, i);
  }

  /** The text of a representable positive size: the rounded count, a
      space and the unit's name. */
  lemma SizeTextShape(size: nat, mode: Rounding)
    requires 0 < size < Pow1024(|Units|)
    ensures UnitIndex(size) < |Units|
    ensures HumanReadableSize(size, mode)
            == Ok(NatToString(RoundDiv(size, Pow1024(UnitIndex(size)), mode)) + " " + Units[UnitIndex(size)])
  {
    var i := UnitIndex(size);
    if i >= |Units| {
      Pow1024Monotone(|Units|, i);
    }
  }

  /** A count of `unit`s within half a unit of `size`. */
  predicate WithinHalfUnit(count: nat, unit: nat, size: nat) {
    2 * Dist(count * Pow1024(unit), size) <= Pow1024(unit)
  }

  /** The shown text reads back as a count and a unit such that the unit
      is the largest power of 1024 not above the size and the count times
      the unit lies within half a unit of the size. */
  lemma SizeTextReadsBack(size: nat, mode: Rounding)
    requires 0 < size < Pow1024(|Units|)
    ensures HumanReadableSize(size, mode).Ok?
    ensures var p := ParseSizeText(HumanReadableSize(size, mode).value);
            && p.Some?
            && Pow1024(p.value.1) <= size < Pow1024(p.value.1 + 1)
            && WithinHalfUnit(p.value.0, p.value.1, size)
  {
    SizeTextShape(size, mode);
    var i := UnitIndex(size);
    var q := RoundDiv(size, Pow1024(i), mode);
    assert WithinHalfUnit(q, i, size);
    ParseSizeTextOf(NatToString(q), i);
    DecimalRoundTrip(q);
  }

  lemma SizeExamples()
    ensures HumanReadableSize(0, HalfEven) == Ok("0 bytes")
    ensures HumanReadableSize(1048576, HalfEven) == Ok("1 MB")
    ensures HumanReadableSize(1048576, HalfAwayFromZero) == Ok("1 MB")
  {
    assert UnitIndex(1048576) == 2;
    assert Pow1024(2) == 1048576;
    assert RoundDiv(1048576, 1048576, HalfEven) == 1;
    assert RoundDiv(1048576, 1048576, HalfAwayFromZero) == 1;
    assert NatToString(1) == "1";
    assert Units[2] == "MB";
    assert HumanReadableSize(1048576, HalfEven) == Ok(NatToString(1) + " " + Units[2]);
    assert HumanReadableSize(1048576, HalfAwayFromZero) == Ok(NatToString(1) + " " + Units[2]);
    assert NatToString(1) + " " + Units[2] == "1 MB";
  }

  /** 2.5 KB shows as "2 KB" under Python 3 and "3 KB" under Python 2. */
  lemma RoundingModesDiffer()
    ensures HumanReadableSize(2560, HalfEven) == Ok("2 KB")
    ensures HumanReadableSize(2560, HalfAwayFromZero) == Ok("3 KB")
  {
    assert UnitIndex(2560) == 1;
    assert Pow1024(1) == 1024;
    assert RoundDiv(2560, 1024, HalfEven) == 2;
    assert RoundDiv(2560, 1024, HalfAwayFromZero) == 3;
    assert NatToString(2) == "2" && NatToString(3) == "3";
    assert Units[1] == "KB";
    assert HumanReadableSize(2560, HalfEven) == Ok(NatToString(2) + " " + Units[1]);
    assert HumanReadableSize(2560, HalfAwayFromZero) == Ok(NatToString(3) + " " + Units[1]);
    assert NatToString(2) + " " + Units[1] == "2 KB";
    assert NatToString(3) + " " + Units[1] == "3 KB";
  }
}
