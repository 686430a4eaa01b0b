/**
 * The versions the registry's suite ranks: a device whose version is
 * undefined, and nine version strings listed in ascending order that
 * sorting by `GetRuntimeVersion` must restore from any shuffle.
 */
module GoldenVersions {

  import opened JsonValues
  import opened Text
  import opened RuntimeVersion
  import opened SortKey

  const Versions: seq<string> := ["0", "9", "9.1.1", "11", "11.3", "11.4.1", "11.4.10", "11.10.1", "11.10.10"]

  /** Their components as the key sees them. */
  const Triples: seq<seq<nat>> :=
    [[0, 0, 0], [9, 0, 0], [9, 1, 1], [11, 0, 0], [11, 3, 0], [11, 4, 1], [11, 4, 10], [11, 10, 1], [11, 10, 10]]

  /** Their runtime versions. */
  const Keys: seq<int> := [0, 90000, 90101, 110000, 110300, 110401, 110410, 111001, 111010]

  function Devices(): (ds: seq<Value>)
    ensures |ds| == |Versions|
  {
    seq(|Versions|, k requires 0 <= k < |Versions| => WithVersion(JString(Versions[k])))
  }

  /** The runtime version of the device `{ os: { version } }`. */
  function KeyOf(version: string): nat
  {
    GetRuntimeVersion(WithVersion(JString(version)))
  }

  lemma SmallDecimals()
    ensures Decimal(0) == "0" && Decimal(1) == "1" && Decimal(3) == "3" && Decimal(4) == "4"
    ensures Decimal(9) == "9" && Decimal(10) == "10" && Decimal(11) == "11"
  {
    assert Decimal(10) == Decimal(1) + [DigitChar(0)];
    assert Decimal(11) == Decimal(1) + [DigitChar(1)];
  }

  lemma KeyOfMajorText(a: nat, text: string)
    requires text == Decimal(a)
    ensures VersionTriple(text) == [a, 0, 0] && KeyOf(text) == a * 10000
  {
    RenderSingle(a);
    RuntimeVersionOfMajor(a);
  }

  lemma KeyOfPairText(a: nat, b: nat, text: string)
    requires text == Decimal(a) + "." + Decimal(b)
    ensures VersionTriple(text) == [a, b, 0] && KeyOf(text) == a * 10000 + b * 100
  {
    RenderPair(a, b);
    RuntimeVersionOfPair(a, b);
  }

  lemma KeyOfTripleText(a: nat, b: nat, c: nat, text: string)
    requires text == Decimal(a) + "." + Decimal(b) + "." + Decimal(c)
    ensures VersionTriple(text) == [a, b, c] && KeyOf(text) == a * 10000 + b * 100 + c
  {
    RenderTriple(a, b, c);
    RuntimeVersionOfTriple(a, b, c);
  }

  /** Each golden version parses to its triple and ranks as listed in `Keys`. */
  lemma KeyOfEach(k: nat)
    requires k < |Versions|
    ensures VersionTriple(Versions[k]) == Triples[k]
    ensures KeyOf(Versions[k]) == Keys[k]
  {
    if k == 0 { Golden0(); }
    else if k == 1 { Golden1(); }
    else if k == 2 { Golden2(); }
    else if k == 3 { Golden3(); }
    else if k == 4 { Golden4(); }
    else if k == 5 { Golden5(); }
    else if k == 6 { Golden6(); }
    else if k == 7 { Golden7(); }
    else { Golden8(); }
  }

  // One lemma per entry keeps each string evaluation in a proof of its own.

  lemma Golden0()
    ensures VersionTriple(Versions[0]) == Triples[0] && KeyOf(Versions[0]) == Keys[0]
  {
    SmallDecimals();
    KeyOfMajorText(0, Versions[0]);
  }

  lemma Golden1()
    ensures VersionTriple(Versions[1]) == Triples[1] && KeyOf(Versions[1]) == Keys[1]
  {
    SmallDecimals();
    KeyOfMajorText(9, Versions[1]);
  }

  lemma Golden2()
    ensures VersionTriple(Versions[2]) == Triples[2] && KeyOf(Versions[2]) == Keys[2]
  {
    SmallDecimals();
    KeyOfTripleText(9, 1, 1, Versions[2]);
  }

  lemma Golden3()
    ensures VersionTriple(Versions[3]) == Triples[3] && KeyOf(Versions[3]) == Keys[3]
  {
    SmallDecimals();
    KeyOfMajorText(11, Versions[3]);
  }

  lemma Golden4()
    ensures VersionTriple(Versions[4]) == Triples[4] && KeyOf(Versions[4]) == Keys[4]
  {
    SmallDecimals();
    KeyOfPairText(11, 3, Versions[4]);
  }

  lemma Golden5()
    ensures VersionTriple(Versions[5]) == Triples[5] && KeyOf(Versions[5]) == Keys[5]
  {
    SmallDecimals();
    KeyOfTripleText(11, 4, 1, Versions[5]);
  }

  lemma Golden6()
    ensures VersionTriple(Versions[6]) == Triples[6] && KeyOf(Versions[6]) == Keys[6]
  {
    SmallDecimals();
    KeyOfTripleText(11, 4, 10, Versions[6]);
  }

  lemma Golden7()
    ensures VersionTriple(Versions[7]) == Triples[7] && KeyOf(Versions[7]) == Keys[7]
  {
    SmallDecimals();
    KeyOfTripleText(11, 10, 1, Versions[7]);
  }

  lemma Golden8()
    ensures VersionTriple(Versions[8]) == Triples[8] && KeyOf(Versions[8]) == Keys[8]
  {
    SmallDecimals();
    KeyOfTripleText(11, 10, 10, Versions[8]);
  }

  /** A version with a non-numeric prefix: its first component is not all digits. */
  const Prefixed: string := "iOS 11.4"

  /** No prefix is stripped: `"iOS 11"` reads as 0, so `"iOS 11.4"` ranks as `0.4`. */
  lemma PrefixedVersionRanksByMinor()
    ensures VersionTriple(Prefixed) == [0, 4, 0] && KeyOf(Prefixed) == 400
  {
    var head := "iOS 11";
    SmallDecimals();
    assert Prefixed == head + "." + Decimal(4);
    assert !IsDigit(head[0]);
    NonNumericMajor(head, 4);
  }

  /** The golden list is strictly ascending by runtime version. */
  lemma GoldenAscending()
    ensures StrictlyAscendingBy(Devices(), d => GetRuntimeVersion(d))
  {
    var ds := Devices();
    forall i, j | 0 <= i < j < |ds| ensures GetRuntimeVersion(ds[i]) < GetRuntimeVersion(ds[j]) {
      KeyOfEachAscending(i, j);
      assert ds[i] == WithVersion(JString(Versions[i])) && ds[j] == WithVersion(JString(Versions[j]));
    }
  }

  lemma KeyOfEachAscending(i: nat, j: nat)
    requires i < j < |Versions|
    ensures KeyOf(Versions[i]) < KeyOf(Versions[j])
  {
    KeyOfEach(i);
    KeyOfEach(j);
    KeysAscending(i, j);
  }

  lemma KeysAscending(i: nat, j: nat)
    requires i < j < |Keys|
    ensures Keys[i] < Keys[j]
  {
  }

  /** Sorting any shuffle of the golden devices by runtime version restores the golden order. */
  lemma SortRestoresGoldenOrder(s: seq<Value>)
    requires multiset(s) == multiset(Devices())
    requires SortedBy(s, d => GetRuntimeVersion(d))
    ensures s == Devices()
  {
    GoldenAscending();
    SortedPermutationIsUnique(Devices(), s, d => GetRuntimeVersion(d));
  }

  /** The device whose version is undefined ranks 0. */
  lemma UndefinedVersionIsZero()
    ensures GetRuntimeVersion(WithVersion(JUndefined)) == 0
  {
  }

  /** The golden list is strictly ascending in the numeric, component-by-component order too. */
  lemma GoldenVersionsAscending()
    ensures forall i, j | 0 <= i < j < |Versions| :: VersionLess(Versions[i], Versions[j])
  {
    forall i, j | 0 <= i < j < |Versions| ensures VersionLess(Versions[i], Versions[j]) {
      KeyOfEach(i);
      KeyOfEach(j);
      TriplesAscending(i, j);
    }
  }

  lemma TriplesAscending(i: nat, j: nat)
    requires i < j < |Triples|
    ensures LexLess(Triples[i], Triples[j])
  {
  }

  /**
   * Numeric, not textual: `11.4.1 < 11.4.10` and `11.4.10 < 11.10.1`; a
   * missing trailing component ranks below a present one: `11 < 11.3`, `9 < 9.1.1`.
   */
  lemma NumericNotTextual()
    ensures VersionLess(Versions[5], Versions[6]) && VersionLess(Versions[6], Versions[7])
    ensures VersionLess(Versions[3], Versions[4]) && VersionLess(Versions[1], Versions[2])
  {
    GoldenVersionsAscending();
  }
}
