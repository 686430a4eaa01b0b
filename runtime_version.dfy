/**
 * `SimulatorDeviceRegistry.getRuntimeVersion`: the sort key of a device,
 * computed from the dotted string in its `os.version` field. The model
 * packs the first three components as base-100 digits,
 * `major * 10000 + minor * 100 + patch`, so that comparing keys compares
 * versions component by component, numerically.
 */
module RuntimeVersion {

  import opened Wrappers
  import opened JsonValues
  import opened Text

  /** The weight of one component position. */
  const Base: nat := 100

  /** The number of components the key holds: major, minor, patch. */
  const Width: nat := 3

  function Pow(b: nat, e: nat): (r: nat)
    ensures b > 0 ==> r > 0
  {
    if e == 0 then 1 else b * Pow(b, e - 1)
  }

  /** Every component fits in one base-`Base` digit. */
  predicate Bounded(ds: seq<nat>)
  {
    forall k | 0 <= k < |ds| :: ds[k] < Base
  }

  /** Every component but the leading one fits in one digit; the leading one may be any size. */
  predicate TailBounded(ds: seq<nat>)
  {
    forall k | 1 <= k < |ds| :: ds[k] < Base
  }

  /** The numeric value of one dot-separated component: its digits, or 0 when it is not all digits. */
  function ComponentValue(part: string): nat
  {
    if AllDigits(part) then DecimalValue(part) else 0
  }

  /** `version.split('.')`, each part read as a number. */
  function Components(version: string): (cs: seq<nat>)
    ensures |cs| == |Split(version, '.')| >= 1
    ensures var parts := Split(version, '.');
            forall k | 0 <= k < |cs| ::
              cs[k] == if AllDigits(parts[k]) then DecimalValue(parts[k]) else 0
  {
    var parts := Split(version, '.');
    seq(|parts|, k requires 0 <= k < |parts| => ComponentValue(parts[k]))
  }

  /** The first `Width` components, with the missing trailing ones counted as 0. */
  function Padded(cs: seq<nat>): (p: seq<nat>)
    ensures |p| == Width
    ensures |cs| >= Width ==> p == cs[..Width]
    ensures |cs| < Width ==> p[..|cs|] == cs && forall k | |cs| <= k < Width :: p[k] == 0
  {
    seq(Width, k requires 0 <= k < Width => if k < |cs| then cs[k] else 0)
  }

  /** The components of a version string as the key sees them: major, minor, patch. */
  function VersionTriple(version: string): (t: seq<nat>)
    ensures |t| == Width
    ensures t == Padded(Components(version))
    ensures '.' !in version ==> t == [ComponentValue(version), 0, 0]
  {
    var cs := Components(version);
    assert '.' !in version ==> Split(version, '.') == [version];
    Padded(cs)
  }

  /** Components after the third never reach the key. */
  lemma ExtraComponentsIgnored(cs: seq<nat>, more: seq<nat>)
    requires |cs| >= Width
    ensures Padded(cs + more) == Padded(cs)
  {
    assert (cs + more)[..Width] == cs[..Width];
  }

  /** The digits `ds` read as one number in base `Base`, most significant first. */
  function Pack(ds: seq<nat>): (r: nat)
    ensures forall k | 0 <= k < |ds| :: ds[k] * Pow(Base, |ds| - 1 - k) <= r
  {
    if ds == [] then 0
    else
      var rest := Pack(ds[1..]);
      assert forall k | 1 <= k < |ds| :: ds[k] == ds[1..][k - 1];
      ds[0] * Pow(Base, |ds| - 1) + rest
  }

  /** The inverse of `Pack`: `n` as `w` base-`Base` digits, the leading one taking whatever is left over. */
  function Unpack(n: nat, w: nat): (ds: seq<nat>)
    ensures |ds| == w
    ensures TailBounded(ds)
    ensures n < Pow(Base, w) ==> Bounded(ds)
  {
    if w == 0 then []
    else
      var p := Pow(Base, w - 1);
      var rest := Unpack(n % p, w - 1);
      DivBelowWhenBelow(n, p, Base);
      [n / p] + rest
  }

  lemma DivBelowWhenBelow(n: nat, p: nat, b: nat)
    requires p > 0
    ensures n < b * p ==> n / p < b
  {
    if n < b * p {
      DivBelow(n, p, b);
    }
  }

  lemma DivBelow(n: nat, p: nat, b: nat)
    requires p > 0 && n < b * p
    ensures n / p < b
  {
    var q := n / p;
    assert q * p <= n;
    MulCancel(q, b, p);
  }

  lemma MulMonotone(x: nat, y: nat, p: nat)
    requires x <= y
    ensures x * p <= y * p
  {
  }

  lemma MulCancel(x: nat, y: nat, p: nat)
    requires x * p < y * p
    ensures x < y
  {
  }

  /** Dividing `a * p + x` by `p` recovers `a` and `x` when `x < p`. */
  lemma DivModOfPacked(a: nat, x: nat, p: nat)
    requires x < p
    ensures (a * p + x) / p == a && (a * p + x) % p == x
  {
    var n := a * p + x;
    var q, r := n / p, n % p;
    assert n == q * p + r;
    if q > a {
      MulMonotone(a + 1, q, p);
    } else if q < a {
      MulMonotone(q + 1, a, p);
    }
  }

  /** A larger leading digit outweighs whatever the lower digits hold. */
  lemma LeadingDigitDominates(x: nat, y: nat, lo: nat, hi: nat, p: nat)
    requires x < y && lo < p
    ensures x * p + lo < y * p + hi
  {
    MulMonotone(x + 1, y, p);
    assert (x + 1) * p == x * p + p;
  }

  /** A number of `w` bounded digits stays below `Base^w`. */
  lemma {:induction false} PackBelowPow(ds: seq<nat>)
    requires Bounded(ds)
    ensures Pack(ds) < Pow(Base, |ds|)
  {
    if ds != [] {
      var p := Pow(Base, |ds| - 1);
      var tail := ds[1..];
      assert Bounded(tail);
      PackBelowPow(tail);
      assert Pack(ds) == ds[0] * p + Pack(tail);
      assert Pow(Base, |ds|) == Base * p;
      LeadingDigitDominates(ds[0], Base, Pack(tail), 0, p);
    }
  }

  /** Unpacking a packed key gives its components back. */
  lemma {:induction false} UnpackPack(ds: seq<nat>)
    requires TailBounded(ds)
    ensures Unpack(Pack(ds), |ds|) == ds
  {
    if ds != [] {
      var p := Pow(Base, |ds| - 1);
      var tail := ds[1..];
      assert Bounded(tail);
      PackBelowPow(tail);
      DivModOfPacked(ds[0], Pack(tail), p);
      assert TailBounded(tail);
      UnpackPack(tail);
      assert ds == [ds[0]] + tail;
    }
  }

  lemma UnpackPackWhenBounded(ds: seq<nat>)
    ensures TailBounded(ds) ==> Unpack(Pack(ds), |ds|) == ds
  {
    if TailBounded(ds) {
      UnpackPack(ds);
    }
  }

  /** Numeric comparison of two component sequences of the same length, leftmost component first. */
  predicate LexLess(a: seq<nat>, b: seq<nat>)
    requires |a| == |b|
  {
    a != [] && (a[0] < b[0] || (a[0] == b[0] && LexLess(a[1..], b[1..])))
  }

  lemma {:induction false} LexTrichotomy(a: seq<nat>, b: seq<nat>)
    requires |a| == |b|
    ensures LexLess(a, b) || a == b || LexLess(b, a)
  {
    if a != [] && a[0] == b[0] {
      LexTrichotomy(a[1..], b[1..]);
      if a[1..] == b[1..] {
        assert a == [a[0]] + a[1..] && b == [b[0]] + b[1..];
      }
    }
  }

  lemma {:induction false} PackMonotone(a: seq<nat>, b: seq<nat>)
    requires |a| == |b| && TailBounded(a) && TailBounded(b)
    requires LexLess(a, b)
    ensures Pack(a) < Pack(b)
  {
    var p := Pow(Base, |a| - 1);
    var ta, tb := a[1..], b[1..];
    assert Pack(a) == a[0] * p + Pack(ta);
    assert Pack(b) == b[0] * p + Pack(tb);
    if a[0] < b[0] {
      assert Bounded(ta);
      PackBelowPow(ta);
      LeadingDigitDominates(a[0], b[0], Pack(ta), Pack(tb), p);
    } else {
      assert TailBounded(ta) && TailBounded(tb);
      PackMonotone(ta, tb);
    }
  }

  /** Comparing packed keys is comparing the component sequences numerically, component by component. */
  lemma PackOrder(a: seq<nat>, b: seq<nat>)
    requires |a| == |b| && TailBounded(a) && TailBounded(b)
    ensures LexLess(a, b) <==> Pack(a) < Pack(b)
  {
    LexTrichotomy(a, b);
    if LexLess(a, b) {
      PackMonotone(a, b);
    } else if LexLess(b, a) {
      PackMonotone(b, a);
    }
  }

  /** The string at `device.os.version`, if there is one. */
  function OsVersion(device: Value): (v: Option<string>)
    ensures v.Some? <==> device.JObject? && "os" in device.fields
                         && device.fields["os"].JObject? && "version" in device.fields["os"].fields
                         && device.fields["os"].fields["version"].JString?
    ensures v.Some? ==> v.value == device.fields["os"].fields["version"].s
  {
    if device.JObject? && "os" in device.fields then
      var os := device.fields["os"];
      if os.JObject? && "version" in os.fields && os.fields["version"].JString? then
        Some(os.fields["version"].s)
      else None
    else None
  }

  /** The suite's `withVersion(v)` device carries `v` as its version exactly when `v` is a string. */
  lemma OsVersionOfWithVersion(version: Value)
    ensures OsVersion(WithVersion(version)) == if version.JString? then Some(version.s) else None
  {
  }

  /** The sort key of a device. */
  function GetRuntimeVersion(device: Value): (r: nat)
    ensures OsVersion(device).None? ==> r == 0
    ensures OsVersion(device).Some? && TailBounded(VersionTriple(OsVersion(device).value))
            ==> Unpack(r, Width) == VersionTriple(OsVersion(device).value)
  {
    match OsVersion(device)
    case None => 0
    case Some(v) =>
      var t := VersionTriple(v);
      UnpackPackWhenBounded(t);
      Pack(t)
  }

  /** Version `u` comes before version `v`: numerically, component by component, a missing component being 0. */
  predicate VersionLess(u: string, v: string)
  {
    LexLess(VersionTriple(u), VersionTriple(v))
  }

  /** Sorting devices by `GetRuntimeVersion` orders them by `VersionLess`, for minor and patch below 100. */
  lemma RuntimeVersionOrder(u: string, v: string)
    requires TailBounded(VersionTriple(u)) && TailBounded(VersionTriple(v))
    ensures VersionLess(u, v) <==> GetRuntimeVersion(WithVersion(JString(u))) < GetRuntimeVersion(WithVersion(JString(v)))
  {
    PackOrder(VersionTriple(u), VersionTriple(v));
  }

  /** Dots between the decimal renderings of the components: the version string they come from. */
  function Render(cs: seq<nat>): string
    requires |cs| >= 1
  {
    Join(seq(|cs|, k requires 0 <= k < |cs| => Decimal(cs[k])), '.')
  }

  /** Parsing a rendered version gives its components back. */
  lemma ComponentsOfRender(cs: seq<nat>)
    requires |cs| >= 1
    ensures Components(Render(cs)) == cs
  {
    var parts := seq(|cs|, k requires 0 <= k < |cs| => Decimal(cs[k]));
    forall k | 0 <= k < |parts| ensures '.' !in parts[k] {
      DigitsHaveNoDot(parts[k]);
    }
    SplitJoin(parts, '.');
    var r := Components(Render(cs));
    assert |r| == |cs|;
    forall k | 0 <= k < |cs| ensures r[k] == cs[k] {
      assert r[k] == ComponentValue(parts[k]);
    }
  }

  lemma DigitsHaveNoDot(s: string)
    requires AllDigits(s)
    ensures '.' !in s
  {
  }

  lemma RenderTriple(a: nat, b: nat, c: nat)
    ensures Render([a, b, c]) == Decimal(a) + "." + Decimal(b) + "." + Decimal(c)
  {
    var parts := seq(3, k requires 0 <= k < 3 => Decimal([a, b, c][k]));
    assert parts == [Decimal(a), Decimal(b), Decimal(c)];
    assert parts[1..] == [Decimal(b), Decimal(c)];
    assert Join(parts[1..], '.') == Decimal(b) + "." + Decimal(c);
    assert Join(parts, '.') == Decimal(a) + "." + (Decimal(b) + "." + Decimal(c));
  }

  lemma RenderPair(a: nat, b: nat)
    ensures Render([a, b]) == Decimal(a) + "." + Decimal(b)
  {
    var parts := seq(2, k requires 0 <= k < 2 => Decimal([a, b][k]));
    assert parts == [Decimal(a), Decimal(b)];
    assert parts[1..] == [Decimal(b)];
    assert Join(parts, '.') == Decimal(a) + "." + Decimal(b);
  }

  lemma RenderSingle(a: nat)
    ensures Render([a]) == Decimal(a)
  {
    var parts := seq(1, k requires 0 <= k < 1 => Decimal([a][k]));
    assert parts == [Decimal(a)];
  }

  lemma PackTriple(a: nat, b: nat, c: nat)
    ensures Pack([a, b, c]) == a * 10000 + b * 100 + c
  {
    var t := [a, b, c];
    assert Pow(Base, 2) == 10000 && Pow(Base, 1) == 100 && Pow(Base, 0) == 1;
    assert t[1..] == [b, c] && t[1..][1..] == [c] && t[1..][1..][1..] == [];
    assert Pack([c]) == c;
    assert Pack([b, c]) == b * 100 + c;
    assert Pack(t) == a * 10000 + Pack([b, c]);
  }

  /** The key of `"major.minor.patch"` is `major*10000 + minor*100 + patch`. */
  lemma RuntimeVersionOfTriple(major: nat, minor: nat, patch: nat)
    ensures VersionTriple(Render([major, minor, patch])) == [major, minor, patch]
    ensures GetRuntimeVersion(WithVersion(JString(Render([major, minor, patch]))))
         == major * 10000 + minor * 100 + patch
  {
    ComponentsOfRender([major, minor, patch]);
    PackTriple(major, minor, patch);
  }

  /** A missing patch counts as 0: the key of `"major.minor"` is `major*10000 + minor*100`. */
  lemma RuntimeVersionOfPair(major: nat, minor: nat)
    ensures VersionTriple(Render([major, minor])) == [major, minor, 0]
    ensures GetRuntimeVersion(WithVersion(JString(Render([major, minor])))) == major * 10000 + minor * 100
  {
    ComponentsOfRender([major, minor]);
    PackTriple(major, minor, 0);
  }

  /** Missing minor and patch count as 0: the key of `"major"` is `major*10000`. */
  lemma RuntimeVersionOfMajor(major: nat)
    ensures VersionTriple(Render([major])) == [major, 0, 0]
    ensures GetRuntimeVersion(WithVersion(JString(Render([major])))) == major * 10000
  {
    ComponentsOfRender([major]);
    PackTriple(major, 0, 0);
  }

  /** No prefix is stripped: a first component that is not all digits (`"iOS 11"`) reads as 0. */
  lemma NonNumericMajor(head: string, minor: nat)
    requires '.' !in head && !AllDigits(head)
    ensures VersionTriple(head + "." + Decimal(minor)) == [0, minor, 0]
    ensures GetRuntimeVersion(WithVersion(JString(head + "." + Decimal(minor)))) == minor * 100
  {
    var parts := [head, Decimal(minor)];
    DigitsHaveNoDot(Decimal(minor));
    assert parts[1..] == [Decimal(minor)];
    assert Join(parts, '.') == head + "." + Decimal(minor);
    SplitJoin(parts, '.');
    PackTriple(0, minor, 0);
  }

  /** A release version (major from 1 to 99, minor and patch below 100) has a 5 or 6 digit key. */
  lemma FiveOrSixDigits(version: string)
    requires 1 <= VersionTriple(version)[0] < Base && TailBounded(VersionTriple(version))
    ensures 10000 <= GetRuntimeVersion(WithVersion(JString(version))) < 1000000
  {
    var t := VersionTriple(version);
    assert Bounded(t);
    PackBelowPow(t);
    assert Pow(Base, 3) == 1000000;
    assert Pow(Base, 2) == 10000;
  }
}
