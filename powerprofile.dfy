/** The periodic annual thermal demand curve and its tiling over the simulated years
    (src/simulation/powerprofile.py). `cos` and scipy's Simpson rule are foreign code
    and enter as parameters; the CSV write and the printing are left out. */
module PowerProfile {
  import opened Wrappers

  /** `np.arange(lo, hi)` for integers: lo, lo+1, ..., hi-1. */
  function Arange(lo: int, hi: int): (s: seq<int>)
    ensures |s| == if lo <= hi then hi - lo else 0
    ensures forall i :: 0 <= i < |s| ==> s[i] == lo + i
    decreases hi - lo
  {
    if hi <= lo then [] else Arange(lo, hi - 1) + [hi - 1]
  }

  /** `{k: v for k, v in zip(keys, vals)}`: later pairs overwrite earlier ones. */
  function ZipToDict(keys: seq<int>, vals: seq<real>): map<int, real>
    requires |keys| == |vals|
  {
    if |keys| == 0 then map[]
    else
      var n := |keys| - 1;
      ZipToDict(keys[..n], vals[..n])[keys[n] := vals[n]]
  }

  /** With consecutive keys lo, lo+1, ..., hi-1, the dictionary has exactly those keys,
      one entry per value, and maps lo+i to vals[i]. */
  lemma {:induction false} ZipConsecutive(lo: int, hi: int, vals: seq<real>)
    requires hi == lo + |vals|
    decreases |vals|
    ensures forall d :: d in ZipToDict(Arange(lo, hi), vals) <==> lo <= d < hi
    ensures forall i :: 0 <= i < |vals| ==> ZipToDict(Arange(lo, hi), vals)[lo + i] == vals[i]
    ensures |ZipToDict(Arange(lo, hi), vals)| == |vals|
  {
    if |vals| > 0 {
      var n := |vals| - 1;
      var keys := Arange(lo, hi);
      assert keys[..n] == Arange(lo, hi - 1);
      assert keys[n] == hi - 1;
      ZipConsecutive(lo, hi - 1, vals[..n]);
      var prefix := ZipToDict(Arange(lo, hi - 1), vals[..n]);
      assert ZipToDict(keys, vals) == prefix[hi - 1 := vals[n]];
      assert hi - 1 !in prefix;
    }
  }

  /** `powerprofile(A, B)`: day d in 1..365 maps to A − cos(2πd/365)·B, where
      `cosine(d)` stands for cos(2πd/365). */
  function AnnualProfile(a: real, b: real, cosine: int -> real): map<int, real>
  {
    var days := Arange(1, 365 + 1);
    ZipToDict(days, seq(365, i => a - cosine(i + 1) * b))
  }

  lemma AnnualProfileShape(a: real, b: real, cosine: int -> real)
    ensures forall d :: d in AnnualProfile(a, b, cosine) <==> 1 <= d <= 365
    ensures forall d :: 1 <= d <= 365 ==> AnnualProfile(a, b, cosine)[d] == a - cosine(d) * b
  {
    var vals := seq(365, i => a - cosine(i + 1) * b);
    ZipConsecutive(1, 365 + 1, vals);
    forall d | 1 <= d <= 365 ensures AnnualProfile(a, b, cosine)[d] == a - cosine(d) * b {
      assert vals[d - 1] == a - cosine(d) * b;
    }
  }

  /** `list(dict_year.values())`: the annual values in day order. */
  function AnnualValues(annual: map<int, real>): (s: seq<real>)
    requires forall d :: 1 <= d <= 365 ==> d in annual
    ensures |s| == 365
    ensures forall i :: 0 <= i < |s| ==> s[i] == annual[i + 1]
  {
    seq(365, i requires 0 <= i < 365 => annual[i + 1])
  }

  /** `np.tile(base, k)`: k copies of `base` one after the other. */
  function Tile(base: seq<real>, k: nat): seq<real>
  {
    if k == 0 then [] else base + Tile(base, k - 1)
  }

  /** Tiling a year of values: entry i of the result is entry i mod 365 of the year. */
  lemma {:induction false} TileAt(base: seq<real>, k: nat)
    requires |base| == 365
    ensures |Tile(base, k)| == k * 365
    ensures forall i :: 0 <= i < |Tile(base, k)| ==> Tile(base, k)[i] == base[i % 365]
  {
    if k > 0 {
      TileAt(base, k - 1);
      var t := Tile(base, k);
      var rest := Tile(base, k - 1);
      assert t == base + rest;
      forall i | 0 <= i < |t| ensures t[i] == base[i % 365] {
        if i >= 365 {
          assert t[i] == rest[i - 365];
          ModShift(i);
        }
      }
    }
  }

  lemma ModShift(i: int)
    ensures (i - 365) % 365 == i % 365
  {
  }

  /** `np.clip(v, 0.0, None)`: the extraction (positive) part. */
  function PositivePart(s: seq<real>): (p: seq<real>)
    ensures |p| == |s|
    ensures forall i :: 0 <= i < |s| ==> p[i] >= 0.0 && (s[i] >= 0.0 ==> p[i] == s[i])
  {
    seq(|s|, i requires 0 <= i < |s| => if s[i] > 0.0 then s[i] else 0.0)
  }

  /** `np.clip(v, None, 0.0)`: the injection (negative) part. */
  function NegativePart(s: seq<real>): (p: seq<real>)
    ensures |p| == |s|
    ensures forall i :: 0 <= i < |s| ==> p[i] <= 0.0 && (s[i] <= 0.0 ==> p[i] == s[i])
  {
    seq(|s|, i requires 0 <= i < |s| => if s[i] < 0.0 then s[i] else 0.0)
  }

  /** Splitting a value into its clipped parts loses nothing. */
  lemma ClipPartsSum(s: seq<real>)
    ensures forall i :: 0 <= i < |s| ==> PositivePart(s)[i] + NegativePart(s)[i] == s[i]
  {
  }

  function Abs(x: real): real { if x < 0.0 then -x else x }

  /** `|Q_out / Q_in|`, or NaN (None) when Q_in is 0. */
  function Ratio(qOut: real, qIn: real): (r: Option<real>)
    ensures r.None? <==> qIn == 0.0
    ensures r.Some? ==> r.value >= 0.0 && r.value * Abs(qIn) == Abs(qOut)
  {
    if qIn != 0.0 then
      var v := Abs(qOut / qIn);
      assert (qOut / qIn) * qIn == qOut;
      assert v * Abs(qIn) == Abs(qOut) by {
        if qOut / qIn < 0.0 {
          assert v * Abs(qIn) == -(qOut / qIn) * Abs(qIn);
        }
      }
      Some(v)
    else None
  }

  /** Conversion of a day-axis integral to kWh per metre. */
  const KWhPerMetre: real := 24.0 / 1000.0

  /** What `multiple_powerprofile` returns, in its order (profile, ratio, Q_out, Q_in). */
  datatype MultiProfile = MultiProfile(profile: map<int, real>, ratio: Option<real>, qOut: real, qIn: real)

  /** `multiple_powerprofile(years, A, B)`; `simpson(y, x)` stands for scipy's `simps`. */
  function MultiplePowerProfile(years: int, a: real, b: real, cosine: int -> real,
                                simpson: (seq<real>, seq<int>) -> real): MultiProfile
    requires years >= 1
  {
    var annual := AnnualProfile(a, b, cosine);
    AnnualProfileShape(a, b, cosine);
    var baseVals := AnnualValues(annual);
    var days := Arange(1, years * 365 + 1);
    var power := Tile(baseVals, years);
    var qIn := simpson(PositivePart(power), days);
    var qOut := simpson(NegativePart(power), days);
    var ratio := Ratio(qOut, qIn);
    MultiProfile(TiledDict(years, baseVals), ratio, qOut * KWhPerMetre, qIn * KWhPerMetre)
  }

  /** The dictionary built from `years` copies of a year of values, keyed 1..years·365. */
  function TiledDict(years: nat, baseVals: seq<real>): map<int, real>
    requires |baseVals| == 365
  {
    TileAt(baseVals, years);
    ZipToDict(Arange(1, years * 365 + 1), Tile(baseVals, years))
  }

  /** One entry of a dictionary with consecutive keys. */
  lemma ZipAt(lo: int, hi: int, vals: seq<real>, i: int)
    requires hi == lo + |vals| && 0 <= i < |vals|
    ensures lo + i in ZipToDict(Arange(lo, hi), vals)
    ensures ZipToDict(Arange(lo, hi), vals)[lo + i] == vals[i]
  {
    ZipConsecutive(lo, hi, vals);
  }

  /** One entry of a tiled year. */
  lemma TilePoint(base: seq<real>, k: nat, i: int)
    requires |base| == 365 && 0 <= i < k * 365
    ensures |Tile(base, k)| == k * 365
    ensures Tile(base, k)[i] == base[i % 365]
  {
    TileAt(base, k);
  }

  /** Day d of the tiled dictionary holds the value of day ((d−1) mod 365) + 1 of the year. */
  lemma TiledDictValue(years: nat, baseVals: seq<real>, d: int)
    requires |baseVals| == 365 && 1 <= d <= years * 365
    ensures d in TiledDict(years, baseVals)
    ensures TiledDict(years, baseVals)[d] == baseVals[(d - 1) % 365]
  {
    TilePoint(baseVals, years, d - 1);
    ZipAt(1, years * 365 + 1, Tile(baseVals, years), d - 1);
  }

  /** The tiled dictionary has exactly the keys 1..years·365. */
  lemma TiledDictKeys(years: nat, baseVals: seq<real>)
    requires |baseVals| == 365
    ensures forall d :: d in TiledDict(years, baseVals) <==> 1 <= d <= years * 365
    ensures |TiledDict(years, baseVals)| == years * 365
  {
    TileAt(baseVals, years);
    ZipConsecutive(1, years * 365 + 1, Tile(baseVals, years));
  }

  /** The profile returned is the tiling of the annual values. */
  lemma ProfileIsTiled(years: int, a: real, b: real, cosine: int -> real,
                       simpson: (seq<real>, seq<int>) -> real, baseVals: seq<real>)
    requires years >= 1 && |baseVals| == 365
    requires forall i :: 0 <= i < 365 ==> baseVals[i] == a - cosine(i + 1) * b
    ensures MultiplePowerProfile(years, a, b, cosine, simpson).profile == TiledDict(years, baseVals)
  {
    AnnualProfileShape(a, b, cosine);
    AnnualValuesAre(AnnualProfile(a, b, cosine), a, b, cosine, baseVals);
  }

  /** An annual dictionary holding A − cos(2πd/365)·B for d = 1..365 lists, in day
      order, exactly those values. */
  lemma AnnualValuesAre(annual: map<int, real>, a: real, b: real, cosine: int -> real, baseVals: seq<real>)
    requires forall d :: 1 <= d <= 365 ==> d in annual && annual[d] == a - cosine(d) * b
    requires |baseVals| == 365
    requires forall i :: 0 <= i < 365 ==> baseVals[i] == a - cosine(i + 1) * b
    ensures AnnualValues(annual) == baseVals
  {
  }

  /** The tiled profile has exactly years·365 keys, namely 1..years·365. */
  lemma TiledProfileKeys(years: int, a: real, b: real, cosine: int -> real,
                         simpson: (seq<real>, seq<int>) -> real)
    requires years >= 1
    ensures forall d :: d in MultiplePowerProfile(years, a, b, cosine, simpson).profile <==> 1 <= d <= years * 365
    ensures |MultiplePowerProfile(years, a, b, cosine, simpson).profile| == years * 365
  {
    var annual := AnnualProfile(a, b, cosine);
    AnnualProfileShape(a, b, cosine);
    var baseVals := AnnualValues(annual);
    TiledDictKeys(years, baseVals);
    ProfileIsTiled(years, a, b, cosine, simpson, baseVals);
  }

  /** Day d of the tiled profile is day ((d−1) mod 365) + 1 of the annual curve. */
  lemma TiledProfileAt(years: int, a: real, b: real, cosine: int -> real,
                       simpson: (seq<real>, seq<int>) -> real, d: int)
    requires years >= 1 && 1 <= d <= years * 365
    ensures d in MultiplePowerProfile(years, a, b, cosine, simpson).profile
    ensures MultiplePowerProfile(years, a, b, cosine, simpson).profile[d] == a - cosine((d - 1) % 365 + 1) * b
  {
    var annual := AnnualProfile(a, b, cosine);
    AnnualProfileShape(a, b, cosine);
    var baseVals := AnnualValues(annual);
    ProfileIsTiled(years, a, b, cosine, simpson, baseVals);
    var i := (d - 1) % 365;
    TiledDictValue(years, baseVals, d);
    assert baseVals[i] == annual[i + 1] == a - cosine(i + 1) * b;
  }

  /** Periodicity: entry d + 365 of the tiled profile equals entry d. */
  lemma TiledProfilePeriodic(years: int, a: real, b: real, cosine: int -> real,
                             simpson: (seq<real>, seq<int>) -> real, d: int)
    requires years >= 1 && 1 <= d && d + 365 <= years * 365
    ensures var p := MultiplePowerProfile(years, a, b, cosine, simpson).profile;
      d in p && d + 365 in p && p[d + 365] == p[d]
  {
    var annual := AnnualProfile(a, b, cosine);
    AnnualProfileShape(a, b, cosine);
    var baseVals := AnnualValues(annual);
    ProfileIsTiled(years, a, b, cosine, simpson, baseVals);
    TiledDictValue(years, baseVals, d);
    TiledDictValue(years, baseVals, d + 365);
    ModShift(d + 365 - 1);
  }

  /** The ratio is taken before the kWh scaling, and the scaling does not change it:
      it is the ratio of the returned Q_out and Q_in, and undefined exactly when the
      returned Q_in is 0. */
  lemma RatioScaleInvariant(years: int, a: real, b: real, cosine: int -> real,
                            simpson: (seq<real>, seq<int>) -> real)
    requires years >= 1
    ensures var r := MultiplePowerProfile(years, a, b, cosine, simpson);
      r.ratio == Ratio(r.qOut, r.qIn)
  {
    var r := MultiplePowerProfile(years, a, b, cosine, simpson);
    AnnualProfileShape(a, b, cosine);
    var baseVals := AnnualValues(AnnualProfile(a, b, cosine));
    var days := Arange(1, years * 365 + 1);
    var power := Tile(baseVals, years);
    var qIn := simpson(PositivePart(power), days);
    var qOut := simpson(NegativePart(power), days);
    assert r.ratio == Ratio(qOut, qIn) && r.qOut == qOut * KWhPerMetre && r.qIn == qIn * KWhPerMetre;
    RatioOfScaled(qOut, qIn, KWhPerMetre);
  }

  /** Scaling both energies by the same positive factor leaves the ratio unchanged. */
  lemma RatioOfScaled(qOut: real, qIn: real, k: real)
    requires k > 0.0
    ensures Ratio(qOut * k, qIn * k) == Ratio(qOut, qIn)
  {
    if qIn != 0.0 {
      var v := qOut / qIn;
      assert v * qIn == qOut;
      assert qIn * k != 0.0;
      assert v * (qIn * k) == qOut * k;
      assert (qOut * k) / (qIn * k) == v;
    }
  }
}
