/** Effective material parameters of a porous ground/groundwater mixture and the
    heat pump's electrical energy per step (src/simulation/utils/tools.py).
    Arithmetic is over `real`; a Python `ZeroDivisionError` is a `Failure`. */
module Tools {
  import opened Wrappers

  /** What the functions of tools.py raise. */
  datatype ToolsError =
    | ZeroGroundConductivity(model: int)   // ValueError "λ_g must be non-zero ..."
    | InvalidModel(model: int)             // ValueError "Invalid mode ..."
    | DivisionByZero                       // ZeroDivisionError of a float division

  function Min(a: real, b: real): real { if a <= b then a else b }
  function Max(a: real, b: real): real { if a <= b then b else a }

  lemma MulNonNegative(a: real, b: real)
    requires a >= 0.0 && b >= 0.0
    ensures a * b >= 0.0
  {
  }

  lemma CancelFactor(a: real, b: real, d: real)
    requires d != 0.0 && a * d == b * d
    ensures a == b
  {
    assert (a - b) * d == 0.0;
  }

  /** For φ in [0, 1], the mix φ·f + (1−φ)·g lies between f and g. */
  lemma MixBetween(f: real, g: real, porosity: real)
    requires 0.0 <= porosity <= 1.0
    ensures Min(f, g) <= porosity * f + (1.0 - porosity) * g <= Max(f, g)
  {
    var mix := porosity * f + (1.0 - porosity) * g;
    assert mix - g == porosity * (f - g);
    assert mix - f == (1.0 - porosity) * (g - f);
    if f <= g {
      MulNonNegative(porosity, g - f);
      MulNonNegative(1.0 - porosity, g - f);
    } else {
      MulNonNegative(porosity, f - g);
      MulNonNegative(1.0 - porosity, f - g);
    }
  }

  /** Conductivity model 1:
      λ_eff = λ_g · (1 − φ(1+2r)(1−r) / (φ(1−r) + 3r)), r = λ_f/λ_g. */
  function ConductivityModel1(lambG: real, lambF: real, porosity: real): (r: Result<real, ToolsError>)
    ensures r.Failure? <==>
      lambG == 0.0 || porosity * (1.0 - lambF / lambG) + 3.0 * (lambF / lambG) == 0.0
    ensures lambG == 0.0 ==> r == Failure(ZeroGroundConductivity(1))
    ensures r.Success? && porosity == 0.0 ==> r.value == lambG
  {
    if lambG == 0.0 then Failure(ZeroGroundConductivity(1))
    else
      var ratio := lambF / lambG;
      var numerator := porosity * (1.0 + 2.0 * ratio) * (1.0 - ratio);
      var denominator := porosity * (1.0 - ratio) + 3.0 * ratio;
      if denominator == 0.0 then Failure(DivisionByZero)
      else Success(lambG * (1.0 - numerator / denominator))
  }

  /** Conductivity model 2: λ_eff = λ_g · (1 − 3φ(1−r) / (2 + φ + r)), r = λ_f/λ_g. */
  function ConductivityModel2(lambG: real, lambF: real, porosity: real): (r: Result<real, ToolsError>)
    ensures r.Failure? <==> lambG == 0.0 || 2.0 + porosity + lambF / lambG == 0.0
    ensures lambG == 0.0 ==> r == Failure(ZeroGroundConductivity(2))
    ensures r.Success? && porosity == 0.0 ==> r.value == lambG
  {
    if lambG == 0.0 then Failure(ZeroGroundConductivity(2))
    else
      var ratio := lambF / lambG;
      var denominator := 2.0 + porosity + ratio;
      if denominator == 0.0 then Failure(DivisionByZero)
      else Success(lambG * (1.0 - (3.0 * porosity * (1.0 - ratio)) / denominator))
  }

  /** Conductivity model 3, the arithmetic mix φ·λ_f + (1−φ)·λ_g. It never fails and
      performs no check on λ_g; for φ in [0, 1] it lies between the two conductivities. */
  function ConductivityModel3(lambG: real, lambF: real, porosity: real): (r: real)
    ensures 0.0 <= porosity <= 1.0 ==> Min(lambF, lambG) <= r <= Max(lambF, lambG)
    ensures porosity == 0.0 ==> r == lambG
    ensures porosity == 1.0 ==> r == lambF
  {
    var mix := porosity * lambF + (1.0 - porosity) * lambG;
    if 0.0 <= porosity <= 1.0 then MixBetween(lambF, lambG, porosity); mix else mix
  }

  /** The linear heat-capacity mix φ·ρc_f + (1−φ)·ρc_g, used for every model. */
  function HeatCapacityMix(rhoCG: real, rhoCF: real, porosity: real): (r: real)
    ensures porosity == 0.0 ==> r == rhoCG
    ensures porosity == 1.0 ==> r == rhoCF
    ensures 0.0 <= porosity <= 1.0 ==> Min(rhoCF, rhoCG) <= r <= Max(rhoCF, rhoCG)
  {
    var mix := porosity * rhoCF + (1.0 - porosity) * rhoCG;
    if 0.0 <= porosity <= 1.0 then MixBetween(rhoCF, rhoCG, porosity); mix else mix
  }

  /** `weighted_parameter`: dispatch on the model id, then mix the heat capacities.
      Both parameters are (λ, ρc) pairs; the result is (λ_eff, ρc_eff). */
  function WeightedParameter(model: int, ground: (real, real), fluid: (real, real), porosity: real)
    : (r: Result<(real, real), ToolsError>)
    ensures model != 1 && model != 2 && model != 3 ==> r == Failure(InvalidModel(model))
    ensures model == 3 ==> r.Success?
    ensures r.Success? ==> r.value.1 == HeatCapacityMix(ground.1, fluid.1, porosity)
    ensures r.Success? && porosity == 0.0 ==> r.value == ground
    ensures r.Failure? && (model == 1 || model == 2) ==>
      r.error == DivisionByZero || r.error == ZeroGroundConductivity(model)
  {
    var lambdaEff :=
      if model == 1 then ConductivityModel1(ground.0, fluid.0, porosity)
      else if model == 2 then ConductivityModel2(ground.0, fluid.0, porosity)
      else if model == 3 then Success(ConductivityModel3(ground.0, fluid.0, porosity))
      else Failure(InvalidModel(model));
    match lambdaEff
    case Failure(e) => Failure(e)
    case Success(l) => Success((l, HeatCapacityMix(ground.1, fluid.1, porosity)))
  }

  /** `P_el_values`: electrical energy of the heat pump for one step, in Wh/m.
      It is an explicit 0 unless heat is extracted (Q < 0) and the ground is colder
      than the target temperature; a missing (NaN) temperature compares false. */
  function PElValues(q: real, t: Option<real>, tHot: real, dt: real, gamma: real)
    : (r: Result<real, ToolsError>)
    ensures !(q < 0.0 && t.Some? && t.value < tHot) ==> r == Success(0.0)
    ensures r.Failure? <==> q < 0.0 && t.Some? && t.value < tHot && (tHot == 0.0 || gamma == 0.0)
  {
    if q < 0.0 && t.Some? && t.value < tHot then
      if tHot == 0.0 || gamma == 0.0 then Failure(DivisionByZero)
      else Success(q * dt * (1.0 - t.value / tHot) / gamma / 3600.0)
    else Success(0.0)
  }

  /** `P_el_values` called with a numpy float64 temperature: a division by T_H = 0
      or γ = 0 is then a numpy division, which only warns and yields ±inf or NaN
      (None here) instead of raising. Otherwise it is the value of the Python-float
      evaluation above. */
  function PElValuesFloat64(q: real, t: real, tHot: real, dt: real, gamma: real): (r: Option<real>)
    ensures r.None? <==> PElValues(q, Some(t), tHot, dt, gamma).Failure?
    ensures r.Some? ==> r.value == PElValues(q, Some(t), tHot, dt, gamma).value
  {
    if q < 0.0 && t < tHot then
      if tHot == 0.0 || gamma == 0.0 then None
      else Some(q * dt * (1.0 - t / tHot) / gamma / 3600.0)
    else Some(0.0)
  }

  /** With φ = 0 all three models give λ_g back; model 1 needs λ_f ≠ 0 (its denominator
      is 3r) and model 2 needs 2 + r ≠ 0. */
  lemma ZeroPorosityGivesGround(lambG: real, lambF: real)
    requires lambG != 0.0
    ensures lambF != 0.0 ==> ConductivityModel1(lambG, lambF, 0.0) == Success(lambG)
    ensures lambF == 0.0 ==> ConductivityModel1(lambG, lambF, 0.0) == Failure(DivisionByZero)
    ensures 2.0 + lambF / lambG != 0.0 ==> ConductivityModel2(lambG, lambF, 0.0) == Success(lambG)
    ensures ConductivityModel3(lambG, lambF, 0.0) == lambG
  {
    if lambF == 0.0 {
      assert lambF / lambG == 0.0;
    } else {
      assert lambF / lambG != 0.0;
    }
  }

  /** Model 1 with φ = 1 gives exactly λ_f, provided its denominator 1 + 2r is not 0. */
  lemma Model1FullPorosity(lambG: real, lambF: real)
    requires lambG != 0.0 && lambG + 2.0 * lambF != 0.0
    ensures ConductivityModel1(lambG, lambF, 1.0) == Success(lambF)
  {
    var ratio := lambF / lambG;
    assert ratio * lambG == lambF;
    var d := 1.0 * (1.0 - ratio) + 3.0 * ratio;
    assert d == 1.0 + 2.0 * ratio;
    assert d * lambG == lambG + 2.0 * lambF;
    assert d != 0.0;
    var n := 1.0 * (1.0 + 2.0 * ratio) * (1.0 - ratio);
    assert n == d * (1.0 - ratio);
    assert (n / d) * d == n;
    CancelFactor(n / d, 1.0 - ratio, d);
    assert 1.0 - n / d == ratio;
    assert lambG * (1.0 - n / d) == lambF;
    assert ConductivityModel1(lambG, lambF, 1.0).Success?;
    assert ConductivityModel1(lambG, lambF, 1.0).value == lambG * (1.0 - n / d);
  }

  /** In the extraction branch the electrical energy is never positive when Δt ≥ 0,
      γ > 0 and T_H > 0. */
  lemma PElNonPositive(q: real, t: Option<real>, tHot: real, dt: real, gamma: real)
    requires dt >= 0.0 && gamma > 0.0 && tHot > 0.0
    ensures PElValues(q, t, tHot, dt, gamma).Success?
    ensures PElValues(q, t, tHot, dt, gamma).value <= 0.0
  {
    if q < 0.0 && t.Some? && t.value < tHot {
      var f := 1.0 - t.value / tHot;
      assert t.value / tHot < 1.0;
      assert f > 0.0;
      assert q * dt <= 0.0;
      assert q * dt * f <= 0.0;
      assert q * dt * f / gamma <= 0.0;
    }
  }
}
