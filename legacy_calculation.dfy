/** The legacy driver `run_calculation` in src/calculation.py: the same material and
    stability block as the current driver, the system operator M + Δt·a·K (+ Δt·b·C)
    with its boundary condition, the right-hand side M·T_prev plus one point source
    per borehole, the plain four-probe average, and the time loop over the two
    fields T and T_1. Assembly, the LU solve, the flux and domain integrals and point
    evaluation are FEniCS calls and enter as the function fields of `LegacyFem`; the
    operators and right-hand sides they are handed are kept as symbolic terms. */
module LegacyCalculation {
  import opened Wrappers
  import Tools
  import PowerProfile
  import Mesh
  import Calculation

  type Point = Mesh.Point

  // ---------------------------------------------------------------------------
  // The system operator
  // ---------------------------------------------------------------------------

  /** The three assembled forms: T·v dx, ∇T·∇v dx and ∇·(vT)·v dx. */
  datatype Form = MassForm | DiffusionForm | ConvectionForm

  /** A matrix expression over the assembled forms: a form, a form times a
      coefficient, a sum, and `WithBc` for `boundary_condition.apply` on it. */
  datatype Operator =
    | Assembled(form: Form)
    | Plus(left: Operator, right: Operator)
    | Scaled(factor: real, form: Form)
    | WithBc(inner: Operator)

  /** The weight a form carries in an operator; the boundary rows aside, applying
      the boundary condition leaves it unchanged. */
  function Weight(op: Operator, f: Form): real
  {
    match op
    case Assembled(g) => if g == f then 1.0 else 0.0
    case Plus(l, r) => Weight(l, f) + Weight(r, f)
    case Scaled(c, g) => if g == f then c else 0.0
    case WithBc(o) => Weight(o, f)
  }

  /** How many times the boundary condition is applied to an operator. */
  function BcCount(op: Operator): nat
  {
    match op
    case Assembled(_) => 0
    case Plus(l, r) => BcCount(l) + BcCount(r)
    case Scaled(_, _) => 0
    case WithBc(o) => 1 + BcCount(o)
  }

  /** `A_matrix` as handed to the solver: M + Δt·a·K, plus Δt·b·C with convection,
      then the boundary condition. */
  function SystemOperator(s: Calculation.Setup, dt: real): Operator
  {
    var diffusive := Plus(Assembled(MassForm), Scaled(dt * s.diffusion, DiffusionForm));
    match s.convectionCoefficient
    case Some(b) => WithBc(Plus(diffusive, Scaled(dt * b, ConvectionForm)))
    case None => WithBc(diffusive)
  }

  /** The operator weighs the mass matrix by 1, the stiffness matrix by Δt·a and the
      convection matrix by Δt·b (0 without convection), and carries the boundary
      condition exactly once, applied last. */
  lemma SystemOperatorShape(s: Calculation.Setup, dt: real)
    ensures SystemOperator(s, dt).WithBc? && BcCount(SystemOperator(s, dt)) == 1
    ensures Weight(SystemOperator(s, dt), MassForm) == 1.0
    ensures Weight(SystemOperator(s, dt), DiffusionForm) == dt * s.diffusion
    ensures Weight(SystemOperator(s, dt), ConvectionForm)
      == (if s.convectionCoefficient.Some? then dt * s.convectionCoefficient.value else 0.0)
  {
    var stiffness := Scaled(dt * s.diffusion, DiffusionForm);
    LeafWeights(MassForm);
    LeafWeights(DiffusionForm);
    LeafWeights(ConvectionForm);
    assert BcCount(stiffness) == 0;
    var diffusive := Plus(Assembled(MassForm), stiffness);
    PlusWeights(Assembled(MassForm), stiffness);
    assert BcCount(diffusive) == 0;
    if s.convectionCoefficient.Some? {
      var b := s.convectionCoefficient.value;
      assert s.convectionCoefficient == Some(b);
      var convective := Scaled(dt * b, ConvectionForm);
      assert BcCount(convective) == 0;
      var inner := Plus(diffusive, convective);
      assert BcCount(inner) == 0;
      PlusWeights(diffusive, convective);
      var op := SystemOperator(s, dt);
      assert op.inner.left == diffusive && op.inner.right == convective;
      assert op == WithBc(inner);
      BcWeights(inner);
    } else {
      assert SystemOperator(s, dt) == WithBc(diffusive);
      BcWeights(diffusive);
    }
  }

  lemma LeafWeights(g: Form)
    ensures Weight(Assembled(g), MassForm) == if g == MassForm then 1.0 else 0.0
    ensures Weight(Assembled(g), DiffusionForm) == if g == DiffusionForm then 1.0 else 0.0
    ensures Weight(Assembled(g), ConvectionForm) == if g == ConvectionForm then 1.0 else 0.0
  {
  }

  lemma PlusWeights(l: Operator, r: Operator)
    ensures Weight(Plus(l, r), MassForm) == Weight(l, MassForm) + Weight(r, MassForm)
    ensures Weight(Plus(l, r), DiffusionForm) == Weight(l, DiffusionForm) + Weight(r, DiffusionForm)
    ensures Weight(Plus(l, r), ConvectionForm) == Weight(l, ConvectionForm) + Weight(r, ConvectionForm)
  {
  }

  lemma BcWeights(op: Operator)
    ensures Weight(WithBc(op), MassForm) == Weight(op, MassForm)
    ensures Weight(WithBc(op), DiffusionForm) == Weight(op, DiffusionForm)
    ensures Weight(WithBc(op), ConvectionForm) == Weight(op, ConvectionForm)
    ensures BcCount(WithBc(op)) == 1 + BcCount(op)
  {
  }

  /** The gate of this driver: the current driver's, except that `mesh.hmax()` is a
      Python float, so Pe at a = 0 and Ne at h_max = 0 raise ZeroDivisionError. */
  function LegacyGate(p: Calculation.SimParams, hMax: real, lambda: real, rhoC: real)
    : (r: Result<Calculation.Setup, Calculation.SetupError>)
    ensures r.Success? ==> Calculation.Gate(p, hMax, lambda, rhoC) == r
    ensures r.Failure? && r.error != Calculation.ZeroDivision ==> Calculation.Gate(p, hMax, lambda, rhoC) == r
    ensures r == Failure(Calculation.ZeroDivision) <==>
      rhoC == 0.0 || (p.convection && (p.groundHeatCapacity == 0.0 || lambda == 0.0)) || (!p.convection && hMax == 0.0)
  {
    if rhoC == 0.0 then Failure(Calculation.ZeroDivision)
    else
      var a := lambda / rhoC;
      if p.convection then
        if p.groundHeatCapacity == 0.0 || a == 0.0 then Failure(Calculation.ZeroDivision)
        else
          var b := Calculation.ConvectionCoefficient(p);
          var pe := Calculation.Peclet(p, hMax, a);
          if pe > 2.0 then Failure(Calculation.Unstable(Some(pe)))
          else Success(Calculation.Setup(lambda, rhoC, a, Some(b), Some(pe), None))
      else if hMax == 0.0 then Failure(Calculation.ZeroDivision)
      else Success(Calculation.Setup(lambda, rhoC, a, None, None, Some(Calculation.Neumann(a, p.dt, hMax))))
  }

  /** The set-up block followed by the operator: the current driver's material
      parameters and gate, except that a zero a or h_max raises here; every failure
      ends in exit(1) before the loop. Wherever this driver gets past the block, the
      current one does so with the same set-up, and it fails with the same error
      unless this one divides by zero. */
  function Assemble(p: Calculation.SimParams, hMax: real)
    : (r: Result<(Calculation.Setup, Operator), Calculation.SetupError>)
    ensures r.Success? ==>
      Calculation.Prepare(p, hMax) == Success(r.value.0)
      && r.value.1 == SystemOperator(r.value.0, p.dt)
      && (r.value.1.Plus? || r.value.1.WithBc?)
    ensures r.Failure? && r.error != Calculation.ZeroDivision ==> Calculation.Prepare(p, hMax) == Failure(r.error)
    ensures Calculation.Prepare(p, hMax) == Failure(Calculation.ZeroDivision) ==> r == Failure(Calculation.ZeroDivision)
  {
    match Calculation.Material(p)
    case Failure(e) => Failure(e)
    case Success((lambda, rhoC)) =>
      match LegacyGate(p, hMax, lambda, rhoC)
      case Failure(e) => Failure(e)
      case Success(s) => Success((s, SystemOperator(s, p.dt)))
  }

  /** A diffusion coefficient of exactly 0 with convection on stops this driver with
      ZeroDivisionError, where the current driver either aborts on an unbounded
      Péclet number or carries on without one. */
  lemma LegacyZeroDiffusion(p: Calculation.SimParams, hMax: real)
    requires p.convection && p.groundHeatCapacity != 0.0
    requires Calculation.Material(p).Success?
    requires Calculation.Material(p).value.0 == 0.0 && Calculation.Material(p).value.1 != 0.0
    ensures Assemble(p, hMax) == Failure(Calculation.ZeroDivision)
    ensures Calculation.Prepare(p, hMax) == Failure(Calculation.Unstable(None))
      || (Calculation.Prepare(p, hMax).Success? && Calculation.Prepare(p, hMax).value.peclet.None?)
  {
    var (lambda, rhoC) := Calculation.Material(p).value;
    Calculation.ZeroDiffusionGate(p, hMax, rhoC);
  }

  /** A porosity of exactly 0 never calls the mixing laws: the ground values are
      used as they are and no mixing error can stop the run. */
  lemma LegacyZeroPorosity(p: Calculation.SimParams, hMax: real)
    requires p.porosity == 0.0
    ensures Assemble(p, hMax).Success? ==>
      Assemble(p, hMax).value.0.conductivity == p.groundConductivity
      && Assemble(p, hMax).value.0.heatCapacity == p.groundHeatCapacity
    ensures Assemble(p, hMax).Failure? ==> !Assemble(p, hMax).error.MaterialFailed?
  {
    Calculation.ZeroPorosityBypass(p);
  }

  /** With convection on and non-zero divisors, the run stops before the loop
      exactly when max(vx, vy)·h_max/a exceeds 2. */
  lemma LegacyPecletAborts(p: Calculation.SimParams, hMax: real)
    requires p.convection && p.groundHeatCapacity != 0.0
    requires Calculation.Material(p).Success?
    requires Calculation.Material(p).value.0 != 0.0 && Calculation.Material(p).value.1 != 0.0
    ensures var (lambda, rhoC) := Calculation.Material(p).value;
      Assemble(p, hMax).Failure?
      <==> Calculation.Peclet(p, hMax, lambda / rhoC) > 2.0
    ensures Assemble(p, hMax).Failure? ==> Assemble(p, hMax).error.Unstable?
  {
    var (lambda, rhoC) := Calculation.Material(p).value;
    Calculation.PecletGate(p, hMax, lambda, rhoC);
  }

  // ---------------------------------------------------------------------------
  // The right-hand side
  // ---------------------------------------------------------------------------

  /** A right-hand side vector as built by the loop: M·T_prev, point sources
      applied to it one by one, and the boundary condition. */
  datatype Rhs =
    | MassTimes(field: seq<real>)
    | WithSource(base: Rhs, at: Point, magnitude: real)
    | RhsBc(inner: Rhs)

  /** The point sources applied to a right-hand side, in order. */
  function SourcesOf(b: Rhs): seq<(Point, real)>
  {
    match b
    case MassTimes(_) => []
    case WithSource(base, p, q) => SourcesOf(base) + [(p, q)]
    case RhsBc(inner) => SourcesOf(inner)
  }

  /** The field the mass matrix multiplies. */
  function BaseField(b: Rhs): seq<real>
  {
    match b
    case MassTimes(f) => f
    case WithSource(base, _, _) => BaseField(base)
    case RhsBc(inner) => BaseField(inner)
  }

  /** How many times the boundary condition is applied to a right-hand side. */
  function RhsBcCount(b: Rhs): nat
  {
    match b
    case MassTimes(_) => 0
    case WithSource(base, _, _) => RhsBcCount(base)
    case RhsBc(inner) => 1 + RhsBcCount(inner)
  }

  /** The total magnitude of the point sources. */
  function SourceTotal(b: Rhs): real
  {
    match b
    case MassTimes(_) => 0.0
    case WithSource(base, _, q) => SourceTotal(base) + q
    case RhsBc(inner) => SourceTotal(inner)
  }

  /** `PointSource(V, loc, Q).apply(b)` for every location in turn. */
  function AddSources(b: Rhs, locations: seq<Point>, q: real): Rhs
  {
    if |locations| == 0 then b
    else
      var n := |locations| - 1;
      WithSource(AddSources(b, locations[..n], q), locations[n], q)
  }

  /** The right-hand side of a step from the previous field T_1. */
  function StepRhs(previous: seq<real>, locations: seq<Point>, q: real): Rhs
  {
    RhsBc(AddSources(MassTimes(previous), locations, q))
  }

  /** Applying the sources appends one source of magnitude q per location, in the
      order of the locations, and touches neither the base field nor the boundary
      condition. */
  lemma {:induction false} AddSourcesShape(b: Rhs, locations: seq<Point>, q: real)
    ensures SourcesOf(AddSources(b, locations, q))
      == SourcesOf(b) + seq(|locations|, i requires 0 <= i < |locations| => (locations[i], q))
    ensures BaseField(AddSources(b, locations, q)) == BaseField(b)
    ensures RhsBcCount(AddSources(b, locations, q)) == RhsBcCount(b)
    ensures SourceTotal(AddSources(b, locations, q)) == SourceTotal(b) + |locations| as real * q
    decreases |locations|
  {
    if |locations| > 0 {
      var n := |locations| - 1;
      var init := locations[..n];
      AddSourcesShape(b, init, q);
      var pairs := seq(|locations|, i requires 0 <= i < |locations| => (locations[i], q));
      var initPairs := seq(n, i requires 0 <= i < n => (init[i], q));
      assert pairs == initPairs + [(locations[n], q)];
    }
  }

  /** Every step's right-hand side is M·T_1 plus a source of magnitude Q at every
      borehole, with the boundary condition applied exactly once, last; the sources
      add up to n·Q. */
  lemma StepRhsShape(previous: seq<real>, locations: seq<Point>, q: real)
    ensures StepRhs(previous, locations, q).RhsBc?
    ensures RhsBcCount(StepRhs(previous, locations, q)) == 1
    ensures BaseField(StepRhs(previous, locations, q)) == previous
    ensures SourcesOf(StepRhs(previous, locations, q))
      == seq(|locations|, i requires 0 <= i < |locations| => (locations[i], q))
    ensures SourceTotal(StepRhs(previous, locations, q)) == |locations| as real * q
  {
    AddSourcesShape(MassTimes(previous), locations, q);
  }

  /** The heat the point sources inject, weighted by ρc, is the step's probe energy
      Δt·demand·n. */
  lemma SourcesCarryProbeEnergy(previous: seq<real>, locations: seq<Point>, demand: real, dt: real, rhoC: real)
    requires rhoC != 0.0
    ensures SourceTotal(StepRhs(previous, locations, Calculation.Source(demand, dt, rhoC))) * rhoC
      == dt * demand * |locations| as real
  {
    var q := Calculation.Source(demand, dt, rhoC);
    var n := |locations| as real;
    StepRhsShape(previous, locations, q);
    assert (n * q) * rhoC == n * (q * rhoC);
  }

  /** The loop that builds `b`: M·T_1, one point source per location, then the
      boundary condition. */
  method BuildRhs(previous: seq<real>, locations: seq<Point>, q: real) returns (b: Rhs)
    ensures b == StepRhs(previous, locations, q)
  {
    b := MassTimes(previous);
    var i := 0;
    while i < |locations|
      invariant 0 <= i <= |locations|
      invariant b == AddSources(MassTimes(previous), locations[..i], q)
    {
      assert locations[..i + 1][..i] == locations[..i];
      b := WithSource(b, locations[i], q);
      i := i + 1;
    }
    assert locations[..i] == locations;
    b := RhsBc(b);
  }

  // ---------------------------------------------------------------------------
  // Probing the boreholes
  // ---------------------------------------------------------------------------

  /** The FEniCS backend: the number of degrees of freedom, the LU solve of an
      operator against a right-hand side, the boundary flux ∫−λ∇T·n ds, the heat
      content ∫ρc·T dx, and evaluation at a point (None where FEniCS raises
      because the point lies outside the mesh). */
  datatype LegacyFem = LegacyFem(
    dofs: nat,
    solve: (Operator, Rhs) -> seq<real>,
    boundaryFlux: (real, seq<real>) -> real,
    heatContent: (real, seq<real>) -> real,
    evalAt: (seq<real>, Point) -> Option<real>)

  /** The four samples of a borehole, left, right, below and above. */
  function FourSamples(fem: LegacyFem, field: seq<real>, loc: Point, r: real): seq<Option<real>>
  {
    [fem.evalAt(field, Calculation.ProbeOffset(loc, r, 0)), fem.evalAt(field, Calculation.ProbeOffset(loc, r, 1)),
     fem.evalAt(field, Calculation.ProbeOffset(loc, r, 2)), fem.evalAt(field, Calculation.ProbeOffset(loc, r, 3))]
  }

  /** `T_EWS`: the plain average of the four samples, which raises when a probe
      lies outside the mesh. Where all four exist it is the NaN-skipping mean the
      current driver takes. */
  function BoreholeTemperature(fem: LegacyFem, field: seq<real>, loc: Point, r: real): (t: Option<real>)
    ensures t.Some? <==> forall k :: 0 <= k < 4 ==> FourSamples(fem, field, loc, r)[k].Some?
    ensures t.Some? ==> Calculation.NanMean(FourSamples(fem, field, loc, r)) == t
  {
    var s := FourSamples(fem, field, loc, r);
    if s[0].Some? && s[1].Some? && s[2].Some? && s[3].Some? then
      Calculation.NanMeanOfFour(s[0].value, s[1].value, s[2].value, s[3].value);
      assert s == [Some(s[0].value), Some(s[1].value), Some(s[2].value), Some(s[3].value)];
      Some((s[0].value + s[1].value + s[2].value + s[3].value) / 4.0)
    else None
  }

  /** The loop over the boreholes: temperature first, then P_el, borehole by
      borehole. `T_EWS` is a numpy float64 here, so P_el never raises: the loop
      stops only at a probe outside the mesh (None), and a division by T_H = 0 or
      γ = 0 leaves a non-finite entry (None) in the P_el row. */
  function BoreholeRows(fem: LegacyFem, field: seq<real>, locations: seq<Point>, r: real,
                        demand: real, tHot: real, dt: real, gamma: real)
    : (rows: Option<(seq<real>, seq<Option<real>>)>)
    ensures rows.Some? ==> |rows.value.0| == |locations| && |rows.value.1| == |locations|
  {
    if |locations| == 0 then Some(([], []))
    else
      var n := |locations| - 1;
      match BoreholeRows(fem, field, locations[..n], r, demand, tHot, dt, gamma)
      case None => None
      case Some((temps, wel)) =>
        match BoreholeTemperature(fem, field, locations[n], r)
        case None => None
        case Some(t) => Some((temps + [t], wel + [Tools.PElValuesFloat64(demand, t, tHot, dt, gamma)]))
  }

  /** The rows are filled exactly when every borehole has all four probes inside the
      mesh; then slot i holds the plain average of borehole i and its P_el. */
  lemma BoreholeRowsShape(fem: LegacyFem, field: seq<real>, locations: seq<Point>, r: real,
                          demand: real, tHot: real, dt: real, gamma: real)
    ensures BoreholeRows(fem, field, locations, r, demand, tHot, dt, gamma).Some? <==>
      forall i :: 0 <= i < |locations| ==> BoreholeTemperature(fem, field, locations[i], r).Some?
    ensures BoreholeRows(fem, field, locations, r, demand, tHot, dt, gamma).Some? ==>
      var (temps, wel) := BoreholeRows(fem, field, locations, r, demand, tHot, dt, gamma).value;
      forall i :: 0 <= i < |locations| ==>
        Some(temps[i]) == BoreholeTemperature(fem, field, locations[i], r)
        && wel[i] == Tools.PElValuesFloat64(demand, temps[i], tHot, dt, gamma)
  {
    BoreholeRowsFilled(fem, field, locations, r, demand, tHot, dt, gamma);
    BoreholeRowsEntries(fem, field, locations, r, demand, tHot, dt, gamma);
  }

  lemma {:induction false} BoreholeRowsFilled(fem: LegacyFem, field: seq<real>, locations: seq<Point>, r: real,
                                              demand: real, tHot: real, dt: real, gamma: real)
    ensures BoreholeRows(fem, field, locations, r, demand, tHot, dt, gamma).Some? <==>
      forall i :: 0 <= i < |locations| ==> BoreholeTemperature(fem, field, locations[i], r).Some?
    decreases |locations|
  {
    if |locations| > 0 {
      var n := |locations| - 1;
      BoreholeRowsFilled(fem, field, locations[..n], r, demand, tHot, dt, gamma);
      assert forall i :: 0 <= i < n ==> locations[..n][i] == locations[i];
    }
  }

  lemma {:induction false} BoreholeRowsEntries(fem: LegacyFem, field: seq<real>, locations: seq<Point>, r: real,
                                               demand: real, tHot: real, dt: real, gamma: real)
    ensures BoreholeRows(fem, field, locations, r, demand, tHot, dt, gamma).Some? ==>
      var (temps, wel) := BoreholeRows(fem, field, locations, r, demand, tHot, dt, gamma).value;
      forall i :: 0 <= i < |locations| ==>
        Some(temps[i]) == BoreholeTemperature(fem, field, locations[i], r)
        && wel[i] == Tools.PElValuesFloat64(demand, temps[i], tHot, dt, gamma)
    decreases |locations|
  {
    if |locations| > 0 {
      var n := |locations| - 1;
      BoreholeRowsEntries(fem, field, locations[..n], r, demand, tHot, dt, gamma);
      assert forall i :: 0 <= i < n ==> locations[..n][i] == locations[i];
    }
  }

  /** Where the current driver stops with ZeroDivisionError this one goes on: an
      entry of the P_el row is non-finite exactly when its borehole extracts heat
      below T_H and T_H or γ is 0, and is the finite P_el otherwise. */
  lemma NonFiniteRowEntries(fem: LegacyFem, field: seq<real>, locations: seq<Point>, r: real,
                            demand: real, tHot: real, dt: real, gamma: real, i: int)
    requires BoreholeRows(fem, field, locations, r, demand, tHot, dt, gamma).Some?
    requires 0 <= i < |locations|
    ensures var (temps, wel) := BoreholeRows(fem, field, locations, r, demand, tHot, dt, gamma).value;
      (wel[i].None? <==> demand < 0.0 && temps[i] < tHot && (tHot == 0.0 || gamma == 0.0))
      && (wel[i].Some? ==> wel[i] == Some(Tools.PElValues(demand, Some(temps[i]), tHot, dt, gamma).value))
  {
    BoreholeRowsShape(fem, field, locations, r, demand, tHot, dt, gamma);
  }

  /** A probe outside the mesh among the first boreholes stops the whole loop. */
  lemma {:induction false} BoreholeRowsPrefixFails(fem: LegacyFem, field: seq<real>, locations: seq<Point>, r: real,
                                                   demand: real, tHot: real, dt: real, gamma: real, j: nat)
    requires j <= |locations|
    requires BoreholeRows(fem, field, locations[..j], r, demand, tHot, dt, gamma).None?
    ensures BoreholeRows(fem, field, locations, r, demand, tHot, dt, gamma).None?
    decreases |locations|
  {
    if j < |locations| {
      var n := |locations| - 1;
      assert locations[..n][..j] == locations[..j];
      BoreholeRowsPrefixFails(fem, field, locations[..n], r, demand, tHot, dt, gamma, j);
    } else {
      assert locations[..j] == locations;
    }
  }

  /** With a demand that is not an extraction (in particular a demand of exactly
      0.0, which this driver accepts) every P_el of the filled rows is 0. */
  lemma {:induction false} NonExtractionRows(fem: LegacyFem, field: seq<real>, locations: seq<Point>, r: real,
                                             demand: real, tHot: real, dt: real, gamma: real)
    requires demand >= 0.0
    ensures BoreholeRows(fem, field, locations, r, demand, tHot, dt, gamma).Some? ==>
      BoreholeRows(fem, field, locations, r, demand, tHot, dt, gamma).value.1 == seq(|locations|, _ => Some(0.0))
    decreases |locations|
  {
    if |locations| > 0 {
      var n := |locations| - 1;
      NonExtractionRows(fem, field, locations[..n], r, demand, tHot, dt, gamma);
      var rows := BoreholeRows(fem, field, locations, r, demand, tHot, dt, gamma);
      if rows.Some? {
        var prefix := BoreholeRows(fem, field, locations[..n], r, demand, tHot, dt, gamma);
        assert prefix.Some?;
        assert rows.value.1 == prefix.value.1 + [Some(0.0)];
        assert seq(n, _ => Some(0.0)) + [Some(0.0)] == seq(|locations|, _ => Some(0.0));
      }
    }
  }

  /** `for i in range(n_EWS)`: the four-probe average, then P_el. */
  method FillRows(fem: LegacyFem, field: seq<real>, locations: seq<Point>, r: real,
                  demand: real, tHot: real, dt: real, gamma: real)
    returns (rows: Option<(seq<real>, seq<Option<real>>)>)
    ensures rows == BoreholeRows(fem, field, locations, r, demand, tHot, dt, gamma)
  {
    var temps: seq<real> := [];
    var wel: seq<Option<real>> := [];
    var i := 0;
    while i < |locations|
      invariant 0 <= i <= |locations|
      invariant BoreholeRows(fem, field, locations[..i], r, demand, tHot, dt, gamma) == Some((temps, wel))
    {
      assert locations[..i + 1][..i] == locations[..i];
      var sample := BoreholeTemperature(fem, field, locations[i], r);
      if sample.None? {
        BoreholeRowsPrefixFails(fem, field, locations, r, demand, tHot, dt, gamma, i + 1);
        return None;
      }
      var t := sample.value;
      var w := Tools.PElValuesFloat64(demand, t, tHot, dt, gamma);
      temps := temps + [t];
      wel := wel + [w];
      i := i + 1;
    }
    assert locations[..i] == locations;
    rows := Some((temps, wel));
  }

  // ---------------------------------------------------------------------------
  // One time step
  // ---------------------------------------------------------------------------

  /** Why the legacy loop stops: `powerprofile.get(t)` gave None and the product
      raised TypeError, or a probe fell outside the mesh. */
  datatype LegacyError = MissingDemand(step: int) | OutsideMesh(step: int)

  /** Everything the loop reads besides the profile. */
  datatype LegacyEnv = LegacyEnv(
    fem: LegacyFem,
    setup: Calculation.Setup,
    dt: real,
    locations: seq<Point>,
    pipeRadius: real,
    tHot: real,
    gamma: real,
    init: seq<real>)

  /** The solver returns a value for every degree of freedom. */
  ghost predicate SolveKeepsSize(fem: LegacyFem)
  {
    forall op: Operator, b: Rhs :: |fem.solve(op, b)| == fem.dofs
  }

  /** Steps 1..k find an entry in the profile; unlike the current driver, an entry
      of 0.0 is accepted. */
  predicate Known(profile: map<int, real>, k: int)
  {
    forall t :: 1 <= t <= k ==> t in profile
  }

  /** The field T after k steps, starting from T_0 everywhere: each step solves the
      system operator against M·T_1 plus the point sources of that step's Q. */
  function FieldAfter(env: LegacyEnv, profile: map<int, real>, k: nat): seq<real>
    requires env.setup.heatCapacity != 0.0 && Known(profile, k)
  {
    if k == 0 then env.init
    else
      var q := Calculation.Source(profile[k], env.dt, env.setup.heatCapacity);
      env.fem.solve(SystemOperator(env.setup, env.dt), StepRhs(FieldAfter(env, profile, k - 1), env.locations, q))
  }

  /** The rows of step t, probed in the field after it. */
  function StepRows(env: LegacyEnv, profile: map<int, real>, t: int): Option<(seq<real>, seq<Option<real>>)>
    requires env.setup.heatCapacity != 0.0 && 1 <= t && Known(profile, t)
  {
    BoreholeRows(env.fem, FieldAfter(env, profile, t), env.locations, env.pipeRadius,
                 profile[t], env.tHot, env.dt, env.gamma)
  }

  /** The outcome of a step from its rows and its three energies in J: the
      exception of a probe outside the mesh, or the record of the energies in kWh. */
  function RecordOutcome(t: int, rows: Option<(seq<real>, seq<Option<real>>)>,
                         eGround: real, eFlux: real, eProbe: real): (r: Result<Calculation.StepRecord, LegacyError>)
    ensures r.Success? <==> rows.Some?
    ensures r.Failure? ==> r.error == OutsideMesh(t)
    ensures r.Success? ==>
      r.value.day == t && r.value.tempRow == Calculation.Lift(rows.value.0) && r.value.wElRow == rows.value.1
      && r.value.deltaE * Calculation.KWh == eGround && r.value.eFlux * Calculation.KWh == eFlux
      && r.value.eProbe * Calculation.KWh == eProbe
      && r.value.error == r.value.deltaE + r.value.eFlux + r.value.eProbe
      && r.value.eInout == r.value.deltaE + r.value.eProbe
      && r.value.qProbe.None? && r.value.eStorage.None?
  {
    if rows.None? then Failure(OutsideMesh(t))
    else Success(Calculation.MakeRecord(t, eGround, eFlux, eProbe, rows.value.1, Calculation.Lift(rows.value.0)))
  }

  /** Step t: the record built from the fields before and after it, or the
      exception of a probe outside the mesh that ends the run. */
  function StepOutcome(env: LegacyEnv, profile: map<int, real>, t: int): (r: Result<Calculation.StepRecord, LegacyError>)
    requires env.setup.heatCapacity != 0.0 && 1 <= t && Known(profile, t)
    ensures r.Success? <==> StepRows(env, profile, t).Some?
    ensures r.Failure? ==> r.error == OutsideMesh(t)
  {
    OutcomeFrom(env, t, profile[t], FieldAfter(env, profile, t - 1), FieldAfter(env, profile, t))
  }

  /** The outcome of a step with the given demand from the fields before and after
      it: probe the latter, and record the drop of heat content, the boundary
      energy and the probe energy. */
  function OutcomeFrom(env: LegacyEnv, t: int, demand: real, before: seq<real>, after: seq<real>)
    : Result<Calculation.StepRecord, LegacyError>
  {
    RecordOutcome(t, BoreholeRows(env.fem, after, env.locations, env.pipeRadius, demand, env.tHot, env.dt, env.gamma),
                  GroundEnergy(env, before, after), BoundaryEnergy(env, after), ProbeEnergy(env, demand))
  }

  /** `E_ground_i`: the drop of the ρc-weighted heat content over the step. */
  function GroundEnergy(env: LegacyEnv, before: seq<real>, after: seq<real>): real
  {
    env.fem.heatContent(env.setup.heatCapacity, before) - env.fem.heatContent(env.setup.heatCapacity, after)
  }

  /** `E_flux_i`: −Δt times the outward boundary flux of the new field. */
  function BoundaryEnergy(env: LegacyEnv, after: seq<real>): real
  {
    -env.dt * env.fem.boundaryFlux(env.setup.conductivity, after)
  }

  /** `E_probe_i`: Δt times the demand, once per borehole. */
  function ProbeEnergy(env: LegacyEnv, demand: real): real
  {
    env.dt * demand * |env.locations| as real
  }

  /** The record of a step that succeeds: its day, the probed rows, and the
      energies of the current driver — the drop of ρc-weighted heat content, −Δt
      times the flux of the new field and Δt·demand per borehole, each in kWh, with
      the error their sum and Q_probe and E_storage NaN. */
  lemma StepBalance(env: LegacyEnv, profile: map<int, real>, t: int)
    requires env.setup.heatCapacity != 0.0 && 1 <= t && Known(profile, t)
    requires StepOutcome(env, profile, t).Success?
    ensures var r := StepOutcome(env, profile, t).value;
      var c := env.setup.heatCapacity;
      var next := FieldAfter(env, profile, t);
      r.day == t
      && Calculation.Lift(StepRows(env, profile, t).value.0) == r.tempRow
      && StepRows(env, profile, t).value.1 == r.wElRow
      && r.deltaE * Calculation.KWh == env.fem.heatContent(c, FieldAfter(env, profile, t - 1)) - env.fem.heatContent(c, next)
      && r.eFlux * Calculation.KWh == -env.dt * env.fem.boundaryFlux(env.setup.conductivity, next)
      && r.eProbe * Calculation.KWh == env.dt * profile[t] * |env.locations| as real
      && r.error == r.deltaE + r.eFlux + r.eProbe
      && r.eInout == r.deltaE + r.eProbe
      && r.qProbe.None? && r.eStorage.None?
  {
  }

  /** A demand of exactly 0.0 passes this driver's lookup: the step stops only on
      a probe outside the mesh, and otherwise records no probe energy and a P_el
      of 0 at every borehole. */
  lemma ZeroDemandStep(env: LegacyEnv, profile: map<int, real>, t: int)
    requires env.setup.heatCapacity != 0.0 && 1 <= t && Known(profile, t)
    requires profile[t] == 0.0
    ensures StepOutcome(env, profile, t).Failure? ==> StepOutcome(env, profile, t) == Failure(OutsideMesh(t))
    ensures StepOutcome(env, profile, t).Success? ==>
      StepOutcome(env, profile, t).value.eProbe == 0.0
      && StepOutcome(env, profile, t).value.wElRow == seq(|env.locations|, _ => Some(0.0))
  {
    NonExtractionRows(env.fem, FieldAfter(env, profile, t), env.locations, env.pipeRadius,
                      profile[t], env.tHot, env.dt, env.gamma);
  }

  /** On the tiled profile, whose keys are 1..years·365, the lookup of step t ≥ 1
      raises exactly when t lies past years·365. */
  lemma LegacyProfileCoverage(years: int, a: real, b: real, cosine: int -> real,
                              simpson: (seq<real>, seq<int>) -> real, t: int)
    requires years >= 1 && t >= 1
    ensures t in PowerProfile.MultiplePowerProfile(years, a, b, cosine, simpson).profile <==> t <= years * 365
  {
    PowerProfile.TiledProfileKeys(years, a, b, cosine, simpson);
  }

  /** `records` are the records of steps 1..|records|, in order. */
  ghost predicate LegacyLogged(env: LegacyEnv, profile: map<int, real>, records: seq<Calculation.StepRecord>)
  {
    |records| == 0 ||
    (LegacyLogged(env, profile, records[..|records| - 1])
     && env.setup.heatCapacity != 0.0 && Known(profile, |records|)
     && StepOutcome(env, profile, |records|) == Success(records[|records| - 1]))
  }

  /** The k-th logged record is the record of step k + 1. */
  lemma {:induction false} LegacyLoggedAt(env: LegacyEnv, profile: map<int, real>,
                                          records: seq<Calculation.StepRecord>, k: int)
    requires LegacyLogged(env, profile, records) && 0 <= k < |records|
    ensures env.setup.heatCapacity != 0.0 && Known(profile, k + 1)
    ensures StepOutcome(env, profile, k + 1) == Success(records[k])
    decreases |records|
  {
    var init := records[..|records| - 1];
    if k < |init| {
      LegacyLoggedAt(env, profile, init, k);
      assert init[k] == records[k];
    }
  }

  /** The rest of the loop body once T is solved: the boundary flux, the rows and
      the record, with the two unscaled energies the accumulators add. */
  method ProbeAndRecord(env: LegacyEnv, t: int, demand: real, before: seq<real>, solution: seq<real>)
    returns (outcome: Result<Calculation.StepRecord, LegacyError>, eFlux: real, eProbe: real)
    ensures outcome == OutcomeFrom(env, t, demand, before, solution)
    ensures outcome.Success? ==>
      eFlux == outcome.value.eFlux * Calculation.KWh && eProbe == outcome.value.eProbe * Calculation.KWh
  {
    var rows := FillRows(env.fem, solution, env.locations, env.pipeRadius, demand, env.tHot, env.dt, env.gamma);
    eFlux := BoundaryEnergy(env, solution);
    eProbe := ProbeEnergy(env, demand);
    outcome := RecordOutcome(t, rows, GroundEnergy(env, before, solution), eFlux, eProbe);
  }

  // ---------------------------------------------------------------------------
  // The time loop
  // ---------------------------------------------------------------------------

  /** The state of `run_calculation` during the loop: the fields T and T_1 as two
      distinct buffers, the two accumulators, and as ghost logs the records handed
      to the HDF5 writer and the days of the vertex snapshots. */
  class LegacyLoop {
    var current: array<real>
    var previous: array<real>
    var totalFlux: real
    var probeSum: real
    ghost var records: seq<Calculation.StepRecord>
    ghost var snapshots: seq<int>

    ghost predicate Valid()
      reads this`current, this`previous
    {
      current != previous && current.Length == previous.Length
    }

    /** T = Function(V) is zero; T_1 is T_0 interpolated everywhere. */
    constructor (dofs: nat, t0: real)
      ensures Valid() && fresh(current) && fresh(previous)
      ensures previous.Length == dofs && previous[..] == seq(dofs, _ => t0)
      ensures current[..] == seq(dofs, _ => 0.0)
      ensures totalFlux == 0.0 && probeSum == 0.0 && records == [] && snapshots == []
    {
      current := new real[dofs](_ => 0.0);
      previous := new real[dofs](_ => t0);
      totalFlux, probeSum := 0.0, 0.0;
      records, snapshots := [], [];
    }

    /** `T_1.assign(T)`: an element-wise copy, the buffers stay apart. */
    method CopyToPrevious()
      requires Valid()
      modifies previous
      ensures Valid()
      ensures previous[..] == current[..]
      ensures current[..] == old(current[..])
    {
      forall k | 0 <= k < previous.Length {
        previous[k] := current[k];
      }
    }

    /** The loop body after the lookup: build the right-hand side, solve into T,
        take the flux, fill the rows and form the record. Also returns the two
        unscaled energies the accumulators add. */
    method Step(env: LegacyEnv, profile: map<int, real>, t: int)
      returns (outcome: Result<Calculation.StepRecord, LegacyError>, eFlux: real, eProbe: real)
      requires Valid() && previous.Length == env.fem.dofs && SolveKeepsSize(env.fem)
      requires env.setup.heatCapacity != 0.0 && 1 <= t && Known(profile, t)
      requires previous[..] == FieldAfter(env, profile, t - 1)
      modifies current
      ensures current[..] == FieldAfter(env, profile, t)
      ensures outcome == StepOutcome(env, profile, t)
      ensures outcome.Success? ==>
        eFlux == outcome.value.eFlux * Calculation.KWh && eProbe == outcome.value.eProbe * Calculation.KWh
    {
      var before := previous[..];
      var solution := SolveInto(env, profile, t);
      outcome, eFlux, eProbe := ProbeAndRecord(env, t, profile[t], before, solution);
    }

    /** Build the right-hand side from T_1, solve the system operator against it
        and write the solution into T. */
    method SolveInto(env: LegacyEnv, profile: map<int, real>, t: int) returns (solution: seq<real>)
      requires Valid() && previous.Length == env.fem.dofs && SolveKeepsSize(env.fem)
      requires env.setup.heatCapacity != 0.0 && 1 <= t && Known(profile, t)
      requires previous[..] == FieldAfter(env, profile, t - 1)
      modifies current
      ensures solution == FieldAfter(env, profile, t) && current[..] == solution
    {
      var q := Calculation.Source(profile[t], env.dt, env.setup.heatCapacity);
      var b := BuildRhs(previous[..], env.locations, q);
      solution := env.fem.solve(SystemOperator(env.setup, env.dt), b);
      forall k | 0 <= k < current.Length {
        current[k] := solution[k];
      }
      assert current[..] == solution;
    }

    /** The loop state after k steps: steps 1..k found their demand, T_1 is the
        field after k steps, one record per step, the snapshot days up to k, and
        the accumulators hold the sums of the recorded energies. */
    ghost predicate Accounted(env: LegacyEnv, profile: map<int, real>, k: nat)
      reads this`previous, this`records, this`snapshots, this`totalFlux, this`probeSum, previous
    {
      env.setup.heatCapacity != 0.0 && Known(profile, k)
      && previous[..] == FieldAfter(env, profile, k)
      && |records| == k && LegacyLogged(env, profile, records)
      && snapshots == Calculation.SnapshotsUpTo(k)
      && totalFlux == Calculation.KWh * Calculation.FluxSum(records)
      && probeSum == Calculation.KWh * Calculation.ProbeSum(records)
    }

    /** One pass of the loop body: stop when the profile has no entry for t, take
        step t, stop on its exception, otherwise log the record, copy T into T_1,
        add to the accumulators and take the snapshot of a snapshot day. */
    method Advance(env: LegacyEnv, profile: map<int, real>, t: int) returns (stop: Option<LegacyError>)
      requires Valid() && previous.Length == env.fem.dofs && SolveKeepsSize(env.fem)
      requires 1 <= t && Accounted(env, profile, t - 1)
      modifies this`records, this`snapshots, this`totalFlux, this`probeSum, current, previous
      ensures Valid()
      ensures stop.None? ==> Accounted(env, profile, t)
      ensures stop.Some? ==>
        Accounted(env, profile, t - 1) && stop.value.step == t
        && (stop.value.MissingDemand? <==> t !in profile)
        && (!stop.value.MissingDemand? ==> Known(profile, t) && StepOutcome(env, profile, t) == Failure(stop.value))
    {
      if t !in profile {
        return Some(MissingDemand(t));
      }
      var step, eFlux, eProbe := Step(env, profile, t);
      if step.Failure? {
        return Some(step.error);
      }
      Commit(env, profile, t, step.value, eFlux, eProbe);
      stop := None;
    }

    /** The end of a successful step t. */
    method Commit(env: LegacyEnv, profile: map<int, real>, t: int, rec: Calculation.StepRecord, eFlux: real, eProbe: real)
      requires Valid() && 1 <= t && Accounted(env, profile, t - 1) && Known(profile, t)
      requires StepOutcome(env, profile, t) == Success(rec)
      requires current[..] == FieldAfter(env, profile, t)
      requires eFlux == rec.eFlux * Calculation.KWh && eProbe == rec.eProbe * Calculation.KWh
      modifies this`records, this`snapshots, this`totalFlux, this`probeSum, previous
      ensures Valid() && Accounted(env, profile, t)
    {
      Calculation.AppendSums(records, rec);
      assert (records + [rec])[..|records|] == records;
      records := records + [rec];
      CopyToPrevious();
      totalFlux := totalFlux + eFlux;
      probeSum := probeSum + eProbe;
      if Calculation.IsSnapshotDay(t) {
        snapshots := snapshots + [t];
      }
    }

    /** The `while t <= time_steps` loop of a run of n steps. It stops at the first
        step whose lookup or probing raises; otherwise every step's record is
        the one `StepOutcome` describes, T_1 ends as the field after n steps, the
        accumulators hold the sums of the recorded energies and the snapshots are
        the snapshot days up to n. */
    method Run(env: LegacyEnv, profile: map<int, real>, n: int) returns (outcome: Result<(), LegacyError>)
      requires Valid() && previous.Length == env.fem.dofs && SolveKeepsSize(env.fem)
      requires env.setup.heatCapacity != 0.0
      requires previous[..] == env.init
      modifies this, current, previous
      ensures Valid() && current == old(current) && previous == old(previous)
      ensures outcome.Success? ==> Accounted(env, profile, Calculation.NonNegative(n)) && Known(profile, n)
      ensures outcome.Failure? ==>
        var t := outcome.error.step;
        1 <= t <= n && Accounted(env, profile, t - 1)
        && (outcome.error.MissingDemand? <==> t !in profile)
        && (!outcome.error.MissingDemand? ==> Known(profile, t) && StepOutcome(env, profile, t) == Failure(outcome.error))
    {
      totalFlux, probeSum := 0.0, 0.0;
      records, snapshots := [], [];
      var t := 1;
      while t <= n
        invariant 1 <= t <= Calculation.NonNegative(n) + 1
        invariant Valid() && current == old(current) && previous == old(previous)
        invariant previous.Length == env.fem.dofs
        invariant Accounted(env, profile, t - 1)
      {
        var stop := Advance(env, profile, t);
        if stop.Some? {
          return Failure(stop.value);
        }
        t := t + 1;
      }
      outcome := Success(());
    }
  }
}
