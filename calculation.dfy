/** The bookkeeping around the finite-element solve in src/simulation/calculation.py:
    the progress percentage and its throttle, the material and stability set-up, the
    step count, the probe layout with missing-sample averaging, the per-step energy
    record and the time loop itself. The finite-element backend (assembly, LU solve,
    flux and domain integrals, point location) is foreign code and enters as the
    function fields of `Fem`; the HDF5 sink is the ghost record log of `TimeLoop`. */
module Calculation {
  import opened Wrappers
  import Tools
  import PowerProfile
  import Mesh

  type Point = Mesh.Point

  // ---------------------------------------------------------------------------
  // Progress
  // ---------------------------------------------------------------------------

  /** Python's `round(x, 1)` on the exact value: the nearest multiple of 0.1, a tie
      going to the even multiple. */
  function Round1(x: real): (r: real)
    ensures -0.05 <= r - x <= 0.05
    ensures (10.0 * r).Floor as real == 10.0 * r
  {
    var k := (10.0 * x).Floor;
    var frac := 10.0 * x - k as real;
    var n := if frac > 0.5 then k + 1 else if frac < 0.5 then k else if k % 2 == 0 then k else k + 1;
    n as real / 10.0
  }

  /** The `percent` written to progress.json: round(current/total·100, 1), or 0 when
      the total is not positive. */
  function Percent(current: int, total: int): (r: real)
    ensures total <= 0 ==> r == 0.0
    ensures 0 <= current <= total ==> 0.0 <= r <= 100.0
    ensures 0 < total && current == total ==> r == 100.0
  {
    if total > 0 then
      var x := current as real / total as real * 100.0;
      if 0 <= current <= total then
        ShareBounds(current, total);
        Round1Bounds(x);
        Round1(x)
      else Round1(x)
    else 0.0
  }

  /** current/total·100 lies in [0, 100], and is 100 for the last step. */
  lemma ShareBounds(current: int, total: int)
    requires 0 <= current <= total && 0 < total
    ensures 0.0 <= current as real / total as real * 100.0 <= 100.0
    ensures current == total ==> current as real / total as real * 100.0 == 100.0
  {
    var q := current as real / total as real;
    assert q * total as real == current as real;
    NonNegativeFactor(1.0 - q, total as real);
  }

  /** Rounding to one decimal keeps a percentage in [0, 100] and 100 exact. */
  lemma Round1Bounds(x: real)
    requires 0.0 <= x <= 100.0
    ensures 0.0 <= Round1(x) <= 100.0
    ensures x == 100.0 ==> Round1(x) == 100.0
  {
    var r := Round1(x);
    var m := (10.0 * r).Floor;
    assert 0 <= m <= 1000;
    if x == 100.0 {
      assert 999.5 <= 10.0 * r <= 1000.5;
      assert m == 1000;
    }
  }

  /** `int(time_step / time_steps * 100)` for a positive step count; the loop is not
      entered otherwise, so the value then does not matter. */
  function PctOf(t: int, n: int): int
  {
    if n > 0 then (100 * t) / n else 0
  }

  /** The throttle test: the first step, the last step, or a rise of at least five
      points since the last write. */
  predicate ShouldWrite(t: int, n: int, last: int)
  {
    t == 1 || PctOf(t, n) >= last + 5 || t == n
  }

  /** The steps at which the loop has written progress.json, and `last_progress_pct`. */
  datatype Throttle = Throttle(writes: seq<int>, last: int)

  /** The throttle after steps 1..k of a run of n steps; it starts at −5. */
  function ThrottleAfter(n: int, k: nat): Throttle
  {
    if k == 0 then Throttle([], -5)
    else
      var s := ThrottleAfter(n, k - 1);
      if ShouldWrite(k, n, s.last) then Throttle(s.writes + [k], PctOf(k, n)) else s
  }

  /** The writes are increasing steps in 1..k, the first is step 1, `last` is the
      percentage of the latest write, two consecutive writes are at least five points
      apart unless the later one is the last step, and the last step is written. */
  lemma {:induction false} ThrottleShape(n: int, k: nat)
    ensures k == 0 ==> ThrottleAfter(n, k) == Throttle([], -5)
    ensures k >= 1 ==>
      var s := ThrottleAfter(n, k);
      |s.writes| >= 1 && s.writes[0] == 1 && s.last == PctOf(s.writes[|s.writes| - 1], n)
    ensures var w := ThrottleAfter(n, k).writes;
      forall i :: 0 <= i < |w| ==> 1 <= w[i] <= k
    ensures var w := ThrottleAfter(n, k).writes;
      forall i, j :: 0 <= i < j < |w| ==> w[i] < w[j]
    ensures var w := ThrottleAfter(n, k).writes;
      forall i :: 1 <= i < |w| ==> w[i] == n || PctOf(w[i], n) >= PctOf(w[i - 1], n) + 5
    ensures 1 <= n <= k ==> n in ThrottleAfter(n, k).writes
  {
    if k > 0 {
      ThrottleShape(n, k - 1);
      var s := ThrottleAfter(n, k - 1);
      if ShouldWrite(k, n, s.last) {
        var w := s.writes + [k];
        assert ThrottleAfter(n, k).writes == w;
        if |s.writes| > 0 {
          assert w[|w| - 2] == s.writes[|s.writes| - 1];
        }
      }
    }
  }

  /** Over a whole run the first write is step 1 and the last one is step n. */
  lemma ThrottleEnds(n: int)
    requires n >= 1
    ensures var w := ThrottleAfter(n, n).writes;
      |w| >= 1 && w[0] == 1 && w[|w| - 1] == n
  {
    ThrottleShape(n, n);
    var w := ThrottleAfter(n, n).writes;
    var i :| 0 <= i < |w| && w[i] == n;
    assert w[|w| - 1] <= n;
  }

  // ---------------------------------------------------------------------------
  // Snapshots
  // ---------------------------------------------------------------------------

  /** `time_step in [365 * 1, 365 * 10, 365 * 20, 365 * 30, 365 * 40]`. */
  predicate IsSnapshotDay(t: int)
  {
    t == 365 || t == 3650 || t == 7300 || t == 10950 || t == 14600
  }

  /** The steps among 1..k at which a vertex snapshot is taken, in order. */
  function SnapshotsUpTo(k: nat): seq<int>
  {
    if k == 0 then [] else SnapshotsUpTo(k - 1) + (if IsSnapshotDay(k) then [k] else [])
  }

  lemma {:induction false} SnapshotsMembers(k: nat)
    ensures forall t :: t in SnapshotsUpTo(k) <==> 1 <= t <= k && IsSnapshotDay(t)
  {
    if k > 0 {
      SnapshotsMembers(k - 1);
      assert SnapshotsUpTo(k) == SnapshotsUpTo(k - 1) + (if IsSnapshotDay(k) then [k] else []);
    }
  }

  predicate Increasing(s: seq<int>)
  {
    forall i, j :: 0 <= i < j < |s| ==> s[i] < s[j]
  }

  lemma AppendGreater(s: seq<int>, k: int)
    requires Increasing(s)
    requires forall x :: x in s ==> x < k
    ensures Increasing(s + [k])
  {
    var s' := s + [k];
    forall i, j | 0 <= i < j < |s'| ensures s'[i] < s'[j] {
      assert s'[i] == s[i] && s[i] in s;
    }
  }

  /** Snapshots are taken in increasing order, each day at most once. */
  lemma {:induction false} SnapshotsIncreasing(k: nat)
    ensures Increasing(SnapshotsUpTo(k))
  {
    if k > 0 {
      SnapshotsIncreasing(k - 1);
      SnapshotsMembers(k - 1);
      if IsSnapshotDay(k) {
        AppendGreater(SnapshotsUpTo(k - 1), k);
      }
    }
  }

  // ---------------------------------------------------------------------------
  // Material parameters and the stability gate
  // ---------------------------------------------------------------------------

  /** The SI parameters the simulation reads. */
  datatype SimParams = SimParams(
    porosity: real,
    modelType: int,
    groundConductivity: real,
    groundHeatCapacity: real,
    fluidConductivity: real,
    fluidDensity: real,
    fluidSpecificHeat: real,
    velocityX: real,
    velocityY: real,
    convection: bool,
    dt: real,
    yearsSi: real)

  /** Every way the set-up block ends in exit(1): a ValueError or ZeroDivisionError
      from the mixing laws, another division by zero of Python floats, or the Péclet
      RuntimeWarning with the number it reports (None where that number is +inf). */
  datatype SetupError = MaterialFailed(cause: Tools.ToolsError) | ZeroDivision | Unstable(peclet: Option<real>)

  /** What the set-up block computes: λ, ρc, a = λ/ρc, the convection coefficient and
      the Péclet number (convection on) or the Neumann number (convection off). The
      two numbers divide a numpy float64 by a = 0 or h_max² = 0 without raising; a
      number that is then NaN or ±inf is None. */
  datatype Setup = Setup(
    conductivity: real,
    heatCapacity: real,
    diffusion: real,
    convectionCoefficient: Option<real>,
    peclet: Option<real>,
    neumann: Option<real>)

  /** λ and ρc: the mixing laws, bypassed when the porosity is exactly 0. */
  function Material(p: SimParams): Result<(real, real), SetupError>
  {
    if p.porosity != 0.0 then
      match Tools.WeightedParameter(p.modelType, (p.groundConductivity, p.groundHeatCapacity),
                                    (p.fluidConductivity, p.fluidDensity * p.fluidSpecificHeat), p.porosity)
      case Failure(e) => Failure(MaterialFailed(e))
      case Success(m) => Success(m)
    else Success((p.groundConductivity, p.groundHeatCapacity))
  }

  /** The material and stability block, with `hMax` the largest cell size of the mesh. */
  function Prepare(p: SimParams, hMax: real): (r: Result<Setup, SetupError>)
    ensures Material(p).Failure? ==> r == Failure(Material(p).error)
    ensures Material(p).Success? ==> r == Gate(p, hMax, Material(p).value.0, Material(p).value.1)
    ensures r.Success? ==> Material(p) == Success((r.value.conductivity, r.value.heatCapacity))
  {
    var m := Material(p);
    if m.Failure? then Failure(m.error) else Gate(p, hMax, m.value.0, m.value.1)
  }

  /** The Péclet number max(vx, vy)·h_max/a, with the larger velocity component and
      not the larger magnitude. */
  function Peclet(p: SimParams, hMax: real, a: real): (pe: real)
    requires a != 0.0
    ensures pe * a == Tools.Max(p.velocityX, p.velocityY) * hMax
  {
    Tools.Max(p.velocityX, p.velocityY) * hMax / a
  }

  /** The block after the material parameters are known: a = λ/ρc, then the Péclet
      gate (convection on) or the Neumann number (convection off). λ/ρc and b divide
      Python floats and raise on a zero divisor; `max_distance` is a numpy float64,
      so Pe at a = 0 is +inf (which trips the gate), −inf or NaN (which do not). */
  function Gate(p: SimParams, hMax: real, lambda: real, rhoC: real): (r: Result<Setup, SetupError>)
    ensures r == Failure(ZeroDivision) <==> rhoC == 0.0 || (p.convection && p.groundHeatCapacity == 0.0)
    ensures r.Success? ==>
      r.value.conductivity == lambda && r.value.heatCapacity == rhoC
      && rhoC != 0.0 && r.value.diffusion * rhoC == lambda
    ensures r.Success? && p.convection ==>
      (r.value.peclet.Some? <==> lambda != 0.0)
      && (r.value.peclet.Some? ==> r.value.peclet.value <= 2.0)
      && r.value.neumann.None? && r.value.convectionCoefficient.Some?
    ensures r.Success? && !p.convection ==>
      r.value.peclet.None? && (r.value.neumann.Some? <==> hMax != 0.0) && r.value.convectionCoefficient.None?
    ensures r.Failure? && r.error.Unstable? ==>
      p.convection
      && (r.error.peclet.Some? ==> r.error.peclet.value > 2.0)
      && (r.error.peclet.None? <==> lambda == 0.0)
    ensures r.Failure? && r.error.Unstable? && lambda == 0.0 ==> Tools.Max(p.velocityX, p.velocityY) * hMax > 0.0
  {
    if rhoC == 0.0 then Failure(ZeroDivision)
    else
      var a := lambda / rhoC;
      if p.convection then
        if p.groundHeatCapacity == 0.0 then Failure(ZeroDivision)
        else
          var b := ConvectionCoefficient(p);
          if a == 0.0 then
            if Tools.Max(p.velocityX, p.velocityY) * hMax > 0.0 then Failure(Unstable(None))
            else Success(Setup(lambda, rhoC, a, Some(b), None, None))
          else
            var pe := Peclet(p, hMax, a);
            if pe > 2.0 then Failure(Unstable(Some(pe)))
            else Success(Setup(lambda, rhoC, a, Some(b), Some(pe), None))
      else if hMax == 0.0 then Success(Setup(lambda, rhoC, a, None, None, None))
      else Success(Setup(lambda, rhoC, a, None, None, Some(Neumann(a, p.dt, hMax))))
  }

  /** b = φ·ρ_f·c_f/ρc_g, divided by the ground's own ρc and not by the mixed one. */
  function ConvectionCoefficient(p: SimParams): real
    requires p.groundHeatCapacity != 0.0
  {
    p.porosity * p.fluidDensity * p.fluidSpecificHeat / p.groundHeatCapacity
  }

  /** The Neumann number a·Δt/h_max². */
  function Neumann(a: real, dt: real, hMax: real): real
    requires hMax != 0.0
  {
    a * dt / (hMax * hMax)
  }

  /** A porosity of exactly 0 takes the ground values as they are, whatever the model
      id, even an invalid one. */
  lemma ZeroPorosityBypass(p: SimParams)
    requires p.porosity == 0.0
    ensures Material(p) == Success((p.groundConductivity, p.groundHeatCapacity))
  {
  }

  /** With a valid material and non-zero divisors, the convection run aborts exactly
      when max(vx, vy)·h_max/(λ/ρc) exceeds 2, and then reports that number. */
  lemma PecletGate(p: SimParams, hMax: real, lambda: real, rhoC: real)
    requires rhoC != 0.0 && lambda != 0.0 && p.groundHeatCapacity != 0.0 && p.convection
    ensures Gate(p, hMax, lambda, rhoC).Failure? <==> Peclet(p, hMax, lambda / rhoC) > 2.0
    ensures Gate(p, hMax, lambda, rhoC).Failure? ==>
      Gate(p, hMax, lambda, rhoC) == Failure(Unstable(Some(Peclet(p, hMax, lambda / rhoC))))
  {
    var a := lambda / rhoC;
    assert a != 0.0;
  }

  /** With λ = 0 (and the other divisors non-zero) the Péclet division is a numpy
      division by zero: the convection run aborts exactly when max(vx, vy)·h_max is
      positive, and otherwise goes on without a finite Péclet number. */
  lemma ZeroDiffusionGate(p: SimParams, hMax: real, rhoC: real)
    requires rhoC != 0.0 && p.groundHeatCapacity != 0.0 && p.convection
    ensures Gate(p, hMax, 0.0, rhoC).Failure? <==> Tools.Max(p.velocityX, p.velocityY) * hMax > 0.0
    ensures Gate(p, hMax, 0.0, rhoC).Failure? ==> Gate(p, hMax, 0.0, rhoC) == Failure(Unstable(None))
    ensures Gate(p, hMax, 0.0, rhoC).Success? ==>
      Gate(p, hMax, 0.0, rhoC).value.peclet.None? && Gate(p, hMax, 0.0, rhoC).value.diffusion == 0.0
  {
    assert 0.0 / rhoC == 0.0;
  }

  /** The gate takes the larger velocity component, not the larger magnitude: a flow
      against both axes never trips it, however fast. */
  lemma NegativeFlowPasses(p: SimParams, hMax: real, lambda: real, rhoC: real)
    requires rhoC != 0.0 && lambda / rhoC > 0.0 && p.groundHeatCapacity != 0.0 && p.convection
    requires p.velocityX <= 0.0 && p.velocityY <= 0.0 && hMax >= 0.0
    ensures Gate(p, hMax, lambda, rhoC).Success?
    ensures Gate(p, hMax, lambda, rhoC).value.peclet.value <= 0.0
  {
    var a := lambda / rhoC;
    var v := Tools.Max(p.velocityX, p.velocityY);
    assert v * hMax <= 0.0 by {
      Tools.MulNonNegative(-v, hMax);
    }
    var pe := Peclet(p, hMax, a);
    assert pe <= 0.0 by {
      if pe > 0.0 {
        MulPositive(pe, a);
      }
    }
  }

  lemma MulPositive(x: real, y: real)
    requires x > 0.0 && y > 0.0
    ensures x * y > 0.0
  {
  }

  /** Python's `int(x)` on a float: truncation toward zero. */
  function Trunc(x: real): int
  {
    if x >= 0.0 then x.Floor else -((-x).Floor)
  }

  /** `time_steps = int(years_si / dt)`; a zero step raises ZeroDivisionError. */
  function StepCount(yearsSi: real, dt: real): (r: Result<int, SetupError>)
    ensures r.Failure? <==> dt == 0.0
  {
    if dt == 0.0 then Failure(ZeroDivision) else Success(Trunc(yearsSi / dt))
  }

  /** For a positive step, the run covers the simulated time with whole steps and
      falls short of it by less than one step. */
  lemma StepCountCovers(yearsSi: real, dt: real)
    requires dt > 0.0 && yearsSi >= 0.0
    ensures StepCount(yearsSi, dt).Success?
    ensures var n := StepCount(yearsSi, dt).value;
      n >= 0 && n as real * dt <= yearsSi < (n + 1) as real * dt
  {
    var x := yearsSi / dt;
    assert x * dt == yearsSi;
    assert x >= 0.0 by {
      if x < 0.0 {
        MulPositive(-x, dt);
      }
    }
    assert StepCount(yearsSi, dt) == Success(x.Floor);
    FloorScaled(x, dt, yearsSi);
  }

  lemma FloorScaled(x: real, dt: real, y: real)
    requires x >= 0.0 && dt > 0.0 && y == x * dt
    ensures x.Floor >= 0
    ensures x.Floor as real * dt <= y < (x.Floor + 1) as real * dt
  {
    var f := x.Floor as real;
    assert f <= x < f + 1.0;
    assert (x - f) * dt == y - f * dt;
    assert (f + 1.0 - x) * dt == (x.Floor + 1) as real * dt - y;
    if x - f > 0.0 {
      MulPositive(x - f, dt);
    }
    MulPositive(f + 1.0 - x, dt);
    assert (f + 1.0 - x) * dt > 0.0;
    assert y < (x.Floor + 1) as real * dt;
  }

  // ---------------------------------------------------------------------------
  // Probing the boreholes
  // ---------------------------------------------------------------------------

  /** Probe k (0..3) of a borehole at `loc`, at pipe radius r: left, right, below, above. */
  function ProbeOffset(loc: Point, r: real, k: int): Point
  {
    if k == 0 then (loc.0 - r, loc.1)
    else if k == 1 then (loc.0 + r, loc.1)
    else if k == 2 then (loc.0, loc.1 - r)
    else (loc.0, loc.1 + r)
  }

  /** `eval_pts`: the four probes of every borehole, borehole by borehole. */
  function ProbeLayout(locations: seq<Point>, r: real): (pts: seq<Point>)
    ensures |pts| == 4 * |locations|
  {
    if |locations| == 0 then []
    else
      var n := |locations| - 1;
      var loc := locations[n];
      ProbeLayout(locations[..n], r)
        + [ProbeOffset(loc, r, 0), ProbeOffset(loc, r, 1), ProbeOffset(loc, r, 2), ProbeOffset(loc, r, 3)]
  }

  /** Borehole i is probed at (x−r, y), (x+r, y), (x, y−r), (x, y+r), in slots 4i..4i+3. */
  lemma {:induction false} ProbeLayoutAtOne(locations: seq<Point>, r: real, i: int)
    requires 0 <= i < |locations|
    ensures var pts := ProbeLayout(locations, r);
      var (x, y) := locations[i];
      pts[4 * i] == (x - r, y) && pts[4 * i + 1] == (x + r, y)
      && pts[4 * i + 2] == (x, y - r) && pts[4 * i + 3] == (x, y + r)
    decreases |locations|
  {
    var n := |locations| - 1;
    var prefix := ProbeLayout(locations[..n], r);
    var pts := ProbeLayout(locations, r);
    if i < n {
      ProbeLayoutAtOne(locations[..n], r, i);
      assert locations[..n][i] == locations[i];
      assert pts[4 * i] == prefix[4 * i] && pts[4 * i + 1] == prefix[4 * i + 1];
      assert pts[4 * i + 2] == prefix[4 * i + 2] && pts[4 * i + 3] == prefix[4 * i + 3];
    }
  }

  lemma ProbeLayoutAt(locations: seq<Point>, r: real)
    ensures forall i :: 0 <= i < |locations| ==>
      var pts := ProbeLayout(locations, r);
      var (x, y) := locations[i];
      pts[4 * i] == (x - r, y) && pts[4 * i + 1] == (x + r, y)
      && pts[4 * i + 2] == (x, y - r) && pts[4 * i + 3] == (x, y + r)
  {
    forall i | 0 <= i < |locations| {
      ProbeLayoutAtOne(locations, r, i);
    }
  }

  /** The loop that builds `eval_pts`. */
  method BuildProbePoints(locations: seq<Point>, r: real) returns (pts: seq<Point>)
    ensures pts == ProbeLayout(locations, r)
  {
    pts := [];
    var i := 0;
    while i < |locations|
      invariant 0 <= i <= |locations|
      invariant pts == ProbeLayout(locations[..i], r)
    {
      assert locations[..i + 1][..i] == locations[..i];
      var loc := locations[i];
      pts := pts + [ProbeOffset(loc, r, 0), ProbeOffset(loc, r, 1), ProbeOffset(loc, r, 2), ProbeOffset(loc, r, 3)];
      i := i + 1;
    }
    assert locations[..i] == locations;
  }

  /** What locating one point gives: the value in the cell that holds it, no cell,
      or a RuntimeError from the GJK collision test near the boundary. */
  datatype PointEval = Inside(value: real) | NoCell | CollisionFailure

  /** A sample, with NaN as None. */
  function SampleValue(e: PointEval): Option<real>
  {
    match e
    case Inside(v) => Some(v)
    case NoCell => None
    case CollisionFailure => None
  }

  /** Cells are numbered by the mesh. */
  type Cell = nat

  /** The finite-element backend: the number of degrees of freedom, the solve of one
      step (RHS assembly from T_n and Q, lifting, boundary values, LU solve), the
      boundary flux ∫−λ∇T·n ds, the heat content ∫ρc·T dx, and point location in
      three parts: the bounding-box candidates of a point (one row of
      `compute_collisions_points`), the cells among some candidates that really hold a
      point (`compute_colliding_cells`, None when its GJK test raises a RuntimeError),
      and the value of a field at a point inside a cell (`T.eval`). */
  datatype Fem = Fem(
    dofs: nat,
    solve: (seq<real>, real) -> seq<real>,
    boundaryFlux: (real, seq<real>) -> real,
    heatContent: (real, seq<real>) -> real,
    candidates: Point -> seq<Cell>,
    colliding: (seq<Cell>, Point) -> Option<seq<Cell>>,
    evalIn: (seq<real>, Point, Cell) -> real)

  /** Locating `p` among the candidate cells `cands`: the first colliding cell's value. */
  function LocateAmong(fem: Fem, field: seq<real>, cands: seq<Cell>, p: Point): (e: PointEval)
    ensures e.Inside? <==> fem.colliding(cands, p).Some? && |fem.colliding(cands, p).value| > 0
    ensures e.Inside? ==> e.value == fem.evalIn(field, p, fem.colliding(cands, p).value[0])
  {
    match fem.colliding(cands, p)
    case None => CollisionFailure
    case Some(cells) => if |cells| == 0 then NoCell else Inside(fem.evalIn(field, p, cells[0]))
  }

  /** Locating a point among its own bounding-box candidates. */
  function Locate(fem: Fem, field: seq<real>, p: Point): PointEval
  {
    LocateAmong(fem, field, fem.candidates(p), p)
  }

  /** The samples of a field at the given points, each point located among its own
      candidate cells. */
  function SampleAll(fem: Fem, field: seq<real>, points: seq<Point>): seq<Option<real>>
  {
    seq(|points|, i requires 0 <= i < |points| => SampleValue(Locate(fem, field, points[i])))
  }

  /** The samples `_eval_at_points_batch` takes as written: the candidates are computed
      for all points, but `compute_colliding_cells` is handed the whole candidate list
      with the single point `pts3d[i:i+1]` and `links(0)` is read, so every point is
      tested against the candidate row of the batch's first point. */
  function BatchSamples(fem: Fem, field: seq<real>, points: seq<Point>): seq<Option<real>>
  {
    seq(|points|, i requires 0 <= i < |points| => SampleValue(LocateAmong(fem, field, fem.candidates(points[0]), points[i])))
  }

  /** `_eval_at_points_batch` as written: one sample per point, NaN for a miss or a GJK
      failure, each point tested against the first point's candidate cells. */
  method EvalAtPointsBatch(fem: Fem, field: seq<real>, points: seq<Point>) returns (results: seq<Option<real>>)
    ensures |results| == |points|
    ensures forall i :: 0 <= i < |points| ==>
      (results[i].Some? <==> LocateAmong(fem, field, fem.candidates(points[0]), points[i]).Inside?)
      && (results[i].Some? ==> results[i].value == LocateAmong(fem, field, fem.candidates(points[0]), points[i]).value)
    ensures results == BatchSamples(fem, field, points)
  {
    var rows := seq(|points|, k requires 0 <= k < |points| => fem.candidates(points[k]));
    results := [];
    var i := 0;
    while i < |points|
      invariant 0 <= i <= |points|
      invariant |results| == i
      invariant forall k :: 0 <= k < i ==>
                  results[k] == SampleValue(LocateAmong(fem, field, fem.candidates(points[0]), points[k]))
    {
      var e := LocateAmong(fem, field, rows[0], points[i]);
      if e.Inside? {
        results := results + [Some(e.value)];
      } else {
        results := results + [None];
      }
      i := i + 1;
    }
  }

  /** The evaluation `_eval_at_points_batch` is evidently meant to perform: each point
      tested against its own row of candidates. The time loop samples through this one. */
  method EvalAtPoints(fem: Fem, field: seq<real>, points: seq<Point>) returns (results: seq<Option<real>>)
    ensures |results| == |points|
    ensures forall i :: 0 <= i < |points| ==>
      (results[i].Some? <==> Locate(fem, field, points[i]).Inside?)
      && (results[i].Some? ==> results[i].value == Locate(fem, field, points[i]).value)
    ensures results == SampleAll(fem, field, points)
  {
    var rows := seq(|points|, k requires 0 <= k < |points| => fem.candidates(points[k]));
    results := [];
    var i := 0;
    while i < |points|
      invariant 0 <= i <= |points|
      invariant |results| == i
      invariant forall k :: 0 <= k < i ==> results[k] == SampleValue(Locate(fem, field, points[k]))
    {
      var e := LocateAmong(fem, field, rows[i], points[i]);
      if e.Inside? {
        results := results + [Some(e.value)];
      } else {
        results := results + [None];
      }
      i := i + 1;
    }
  }

  /** The batch as written agrees with the intended evaluation at the first point, and at
      every point whose candidate row is the first point's. */
  lemma BatchAgreesOnSharedCandidates(fem: Fem, field: seq<real>, points: seq<Point>)
    ensures |BatchSamples(fem, field, points)| == |SampleAll(fem, field, points)| == |points|
    ensures forall i :: 0 <= i < |points| && fem.candidates(points[i]) == fem.candidates(points[0]) ==>
              BatchSamples(fem, field, points)[i] == SampleAll(fem, field, points)[i]
    ensures |points| > 0 ==> BatchSamples(fem, field, points)[0] == SampleAll(fem, field, points)[0]
  {
  }

  /** Two probes in different cells: the second point lies in cell 1, which is not among
      the first point's candidates, so the batch as written reads NaN for it while the
      intended evaluation finds its value. */
  lemma BatchMissesSecondPoint()
    ensures var p0: Point := (0.0, 0.0);
            var p1: Point := (10.0, 0.0);
            var fem := Fem(0, (f, q) => f, (c, f) => 0.0, (c, f) => 0.0,
                           p => if p == p0 then [0] else [1],
                           (cands, p) => Some(if p == p1 && 1 in cands then [1]
                                              else if p == p0 && 0 in cands then [0] else []),
                           (f, p, c) => 5.0);
            BatchSamples(fem, [], [p0, p1])[1] == None
            && SampleAll(fem, [], [p0, p1])[1] == Some(5.0)
  {
  }

  /** Number of present (non-NaN) samples. */
  function PresentCount(s: seq<Option<real>>): nat
  {
    if |s| == 0 then 0 else PresentCount(s[..|s| - 1]) + (if s[|s| - 1].Some? then 1 else 0)
  }

  /** Sum of the present samples. */
  function PresentSum(s: seq<Option<real>>): real
  {
    if |s| == 0 then 0.0 else PresentSum(s[..|s| - 1]) + (if s[|s| - 1].Some? then s[|s| - 1].value else 0.0)
  }

  lemma {:induction false} PresentCountZero(s: seq<Option<real>>)
    ensures PresentCount(s) == 0 <==> forall i :: 0 <= i < |s| ==> s[i].None?
  {
    if |s| > 0 {
      PresentCountZero(s[..|s| - 1]);
      assert forall i :: 0 <= i < |s| - 1 ==> s[..|s| - 1][i] == s[i];
    }
  }

  /** `np.nanmean`: the mean of the present samples, NaN when there are none. */
  function NanMean(s: seq<Option<real>>): (r: Option<real>)
    ensures r.None? <==> forall i :: 0 <= i < |s| ==> s[i].None?
  {
    PresentCountZero(s);
    if PresentCount(s) == 0 then None else Some(PresentSum(s) / PresentCount(s) as real)
  }

  lemma PresentSumBounds(s: seq<Option<real>>, lo: real, hi: real)
    requires forall i :: 0 <= i < |s| && s[i].Some? ==> lo <= s[i].value <= hi
    ensures lo * PresentCount(s) as real <= PresentSum(s) <= hi * PresentCount(s) as real
  {
    ExcessIsSumMinusCount(s, lo);
    ExcessIsSumMinusCount(s, hi);
    ExcessSigns(s, lo, hi);
  }

  /** The sum of x − m over the present samples x. */
  function Excess(s: seq<Option<real>>, m: real): real
  {
    if |s| == 0 then 0.0 else Excess(s[..|s| - 1], m) + (if s[|s| - 1].Some? then s[|s| - 1].value - m else 0.0)
  }

  lemma {:induction false} ExcessIsSumMinusCount(s: seq<Option<real>>, m: real)
    ensures Excess(s, m) == PresentSum(s) - m * PresentCount(s) as real
  {
    if |s| > 0 {
      var n := |s| - 1;
      ExcessIsSumMinusCount(s[..n], m);
      var c := PresentCount(s[..n]) as real;
      var k := if s[n].Some? then 1.0 else 0.0;
      assert PresentCount(s) as real == c + k;
      assert m * (c + k) == m * c + m * k;
    }
  }

  lemma {:induction false} ExcessSigns(s: seq<Option<real>>, lo: real, hi: real)
    requires forall i :: 0 <= i < |s| && s[i].Some? ==> lo <= s[i].value <= hi
    ensures Excess(s, lo) >= 0.0 && Excess(s, hi) <= 0.0
  {
    if |s| > 0 {
      var n := |s| - 1;
      assert forall i :: 0 <= i < n ==> s[..n][i] == s[i];
      ExcessSigns(s[..n], lo, hi);
    }
  }

  /** The mean lies within the bounds of the samples it averages. */
  lemma NanMeanBetween(s: seq<Option<real>>, lo: real, hi: real)
    requires forall i :: 0 <= i < |s| && s[i].Some? ==> lo <= s[i].value <= hi
    ensures NanMean(s).Some? ==> lo <= NanMean(s).value <= hi
  {
    if NanMean(s).Some? {
      PresentSumBounds(s, lo, hi);
      var c := PresentCount(s) as real;
      assert c > 0.0;
      assert NanMean(s).value == PresentSum(s) / c;
      QuotientBetween(PresentSum(s), c, lo, hi);
    }
  }

  /** Dividing by a positive count keeps a sum between count·lo and count·hi
      between lo and hi. */
  lemma QuotientBetween(sum: real, c: real, lo: real, hi: real)
    requires c > 0.0 && lo * c <= sum <= hi * c
    ensures lo <= sum / c <= hi
  {
    var m := sum / c;
    assert m * c == sum;
    NonNegativeFactor(m - lo, c);
    NonNegativeFactor(hi - m, c);
  }

  lemma NonNegativeFactor(x: real, c: real)
    requires c > 0.0
    ensures x * c >= 0.0 ==> x >= 0.0
  {
  }

  /** With all four probes inside the mesh the mean is the plain average of the four. */
  lemma NanMeanOfFour(a: real, b: real, c: real, d: real)
    ensures NanMean([Some(a), Some(b), Some(c), Some(d)]) == Some((a + b + c + d) / 4.0)
  {
    var s := [Some(a), Some(b), Some(c), Some(d)];
    var s3 := [Some(a), Some(b), Some(c)];
    var s2 := [Some(a), Some(b)];
    var s1 := [Some(a)];
    assert s[..3] == s3 && s3[..2] == s2 && s2[..1] == s1 && s1[..0] == [];
    assert PresentCount(s1) == 1 && PresentSum(s1) == a;
    assert PresentCount(s2) == 2 && PresentSum(s2) == a + b;
    assert PresentCount(s3) == 3 && PresentSum(s3) == a + b + c;
    assert PresentCount(s) == 4 && PresentSum(s) == a + b + c + d;
  }

  /** `T_EWS` of every borehole: the NaN-mean of its four samples. */
  function BoreholeTemperatures(samples: seq<Option<real>>, n: nat): (temps: seq<Option<real>>)
    requires |samples| == 4 * n
    ensures |temps| == n
  {
    seq(n, i requires 0 <= i < n => NanMean(samples[4 * i..4 * i + 4]))
  }

  /** `W_el_row`: P_el of every borehole, or the first ZeroDivisionError. */
  function WElRow(demand: real, temps: seq<Option<real>>, tHot: real, dt: real, gamma: real)
    : (r: Result<seq<real>, Tools.ToolsError>)
    ensures r.Success? ==> |r.value| == |temps|
  {
    if |temps| == 0 then Success([])
    else
      var n := |temps| - 1;
      match WElRow(demand, temps[..n], tHot, dt, gamma)
      case Failure(e) => Failure(e)
      case Success(ws) =>
        match Tools.PElValues(demand, temps[n], tHot, dt, gamma)
        case Failure(e) => Failure(e)
        case Success(w) => Success(ws + [w])
  }

  /** The row succeeds exactly when P_el succeeds for every borehole, and then holds
      P_el of borehole i in slot i. */
  lemma {:induction false} WElRowShape(demand: real, temps: seq<Option<real>>, tHot: real, dt: real, gamma: real)
    ensures WElRow(demand, temps, tHot, dt, gamma).Success? <==>
      forall i :: 0 <= i < |temps| ==> Tools.PElValues(demand, temps[i], tHot, dt, gamma).Success?
    ensures WElRow(demand, temps, tHot, dt, gamma).Success? ==>
      var ws := WElRow(demand, temps, tHot, dt, gamma).value;
      |ws| == |temps|
      && forall i :: 0 <= i < |temps| ==> ws[i] == Tools.PElValues(demand, temps[i], tHot, dt, gamma).value
  {
    if |temps| > 0 {
      var n := |temps| - 1;
      WElRowShape(demand, temps[..n], tHot, dt, gamma);
      assert forall i :: 0 <= i < n ==> temps[..n][i] == temps[i];
    }
  }

  /** The loop over the boreholes that fills `Temp_EWS_row` and `W_el_row`. */
  method FillRows(samples: seq<Option<real>>, n: nat, demand: real, tHot: real, dt: real, gamma: real)
    returns (r: Result<(seq<Option<real>>, seq<real>), Tools.ToolsError>)
    requires |samples| == 4 * n
    ensures r.Success? <==> WElRow(demand, BoreholeTemperatures(samples, n), tHot, dt, gamma).Success?
    ensures r.Success? ==>
      r.value.0 == BoreholeTemperatures(samples, n)
      && r.value.1 == WElRow(demand, BoreholeTemperatures(samples, n), tHot, dt, gamma).value
  {
    ghost var all := BoreholeTemperatures(samples, n);
    var temps: seq<Option<real>> := [];
    var wel: seq<real> := [];
    var i := 0;
    while i < n
      invariant 0 <= i <= n
      invariant temps == all[..i]
      invariant WElRow(demand, temps, tHot, dt, gamma) == Success(wel)
    {
      var t := NanMean(samples[4 * i..4 * i + 4]);
      var w := Tools.PElValues(demand, t, tHot, dt, gamma);
      if w.Failure? {
        assert all[i] == t;
        WElRowShape(demand, all, tHot, dt, gamma);
        return Failure(w.error);
      }
      assert (temps + [t])[..i] == temps;
      temps := temps + [t];
      wel := wel + [w.value];
      i := i + 1;
    }
    assert all[..n] == all;
    r := Success((temps, wel));
  }

  /** Injected heat (positive demand) draws no electricity at any borehole. */
  lemma InjectionNeedsNoPower(demand: real, temps: seq<Option<real>>, tHot: real, dt: real, gamma: real)
    requires demand >= 0.0
    ensures WElRow(demand, temps, tHot, dt, gamma) == Success(seq(|temps|, _ => 0.0))
  {
    WElRowShape(demand, temps, tHot, dt, gamma);
    var ws := WElRow(demand, temps, tHot, dt, gamma).value;
    assert ws == seq(|temps|, _ => 0.0);
  }

  // ---------------------------------------------------------------------------
  // One time step
  // ---------------------------------------------------------------------------

  /** One kWh in J. */
  const KWh: real := 3600.0 * 1000.0

  /** The row handed to the HDF5 writer; Q_probe and E_storage are NaN (None). The
      P_el and temperature columns are float columns too: None stands for an entry
      that is NaN or ±inf. */
  datatype StepRecord = StepRecord(
    day: int,
    error: real,
    eProbe: real,
    eFlux: real,
    deltaE: real,
    eInout: real,
    qProbe: Option<real>,
    eStorage: Option<real>,
    wElRow: seq<Option<real>>,
    tempRow: seq<Option<real>>)

  /** A row of finite values as a float column, in which None stands for NaN or ±inf. */
  function Lift(xs: seq<real>): (r: seq<Option<real>>)
    ensures |r| == |xs| && forall i :: 0 <= i < |xs| ==> r[i] == Some(xs[i])
  {
    seq(|xs|, i requires 0 <= i < |xs| => Some(xs[i]))
  }

  /** The record of one step from its energies in J: all in kWh, the error being the
      sum of the three terms and E_inout the ground change plus the probe energy. */
  function MakeRecord(day: int, eGround: real, eFlux: real, eProbe: real, wel: seq<Option<real>>, temps: seq<Option<real>>)
    : (r: StepRecord)
    ensures r.day == day && r.wElRow == wel && r.tempRow == temps
    ensures r.deltaE * KWh == eGround && r.eFlux * KWh == eFlux && r.eProbe * KWh == eProbe
    ensures r.error == r.deltaE + r.eFlux + r.eProbe
    ensures r.eInout == r.deltaE + r.eProbe
    ensures r.qProbe.None? && r.eStorage.None?
  {
    StepRecord(day, (eGround + eFlux + eProbe) / KWh, eProbe / KWh, eFlux / KWh, eGround / KWh,
               (eGround + eProbe) / KWh, None, None, wel, temps)
  }

  /** Why the loop stops early: `not Q_dict` (a missing or zero demand) raises
      ValueError; a P_el division by zero raises ZeroDivisionError. */
  datatype RunError = MissingDemand(step: int) | PowerFailed(step: int)

  /** The solver returns a value for every degree of freedom. */
  ghost predicate SolveKeepsSize(fem: Fem)
  {
    forall s: seq<real>, q: real :: |fem.solve(s, q)| == fem.dofs
  }

  /** Everything the loop reads besides the profile. */
  datatype RunEnv = RunEnv(
    fem: Fem,
    setup: Setup,
    dt: real,
    locations: seq<Point>,
    pipeRadius: real,
    tHot: real,
    gamma: real,
    init: seq<real>)

  /** `Q_dict` is truthy: present and not 0.0. */
  predicate Present(profile: map<int, real>, t: int)
  {
    t in profile && profile[t] != 0.0
  }

  predicate DemandsUpTo(profile: map<int, real>, k: int)
  {
    forall t :: 1 <= t <= k ==> Present(profile, t)
  }

  /** The demand of a step known to have a truthy one. */
  function Demand(profile: map<int, real>, t: int): (d: real)
    requires 1 <= t && DemandsUpTo(profile, t)
    ensures t in profile && d == profile[t] && d != 0.0
  {
    assert Present(profile, t);
    profile[t]
  }

  /** `Q = Q_dict * dt / heatCapacityDensity`: the source magnitude whose ρc-weighted
      value is the step's energy demand. */
  function Source(demand: real, dt: real, rhoC: real): (q: real)
    requires rhoC != 0.0
    ensures q * rhoC == demand * dt
  {
    demand * dt / rhoC
  }

  /** The temperature field after k steps, starting from T_0 everywhere. */
  function StateAfter(env: RunEnv, profile: map<int, real>, k: nat): seq<real>
    requires env.setup.heatCapacity != 0.0 && DemandsUpTo(profile, k)
  {
    if k == 0 then env.init
    else env.fem.solve(StateAfter(env, profile, k - 1), Source(Demand(profile, k), env.dt, env.setup.heatCapacity))
  }

  /** `Temp_EWS_row` of step t: the NaN-mean of the four probes of every borehole in
      the field after the step. */
  function StepTemperatures(env: RunEnv, profile: map<int, real>, t: int): (temps: seq<Option<real>>)
    requires env.setup.heatCapacity != 0.0 && 1 <= t && DemandsUpTo(profile, t)
    ensures |temps| == |env.locations|
  {
    FieldTemperatures(env, StateAfter(env, profile, t))
  }

  /** The NaN-mean temperature of the four probes of every borehole in a field. */
  function FieldTemperatures(env: RunEnv, field: seq<real>): (temps: seq<Option<real>>)
    ensures |temps| == |env.locations|
  {
    var samples := SampleAll(env.fem, field, ProbeLayout(env.locations, env.pipeRadius));
    BoreholeTemperatures(samples, |env.locations|)
  }

  /** Probe a field: place the probes, sample them and fill `Temp_EWS_row` and
      `W_el_row`; fails exactly when P_el fails for some borehole. */
  method ProbeField(env: RunEnv, field: seq<real>, demand: real)
    returns (rows: Result<(seq<Option<real>>, seq<real>), Tools.ToolsError>)
    ensures rows.Success? <==> WElRow(demand, FieldTemperatures(env, field), env.tHot, env.dt, env.gamma).Success?
    ensures rows.Success? ==>
      rows.value.0 == FieldTemperatures(env, field)
      && rows.value.1 == WElRow(demand, FieldTemperatures(env, field), env.tHot, env.dt, env.gamma).value
  {
    var points := BuildProbePoints(env.locations, env.pipeRadius);
    var samples := EvalAtPoints(env.fem, field, points);
    rows := FillRows(samples, |env.locations|, demand, env.tHot, env.dt, env.gamma);
  }

  /** The record of step t once its P_el row `wel` is known: the ground energy is the
      drop of the ρc-weighted heat content over the step, the boundary energy Δt times
      the outward flux of the new field, and the probe energy Δt·demand per borehole. */
  function StepRecordOf(env: RunEnv, profile: map<int, real>, t: int, wel: seq<Option<real>>): (r: StepRecord)
    requires env.setup.heatCapacity != 0.0 && 1 <= t && DemandsUpTo(profile, t)
    ensures r.day == t && r.wElRow == wel && r.tempRow == StepTemperatures(env, profile, t)
    ensures r.error == r.deltaE + r.eFlux + r.eProbe && r.eInout == r.deltaE + r.eProbe
    ensures r.eProbe * KWh == env.dt * Demand(profile, t) * |env.locations| as real
    ensures r.qProbe.None? && r.eStorage.None?
  {
    var c := env.setup.heatCapacity;
    var prev := StateAfter(env, profile, t - 1);
    var next := StateAfter(env, profile, t);
    MakeRecord(t,
      env.fem.heatContent(c, prev) - env.fem.heatContent(c, next),
      -env.dt * env.fem.boundaryFlux(env.setup.conductivity, next),
      env.dt * Demand(profile, t) * |env.locations| as real,
      wel, StepTemperatures(env, profile, t))
  }

  /** The record built from the fields before and after step t, the flux of the
      latter and the step's demand is that step's record. */
  lemma StepRecordFromFields(env: RunEnv, profile: map<int, real>, t: int, wel: seq<Option<real>>,
                             before: seq<real>, after: seq<real>, flux: real, demand: real)
    requires env.setup.heatCapacity != 0.0 && 1 <= t && DemandsUpTo(profile, t)
    requires before == StateAfter(env, profile, t - 1) && after == StateAfter(env, profile, t)
    requires flux == env.fem.boundaryFlux(env.setup.conductivity, after)
    requires demand == Demand(profile, t)
    ensures
      var c := env.setup.heatCapacity;
      MakeRecord(t, env.fem.heatContent(c, before) - env.fem.heatContent(c, after), -env.dt * flux,
                 env.dt * demand * |env.locations| as real, wel, StepTemperatures(env, profile, t))
      == StepRecordOf(env, profile, t, wel)
  {
  }

  /** Step t: solve, probe, fill the rows, and form the energy record. The step fails
      exactly when P_el fails for some borehole; otherwise its record is the one
      `StepRecordOf` gives for the row, with one P_el per borehole. */
  function StepSpec(env: RunEnv, profile: map<int, real>, t: int): (r: Result<StepRecord, RunError>)
    requires env.setup.heatCapacity != 0.0 && 1 <= t && DemandsUpTo(profile, t)
    ensures r.Success? <==>
      WElRow(Demand(profile, t), StepTemperatures(env, profile, t), env.tHot, env.dt, env.gamma).Success?
    ensures r.Failure? ==> r.error == PowerFailed(t)
    ensures r.Success? ==>
      r.value == StepRecordOf(env, profile, t, r.value.wElRow) && |r.value.wElRow| == |env.locations|
    ensures r.Success? ==> forall i :: 0 <= i < |r.value.wElRow| ==> r.value.wElRow[i].Some?
  {
    var row := WElRow(Demand(profile, t), StepTemperatures(env, profile, t), env.tHot, env.dt, env.gamma);
    if row.Failure? then Failure(PowerFailed(t)) else Success(StepRecordOf(env, profile, t, Lift(row.value)))
  }

  /** A step that injects heat (positive demand) never fails and draws no power. */
  lemma InjectionStep(env: RunEnv, profile: map<int, real>, t: int)
    requires env.setup.heatCapacity != 0.0 && 1 <= t && DemandsUpTo(profile, t)
    requires Demand(profile, t) > 0.0
    ensures StepSpec(env, profile, t).Success?
    ensures forall i :: 0 <= i < |env.locations| ==> StepSpec(env, profile, t).value.wElRow[i] == Some(0.0)
  {
    var temps := StepTemperatures(env, profile, t);
    var zeros := seq(|temps|, _ => 0.0);
    InjectionNeedsNoPower(Demand(profile, t), temps, env.tHot, env.dt, env.gamma);
    assert WElRow(Demand(profile, t), temps, env.tHot, env.dt, env.gamma) == Success(zeros);
    assert StepSpec(env, profile, t).Success? && StepSpec(env, profile, t).value.wElRow == Lift(zeros);
  }

  /** A run that reaches step n has a truthy demand at every step up to n; on the tiled
      profile, whose keys are 1..years·365, that needs n ≤ years·365. */
  lemma RunNeedsProfileCoverage(years: int, a: real, b: real, cosine: int -> real,
                                simpson: (seq<real>, seq<int>) -> real, n: int)
    requires years >= 1 && n >= 1
    requires DemandsUpTo(PowerProfile.MultiplePowerProfile(years, a, b, cosine, simpson).profile, n)
    ensures n <= years * 365
  {
    PowerProfile.TiledProfileKeys(years, a, b, cosine, simpson);
    assert Present(PowerProfile.MultiplePowerProfile(years, a, b, cosine, simpson).profile, n);
  }

  /** Sum of the recorded E_flux values. */
  function FluxSum(records: seq<StepRecord>): real
  {
    if |records| == 0 then 0.0 else FluxSum(records[..|records| - 1]) + records[|records| - 1].eFlux
  }

  /** Sum of the recorded E_probe values. */
  function ProbeSum(records: seq<StepRecord>): real
  {
    if |records| == 0 then 0.0 else ProbeSum(records[..|records| - 1]) + records[|records| - 1].eProbe
  }

  /** `records` are the records of steps 1..|records|, in order. */
  ghost predicate Logged(env: RunEnv, profile: map<int, real>, records: seq<StepRecord>)
  {
    |records| == 0 ||
    (Logged(env, profile, records[..|records| - 1])
     && env.setup.heatCapacity != 0.0 && DemandsUpTo(profile, |records|)
     && StepSpec(env, profile, |records|) == Success(records[|records| - 1]))
  }

  /** The k-th logged record is the record of step k + 1. */
  lemma {:induction false} LoggedAt(env: RunEnv, profile: map<int, real>, records: seq<StepRecord>, k: int)
    requires Logged(env, profile, records) && 0 <= k < |records|
    ensures env.setup.heatCapacity != 0.0 && DemandsUpTo(profile, k + 1)
    ensures StepSpec(env, profile, k + 1) == Success(records[k])
    decreases |records|
  {
    var init := records[..|records| - 1];
    if k < |init| {
      LoggedAt(env, profile, init, k);
      assert init[k] == records[k];
    }
  }

  function NonNegative(n: int): nat { if n < 0 then 0 else n }

  // ---------------------------------------------------------------------------
  // The time loop
  // ---------------------------------------------------------------------------

  /** The state of `_run_simulation` during the time loop: T and T_n as two distinct
      buffers, the two accumulators and the throttle, and as ghost logs the records
      handed to the HDF5 writer, the steps at which progress.json is written and the
      steps at which a vertex snapshot is taken. */
  class TimeLoop {
    var temperature: array<real>
    var previous: array<real>
    var totalFlux: real
    var probeSum: real
    var lastProgressPct: int
    ghost var records: seq<StepRecord>
    ghost var progress: seq<int>
    ghost var snapshots: seq<int>

    ghost predicate Valid()
      reads this`temperature, this`previous
    {
      temperature != previous && temperature.Length == previous.Length
    }

    /** T is a fresh zero function, T_n starts at T_0 everywhere. */
    constructor (dofs: nat, t0: real)
      ensures Valid() && fresh(temperature) && fresh(previous)
      ensures previous.Length == dofs && previous[..] == seq(dofs, _ => t0)
      ensures records == [] && progress == [] && snapshots == []
    {
      temperature := new real[dofs](_ => 0.0);
      previous := new real[dofs](_ => t0);
      totalFlux, probeSum, lastProgressPct := 0.0, 0.0, -5;
      records, progress, snapshots := [], [], [];
    }

    /** `T_n.x.array[:] = T.x.array[:]`: an element-wise copy, the buffers stay apart. */
    method CopyToPrevious()
      requires Valid()
      modifies previous
      ensures Valid()
      ensures previous[..] == temperature[..]
      ensures temperature[..] == old(temperature[..])
    {
      forall k | 0 <= k < previous.Length {
        previous[k] := temperature[k];
      }
    }

    /** One pass of the loop body after the demand check: solve into T, take the flux,
        probe the boreholes, fill the rows and form the record. Also returns the two
        unscaled energies the accumulators add. */
    method Step(env: RunEnv, profile: map<int, real>, t: int)
      returns (outcome: Result<StepRecord, RunError>, eFlux: real, eProbe: real)
      requires Valid() && previous.Length == env.fem.dofs && SolveKeepsSize(env.fem)
      requires env.setup.heatCapacity != 0.0 && 1 <= t && DemandsUpTo(profile, t)
      requires previous[..] == StateAfter(env, profile, t - 1)
      modifies temperature
      ensures temperature[..] == StateAfter(env, profile, t)
      ensures outcome == StepSpec(env, profile, t)
      ensures outcome.Success? ==> eFlux == outcome.value.eFlux * KWh && eProbe == outcome.value.eProbe * KWh
    {
      var demand := Demand(profile, t);
      var q := Source(demand, env.dt, env.setup.heatCapacity);
      var before := previous[..];
      var solution := env.fem.solve(before, q);
      assert solution == StateAfter(env, profile, t);
      forall k | 0 <= k < temperature.Length {
        temperature[k] := solution[k];
      }
      assert temperature[..] == solution;
      var flux := env.fem.boundaryFlux(env.setup.conductivity, solution);
      var rows := ProbeField(env, solution, demand);
      ghost var spec := WElRow(demand, StepTemperatures(env, profile, t), env.tHot, env.dt, env.gamma);
      if rows.Failure? {
        assert spec.Failure?;
        return Failure(PowerFailed(t)), 0.0, 0.0;
      }
      var (temps, wel) := rows.value;
      assert spec == Success(wel) && temps == StepTemperatures(env, profile, t);
      var c := env.setup.heatCapacity;
      var eGround := env.fem.heatContent(c, before) - env.fem.heatContent(c, solution);
      eFlux := -env.dt * flux;
      eProbe := env.dt * demand * |env.locations| as real;
      outcome := Success(MakeRecord(t, eGround, eFlux, eProbe, Lift(wel), temps));
      StepRecordFromFields(env, profile, t, Lift(wel), before, solution, flux, demand);
    }

    /** The throttled progress write of step t of n: written at the first step, at the
        last one and whenever the percentage has grown by five since the last write. */
    method ReportProgress(n: int, t: int)
      requires 1 <= t && ThrottleAfter(n, t - 1) == Throttle(progress, lastProgressPct)
      modifies this`progress, this`lastProgressPct
      ensures ThrottleAfter(n, t) == Throttle(progress, lastProgressPct)
    {
      if ShouldWrite(t, n, lastProgressPct) {
        progress := progress + [t];
        lastProgressPct := PctOf(t, n);
      }
    }

    /** The loop state after k steps: demands 1..k were truthy, T_n is the field after
        k steps, one record per step, the snapshot days up to k, and the accumulators
        hold the sums of the recorded energies. */
    ghost predicate Accounted(env: RunEnv, profile: map<int, real>, k: nat)
      reads this`previous, this`records, this`snapshots, this`totalFlux, this`probeSum, previous
    {
      env.setup.heatCapacity != 0.0 && DemandsUpTo(profile, k)
      && previous[..] == StateAfter(env, profile, k)
      && |records| == k && Logged(env, profile, records)
      && snapshots == SnapshotsUpTo(k)
      && totalFlux == KWh * FluxSum(records) && probeSum == KWh * ProbeSum(records)
    }

    /** One pass of the loop body after the progress write: stop on a missing or zero
        demand, take step t, stop on a P_el failure, otherwise log the record, copy T
        into T_n, add to the accumulators and take the snapshot of a snapshot day. */
    method Advance(env: RunEnv, profile: map<int, real>, t: int) returns (stop: Option<RunError>)
      requires Valid() && previous.Length == env.fem.dofs && SolveKeepsSize(env.fem)
      requires 1 <= t && Accounted(env, profile, t - 1)
      modifies this`records, this`snapshots, this`totalFlux, this`probeSum, temperature, previous
      ensures Valid()
      ensures stop.None? ==> Accounted(env, profile, t)
      ensures stop.Some? ==>
        Accounted(env, profile, t - 1)
        && (stop.value == MissingDemand(t) <==> !Present(profile, t))
        && (stop.value != MissingDemand(t) ==>
              stop.value == PowerFailed(t) && DemandsUpTo(profile, t) && StepSpec(env, profile, t).Failure?)
    {
      if !(t in profile && profile[t] != 0.0) {
        return Some(MissingDemand(t));
      }
      assert DemandsUpTo(profile, t);
      var step, eFlux, eProbe := Step(env, profile, t);
      if step.Failure? {
        return Some(PowerFailed(t));
      }
      Commit(env, profile, t, step.value, eFlux, eProbe);
      stop := None;
    }

    /** The end of a successful step t: log its record, copy T into T_n, add its
        energies to the accumulators and take the snapshot of a snapshot day. */
    method Commit(env: RunEnv, profile: map<int, real>, t: int, rec: StepRecord, eFlux: real, eProbe: real)
      requires Valid() && 1 <= t && Accounted(env, profile, t - 1) && DemandsUpTo(profile, t)
      requires StepSpec(env, profile, t) == Success(rec)
      requires temperature[..] == StateAfter(env, profile, t)
      requires eFlux == rec.eFlux * KWh && eProbe == rec.eProbe * KWh
      modifies this`records, this`snapshots, this`totalFlux, this`probeSum, previous
      ensures Valid() && Accounted(env, profile, t)
    {
      AppendSums(records, rec);
      assert (records + [rec])[..|records|] == records;
      records := records + [rec];
      CopyToPrevious();
      totalFlux := totalFlux + eFlux;
      probeSum := probeSum + eProbe;
      if IsSnapshotDay(t) {
        snapshots := snapshots + [t];
      }
    }

    /** Before the loop: both accumulators at zero, nothing written or logged yet. */
    method Reset(env: RunEnv, profile: map<int, real>)
      requires env.setup.heatCapacity != 0.0 && previous[..] == env.init
      modifies this`totalFlux, this`probeSum, this`lastProgressPct, this`records, this`progress, this`snapshots
      ensures Accounted(env, profile, 0) && totalFlux == 0.0 && probeSum == 0.0
      ensures progress == [] && lastProgressPct == -5
    {
      totalFlux := 0.0;
      probeSum := 0.0;
      lastProgressPct := -5;
      records, progress, snapshots := [], [], [];
    }

    /** One pass of the loop body: the throttled progress write, then the step. */
    method Tick(env: RunEnv, profile: map<int, real>, n: int, t: int) returns (stop: Option<RunError>)
      requires Valid() && previous.Length == env.fem.dofs && SolveKeepsSize(env.fem)
      requires 1 <= t && Accounted(env, profile, t - 1)
      requires ThrottleAfter(n, t - 1) == Throttle(progress, lastProgressPct)
      modifies this`totalFlux, this`probeSum, this`lastProgressPct, this`records, this`progress, this`snapshots
      modifies temperature, previous
      ensures Valid()
      ensures ThrottleAfter(n, t) == Throttle(progress, lastProgressPct)
      ensures stop.None? ==> Accounted(env, profile, t)
      ensures stop.Some? ==>
        stop.value.step == t && Accounted(env, profile, t - 1)
        && (stop.value.MissingDemand? <==> !Present(profile, t))
        && (stop.value.PowerFailed? ==> DemandsUpTo(profile, t) && StepSpec(env, profile, t).Failure?)
    {
      ReportProgress(n, t);
      stop := Advance(env, profile, t);
    }

    /** The `while time_step <= time_steps` loop of a run of n steps. It stops at the
        first step without a truthy demand or with a failing P_el; otherwise it accounts
        for every step, writing progress at the throttled steps. */
    method Steps(env: RunEnv, profile: map<int, real>, n: int) returns (stop: Option<RunError>)
      requires Valid() && previous.Length == env.fem.dofs && SolveKeepsSize(env.fem)
      requires Accounted(env, profile, 0) && progress == [] && lastProgressPct == -5
      modifies this`totalFlux, this`probeSum, this`lastProgressPct, this`records, this`progress, this`snapshots
      modifies temperature, previous
      ensures Valid()
      ensures stop.None? ==>
        Accounted(env, profile, NonNegative(n)) && ThrottleAfter(n, NonNegative(n)).writes == progress
      ensures stop.Some? ==>
        var t := stop.value.step;
        1 <= t <= n && Accounted(env, profile, t - 1)
        && progress == ThrottleAfter(n, t).writes
        && (stop.value.MissingDemand? <==> !Present(profile, t))
        && (stop.value.PowerFailed? ==> DemandsUpTo(profile, t) && StepSpec(env, profile, t).Failure?)
    {
      var t := 1;
      while t <= n
        invariant 1 <= t <= NonNegative(n) + 1
        invariant Valid() && previous.Length == env.fem.dofs
        invariant Accounted(env, profile, t - 1)
        invariant ThrottleAfter(n, t - 1) == Throttle(progress, lastProgressPct)
      {
        stop := Tick(env, profile, n, t);
        if stop.Some? {
          assert stop.value.step == t <= n;
          return;
        }
        t := t + 1;
      }
      assert t - 1 == NonNegative(n);
      assert Accounted(env, profile, NonNegative(n));
      stop := None;
    }

    /** The progress write after the loop, at 100 %. */
    method FinalProgress(env: RunEnv, profile: map<int, real>, n: int)
      requires Accounted(env, profile, NonNegative(n))
      modifies this`progress
      ensures progress == old(progress) + [n]
      ensures Accounted(env, profile, NonNegative(n))
    {
      progress := progress + [n];
    }

    /** A run of n steps: the loop, then the final progress write. Every step's record
        is the one `StepSpec` describes, T_n ends as the field after n steps, the
        accumulators hold the sums of the recorded energies, snapshots are the snapshot
        days up to n and progress was written at the throttled steps and once more at
        the end; a run stops at the first step without a truthy demand or with a
        failing P_el. */
    method Run(env: RunEnv, profile: map<int, real>, n: int) returns (outcome: Result<(), RunError>)
      requires Valid() && previous.Length == env.fem.dofs && SolveKeepsSize(env.fem)
      requires env.setup.heatCapacity != 0.0
      requires previous[..] == env.init
      modifies this`totalFlux, this`probeSum, this`lastProgressPct, this`records, this`progress, this`snapshots
      modifies temperature, previous
      ensures Valid() && temperature == old(temperature) && previous == old(previous)
      ensures outcome.Success? ==>
        Accounted(env, profile, NonNegative(n)) && DemandsUpTo(profile, n)
        && progress == ThrottleAfter(n, NonNegative(n)).writes + [n]
      ensures outcome.Failure? ==>
        var t := outcome.error.step;
        1 <= t <= n && Accounted(env, profile, t - 1)
        && progress == ThrottleAfter(n, t).writes
        && (outcome.error.MissingDemand? <==> !Present(profile, t))
        && (outcome.error.PowerFailed? ==> DemandsUpTo(profile, t) && StepSpec(env, profile, t).Failure?)
    {
      Reset(env, profile);
      var stop := Steps(env, profile, n);
      if stop.Some? {
        return Failure(stop.value);
      }
      FinalProgress(env, profile, n);
      outcome := Success(());
    }
  }

  lemma AppendSums(records: seq<StepRecord>, r: StepRecord)
    ensures FluxSum(records + [r]) == FluxSum(records) + r.eFlux
    ensures ProbeSum(records + [r]) == ProbeSum(records) + r.eProbe
  {
    assert (records + [r])[..|records|] == records;
  }
}
