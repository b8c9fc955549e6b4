/** The VRAM governor: the footprint predictor, the stride-256 context search and the engine planner.
    Floating-point numbers are reals. */
module Governor {
  import opened Arith
  import opened LeastSquares
  import opened Wrappers
  import Gguf

  // ---------- prediction ----------

  datatype CalPoint = CalPoint(ctx: nat, layers: nat, measured: real)

  datatype Feasibility = Green | Amber | Red

  const HEADROOM: real := 0.85

  function FullOffload(cal: seq<CalPoint>, blocks: nat): seq<Point> {
    if cal == [] then []
    else (if cal[0].layers >= blocks then [Point(cal[0].ctx as real, cal[0].measured)] else [])
         + FullOffload(cal[1..], blocks)
  }

  function Megabytes(bytes: nat): real {
    bytes as real / 1048576.0
  }

  function Most(a: nat, b: nat): nat { if a >= b then a else b }

  function LayerFraction(layers: nat, blocks: nat): real
    requires blocks > 0
  {
    Least(layers, blocks) as real / blocks as real
  }

  function Footprint(l: Line, weights: real, fraction: real, ctx: real): real {
    weights * fraction + (l.intercept - weights) + l.slope * ctx
  }

  function PredictWith(fit: Option<Line>, fileBytes: nat, blocks: nat, layers: nat, ctx: nat): Option<real>
    requires blocks > 0
  {
    match fit
    case None => None
    case Some(l) => Some(Footprint(l, Megabytes(fileBytes), LayerFraction(layers, blocks), ctx as real))
  }

  function PredictVram(fileBytes: nat, blocks: nat, layers: nat, ctx: nat, cal: seq<CalPoint>): Option<real> {
    if blocks == 0 then None
    else PredictWith(LinearFit(FullOffload(cal, blocks)), fileBytes, blocks, layers, ctx)
  }

  function Feasible(predicted: real, free: real): Feasibility {
    if free <= 0.0 then Red
    else if predicted / free <= HEADROOM then Green
    else if predicted / free <= 1.0 then Amber
    else Red
  }

  lemma {:induction false} FullOffloadPoints(cal: seq<CalPoint>, blocks: nat)
    ensures WholeContexts(FullOffload(cal, blocks))
    ensures forall p :: p in FullOffload(cal, blocks)
                        <==> exists c :: c in cal && c.layers >= blocks && p == Point(c.ctx as real, c.measured)
  {
    if cal == [] {
    } else {
      FullOffloadPoints(cal[1..], blocks);
      var ps := FullOffload(cal, blocks);
      assert cal == [cal[0]] + cal[1..];
      forall p | exists c :: c in cal && c.layers >= blocks && p == Point(c.ctx as real, c.measured)
        ensures p in ps
      {
        var c :| c in cal && c.layers >= blocks && p == Point(c.ctx as real, c.measured);
        assert c == cal[0] || c in cal[1..];
      }
    }
  }

  /** Calibrated means measured at full offload in two contexts, nothing else. */
  lemma {:induction false} CalibratedExactly(fileBytes: nat, blocks: nat, layers: nat, ctx: nat, cal: seq<CalPoint>)
    ensures PredictVram(fileBytes, blocks, layers, ctx, cal).Some? <==>
            blocks > 0
            && exists c, d :: c in cal && d in cal && c.layers >= blocks && d.layers >= blocks && c.ctx != d.ctx
  {
    var ps := FullOffload(cal, blocks);
    FullOffloadPoints(cal, blocks);
    FitExistsExactly(ps);
    if TwoContexts(ps) {
      var i, j :| 0 <= i < j < |ps| && ps[i].x != ps[j].x;
      assert ps[i] in ps && ps[j] in ps;
      var c :| c in cal && c.layers >= blocks && ps[i] == Point(c.ctx as real, c.measured);
      var d :| d in cal && d.layers >= blocks && ps[j] == Point(d.ctx as real, d.measured);
      assert c.ctx != d.ctx;
    }
    forall c, d | c in cal && d in cal && c.layers >= blocks && d.layers >= blocks && c.ctx != d.ctx
      ensures TwoContexts(ps)
    {
      var p, q := Point(c.ctx as real, c.measured), Point(d.ctx as real, d.measured);
      assert p in ps && q in ps;
      var i :| 0 <= i < |ps| && ps[i] == p;
      var j :| 0 <= j < |ps| && ps[j] == q;
      if i < j {
        assert ps[i].x != ps[j].x;
      } else {
        assert j < i && ps[j].x != ps[i].x;
      }
    }
  }

  lemma {:induction false} FullFootprintOnLine(l: Line, fileBytes: nat, blocks: nat, layers: nat, ctx: nat)
    requires layers >= blocks > 0
    ensures PredictWith(Some(l), fileBytes, blocks, layers, ctx).value == l.intercept + l.slope * ctx as real
  {
    SelfQuotient(blocks as real);
    FullFraction(l, Megabytes(fileBytes), LayerFraction(layers, blocks), ctx as real);
  }

  lemma {:induction false} FullFraction(l: Line, weights: real, fraction: real, ctx: real)
    requires fraction == 1.0
    ensures Footprint(l, weights, fraction, ctx) == l.intercept + l.slope * ctx
  {
    assert weights * fraction == weights;
  }

  lemma {:induction false} SelfQuotient(k: real)
    requires k > 0.0
    ensures k / k == 1.0
  {
  }

  lemma {:induction false} MeasuredPointOnLine(blocks: nat, cal: seq<CalPoint>, l: Line, c: CalPoint)
    requires OnLine(FullOffload(cal, blocks), l) && c in cal && c.layers >= blocks
    ensures c.measured == l.intercept + l.slope * c.ctx as real
  {
    FullOffloadPoints(cal, blocks);
    var p := Point(c.ctx as real, c.measured);
    assert p in FullOffload(cal, blocks);
    assert p.y == l.intercept + l.slope * p.x;
  }

  lemma {:induction false} CollinearFit(fileBytes: nat, blocks: nat, layers: nat, ctx: nat, cal: seq<CalPoint>, l: Line)
    requires OnLine(FullOffload(cal, blocks), l)
    requires PredictVram(fileBytes, blocks, layers, ctx, cal).Some?
    ensures blocks > 0
    ensures PredictVram(fileBytes, blocks, layers, ctx, cal) == PredictWith(Some(l), fileBytes, blocks, layers, ctx)
  {
    FitRecoversLine(FullOffload(cal, blocks), LinearFit(FullOffload(cal, blocks)).value, l);
  }

  lemma {:induction false} MeasuredPointPredicted(
    fileBytes: nat, blocks: nat, layers: nat, cal: seq<CalPoint>, l: Line, c: CalPoint)
    requires OnLine(FullOffload(cal, blocks), l) && c in cal && c.layers >= blocks && layers >= blocks > 0
    ensures PredictWith(Some(l), fileBytes, blocks, layers, c.ctx) == Some(c.measured)
  {
    FullFootprintOnLine(l, fileBytes, blocks, layers, c.ctx);
    MeasuredPointOnLine(blocks, cal, l, c);
  }

  /** When the full-offload measurements lie on a line, each of them is predicted exactly. */
  lemma {:induction false} PredictionReproducesMeasurements(
    fileBytes: nat, blocks: nat, layers: nat, cal: seq<CalPoint>, l: Line, c: CalPoint)
    requires OnLine(FullOffload(cal, blocks), l) && c in cal && c.layers >= blocks && layers >= blocks
    requires PredictVram(fileBytes, blocks, layers, c.ctx, cal).Some?
    ensures PredictVram(fileBytes, blocks, layers, c.ctx, cal).value == c.measured
  {
    CollinearFit(fileBytes, blocks, layers, c.ctx, cal, l);
    MeasuredPointPredicted(fileBytes, blocks, layers, cal, l, c);
  }

  lemma {:induction false} FootprintGrowsWithLayers(l: Line, fileBytes: nat, blocks: nat, m: nat, n: nat, ctx: nat)
    requires m <= n && blocks > 0
    ensures PredictWith(Some(l), fileBytes, blocks, m, ctx).value
            <= PredictWith(Some(l), fileBytes, blocks, n, ctx).value
  {
    QuotientMono(Least(m, blocks) as real, Least(n, blocks) as real, blocks as real);
    ScaleMono(Megabytes(fileBytes), LayerFraction(m, blocks), LayerFraction(n, blocks));
  }

  lemma {:induction false} FootprintGrowsWithCtx(l: Line, fileBytes: nat, blocks: nat, layers: nat, c: nat, d: nat)
    requires c <= d && blocks > 0 && l.slope >= 0.0
    ensures PredictWith(Some(l), fileBytes, blocks, layers, c).value
            <= PredictWith(Some(l), fileBytes, blocks, layers, d).value
  {
    ScaleMono(l.slope, c as real, d as real);
  }

  /** Offloading more layers never lowers the prediction. */
  lemma {:induction false} PredictionGrowsWithLayers(
    fileBytes: nat, blocks: nat, m: nat, n: nat, ctx: nat, cal: seq<CalPoint>)
    requires m <= n && PredictVram(fileBytes, blocks, m, ctx, cal).Some?
    ensures PredictVram(fileBytes, blocks, n, ctx, cal).Some?
    ensures PredictVram(fileBytes, blocks, m, ctx, cal).value <= PredictVram(fileBytes, blocks, n, ctx, cal).value
  {
    FootprintGrowsWithLayers(LinearFit(FullOffload(cal, blocks)).value, fileBytes, blocks, m, n, ctx);
  }

  lemma {:induction false} QuotientMono(a: real, b: real, k: real)
    requires a <= b && k > 0.0
    ensures a / k <= b / k
  {
  }

  lemma {:induction false} ScaleMono(w: real, a: real, b: real)
    requires w >= 0.0 && a <= b
    ensures w * a <= w * b
  {
  }

  // ---------- the stride-256 search ----------

  // One probe leaves the upper or the lower part, 256 away from the probe.
  function Search(lo: nat, hi: nat, best: Option<nat>, fits: nat -> bool): Option<nat>
    decreases if lo <= hi then hi - lo + 1 else 0
  {
    if lo > hi then best
    else
      var mid := lo + (hi - lo) / 2;
      if fits(mid) then Search(mid + 256, hi, Some(mid), fits)
      else if mid < 256 then (if lo == 0 then best else Search(lo, 0, best, fits))
      else Search(lo, mid - 256, best, fits)
  }

  ghost predicate DownClosed(fits: nat -> bool) {
    forall c: nat, d: nat | c <= d && fits(d) :: fits(c)
  }

  lemma {:induction false} SearchFindsFitting(lo: nat, hi: nat, best: Option<nat>, fits: nat -> bool)
    requires 256 <= lo
    ensures var r := Search(lo, hi, best, fits);
            r == best || (r.Some? && fits(r.value) && lo <= r.value <= hi)
    decreases if lo <= hi then hi - lo + 1 else 0
  {
    if hi < lo {
    } else {
      var mid := lo + (hi - lo) / 2;
      if fits(mid) {
        SearchFindsFitting(mid + 256, hi, Some(mid), fits);
      } else {
        SearchFindsFitting(lo, mid - 256, best, fits);
      }
    }
  }

  // base is the best context found, or what stands below the range when there is none.
  lemma {:induction false} SearchMissesLittle(lo: nat, hi: nat, best: Option<nat>, fits: nat -> bool, top: nat)
    requires 256 <= lo && DownClosed(fits)
    requires best.Some? ==> lo == best.value + 256
    requires best.None? ==> lo == 256
    requires forall c: nat | c <= top && fits(c) :: c < hi + 256
    ensures var r := Search(lo, hi, best, fits);
            forall c: nat | c <= top && fits(c) :: c < (if r.Some? then r.value else 0) + 511
    decreases if lo <= hi then hi - lo + 1 else 0
  {
    if lo <= hi {
      var mid := lo + (hi - lo) / 2;
      if fits(mid) {
        SearchMissesLittle(mid + 256, hi, Some(mid), fits, top);
      } else {
        SearchMissesLittle(lo, mid - 256, best, fits, top);
      }
    }
  }

  // ---------- the planner ----------

  type ModelInfo = Gguf.ModelInfo

  datatype GpuInfo = GpuInfo(freeMb: nat)

  datatype Prefs = Prefs(ctx: Option<nat>, layers: Option<nat>, cpuMoe: Option<bool>)

  datatype Plan = Plan(
    ctx: nat, layers: nat, cpuMoe: bool, predicted: Option<real>, feasibility: Option<Feasibility>)

  const COLD_START_CTX: nat := 4096

  // the source's `as u32` on a 64-bit count
  function AsU32(n: nat): nat { n % 0x1_0000_0000 }

  function Budget(gpu: GpuInfo): real {
    gpu.freeMb as real * HEADROOM
  }

  function SearchBlocks(model: ModelInfo): nat {
    AsU32(Most(GetOr(model.blockCount, 0), 1))
  }

  function Fits(model: ModelInfo, gpu: GpuInfo, layers: nat, cal: seq<CalPoint>, ctx: nat): bool {
    var p := PredictVram(model.fileBytes, SearchBlocks(model), layers, ctx, cal);
    p.Some? && p.value <= Budget(gpu)
  }

  function LargestFittingCtx(model: ModelInfo, gpu: GpuInfo, layers: nat, cal: seq<CalPoint>): Option<nat> {
    match model.contextLength
    case None => None
    case Some(n) => Search(256, AsU32(n), None, (c: nat) => Fits(model, gpu, layers, cal, c))
  }

  lemma {:induction false} NothingFits(lo: nat, hi: nat, best: Option<nat>, fits: nat -> bool)
    requires 256 <= lo && forall c :: !fits(c)
    ensures Search(lo, hi, best, fits) == best
    decreases if lo <= hi then hi - lo + 1 else 0
  {
    if hi < lo {
    } else {
      NothingFits(lo, lo + (hi - lo) / 2 - 256, best, fits);
    }
  }

  method FindLargestFittingCtx(model: ModelInfo, gpu: GpuInfo, layers: nat, cal: seq<CalPoint>)
    returns (best: Option<nat>)
    ensures best == LargestFittingCtx(model, gpu, layers, cal)
  {
    if model.contextLength.None? {
      return None;
    }
    ghost var fits := (c: nat) => Fits(model, gpu, layers, cal, c);
    var blocks := SearchBlocks(model);
    var lo, hi := 256, AsU32(model.contextLength.value);
    best := None;
    while lo <= hi
      invariant 256 <= lo
      invariant best.None? || PredictVram(model.fileBytes, blocks, layers, 0, cal).Some?
      invariant Search(lo, hi, best, fits) == LargestFittingCtx(model, gpu, layers, cal)
      decreases if lo <= hi then hi - lo + 1 else 0
    {
      var mid := lo + (hi - lo) / 2;
      var p := PredictVram(model.fileBytes, blocks, layers, mid, cal);
      if p.None? {
        NothingFits(lo, hi, best, fits);
        return None;
      }
      if p.value <= Budget(gpu) {
        best := Some(mid);
        lo := mid + 256;
      } else {
        hi := if mid >= 256 then mid - 256 else 0;
      }
    }
  }

  function LayersAndMoe(model: ModelInfo, gpu: GpuInfo, prefs: Prefs): (nat, bool) {
    var blocks := AsU32(GetOr(model.blockCount, 0));
    var all := if blocks > 0 then blocks else 999;
    match prefs.layers
    case Some(n) => (Least(n, all), GetOr(prefs.cpuMoe, false))
    case None =>
      if Megabytes(model.fileBytes) * 1.1 <= gpu.freeMb as real then (all, GetOr(prefs.cpuMoe, false))
      else if model.expertCount >= 2 then (all, true)
      else (0, false)
  }

  function ModelMaxCtx(model: ModelInfo): nat {
    AsU32(GetOr(model.contextLength, COLD_START_CTX))
  }

  // The context and verdict once layers are settled, from the predictor and the search's answer.
  function PlanWith(
    predict: nat -> Option<real>, found: Option<nat>, free: real, maxCtx: nat, prefs: Prefs, layers: nat,
    cpuMoe: bool): Plan
  {
    var ctx :=
      if prefs.ctx.Some? then Least(prefs.ctx.value, maxCtx)
      else if predict(maxCtx).Some? then Least(GetOr(found, COLD_START_CTX), maxCtx)
      else Least(COLD_START_CTX, maxCtx);
    Plan(ctx, layers, cpuMoe, predict(ctx),
         match predict(ctx) case None => None case Some(p) => Some(Feasible(p, free)))
  }

  function PlanBlocks(model: ModelInfo): nat {
    Most(AsU32(GetOr(model.blockCount, 0)), 1)
  }

  function Predictor(model: ModelInfo, blocks: nat, layers: nat, cal: seq<CalPoint>): nat -> Option<real> {
    (c: nat) => PredictVram(model.fileBytes, blocks, layers, c, cal)
  }

  function PlanEngine(model: ModelInfo, gpu: Option<GpuInfo>, prefs: Prefs, cal: seq<CalPoint>): Plan {
    match gpu
    case None => Plan(Least(GetOr(prefs.ctx, COLD_START_CTX), ModelMaxCtx(model)), 0, false, None, None)
    case Some(g) =>
      var (layers, cpuMoe) := LayersAndMoe(model, g, prefs);
      PlanWith(Predictor(model, PlanBlocks(model), layers, cal), LargestFittingCtx(model, g, layers, cal),
               g.freeMb as real, ModelMaxCtx(model), prefs, layers, cpuMoe)
  }

  lemma {:induction false} PlanWithStaysWithin(
    predict: nat -> Option<real>, found: Option<nat>, free: real, maxCtx: nat, prefs: Prefs, layers: nat, cpuMoe: bool)
    ensures PlanWith(predict, found, free, maxCtx, prefs, layers, cpuMoe).ctx <= maxCtx
    ensures PlanWith(predict, found, free, maxCtx, prefs, layers, cpuMoe).layers == layers
  {
  }

  /** No plan exceeds the context the model was built for, nor offloads layers it does not have. */
  lemma {:induction false} PlanStaysWithinModel(
    model: ModelInfo, gpu: Option<GpuInfo>, prefs: Prefs, cal: seq<CalPoint>)
    ensures PlanEngine(model, gpu, prefs, cal).ctx <= ModelMaxCtx(model)
    ensures model.blockCount.Some? && 0 < model.blockCount.value < 0x1_0000_0000
            ==> PlanEngine(model, gpu, prefs, cal).layers <= model.blockCount.value
  {
    if gpu.Some? {
      var (layers, cpuMoe) := LayersAndMoe(model, gpu.value, prefs);
      PlanWithStaysWithin(Predictor(model, PlanBlocks(model), layers, cal),
                          LargestFittingCtx(model, gpu.value, layers, cal),
                          gpu.value.freeMb as real, ModelMaxCtx(model), prefs, layers, cpuMoe);
    }
  }

  // ---------- what a plan says ----------

  // Measured at full offload in two contexts.
  ghost predicate Calibrated(cal: seq<CalPoint>, blocks: nat) {
    exists c, d :: c in cal && d in cal && c.layers >= blocks && d.layers >= blocks && c.ctx != d.ctx
  }

  /** A pinned context is planned up to the maximum of the model, with or without a GPU and whatever was measured;
      without a pin and a calibration it is 4096 up to that maximum. */
  lemma {:induction false} ContextPlanned(model: ModelInfo, gpu: Option<GpuInfo>, prefs: Prefs, cal: seq<CalPoint>)
    ensures var (c, top) := (PlanEngine(model, gpu, prefs, cal).ctx, GetOr(model.contextLength, 4096) % 0x1_0000_0000);
            && c <= top
            && (prefs.ctx.Some? ==> c == if prefs.ctx.value < top then prefs.ctx.value else top)
            && (prefs.ctx.None? && (gpu.None? || !Calibrated(cal, PlanBlocks(model))) ==>
                  c == if 4096 < top then 4096 else top)
  {
    if gpu.Some? {
      var layers := LayersAndMoe(model, gpu.value, prefs).0;
      CalibratedExactly(model.fileBytes, PlanBlocks(model), layers, ModelMaxCtx(model), cal);
    }
  }

  // The weights and a tenth of them fit into what is free.
  predicate WeightsFit(model: ModelInfo, gpu: GpuInfo) {
    model.fileBytes * 11 <= gpu.freeMb * 10 * 1048576
  }

  lemma {:induction false} WeightsFitExactly(model: ModelInfo, gpu: GpuInfo)
    ensures WeightsFit(model, gpu) <==> Megabytes(model.fileBytes) * 1.1 <= gpu.freeMb as real
  {
    var m, b, f := Megabytes(model.fileBytes), model.fileBytes as real, gpu.freeMb as real;
    assert m * 1048576.0 == b;
    assert WeightsFit(model, gpu) <==> b * 11.0 <= f * 10.0 * 1048576.0;
  }

  /** Layers and experts: without a GPU nothing is offloaded. A pinned number of layers is taken up to what there
      is, the preference for the experts with it. Unpinned, all layers go where the weights fit, all but the
      experts where they do not and there are experts, and none otherwise. */
  lemma {:induction false} OffloadPlanned(model: ModelInfo, gpu: Option<GpuInfo>, prefs: Prefs, cal: seq<CalPoint>)
    ensures var (p, blocks) := (PlanEngine(model, gpu, prefs, cal), GetOr(model.blockCount, 0) % 0x1_0000_0000);
            var all := if blocks == 0 then 999 else blocks;
            match gpu
            case None => p.layers == 0 && !p.cpuMoe && p.predicted == None && p.feasibility == None
            case Some(g) =>
              if prefs.layers.Some? then
                && p.layers == (if prefs.layers.value < all then prefs.layers.value else all)
                && (p.cpuMoe <==> prefs.cpuMoe == Some(true))
              else if WeightsFit(model, g) then p.layers == all && (p.cpuMoe <==> prefs.cpuMoe == Some(true))
              else if model.expertCount >= 2 then p.layers == all && p.cpuMoe
              else p.layers == 0 && !p.cpuMoe
  {
    if gpu.Some? {
      WeightsFitExactly(model, gpu.value);
    }
  }

  /** The verdict is about the planned context and layers: Green up to 85 percent of what is free, Amber up to all
      of it, Red beyond and when nothing is free; there is none exactly without a calibration. */
  lemma {:induction false} VerdictExactly(model: ModelInfo, gpu: GpuInfo, prefs: Prefs, cal: seq<CalPoint>)
    ensures var (p, free) := (PlanEngine(model, Some(gpu), prefs, cal), gpu.freeMb as real);
            && p.predicted == PredictVram(model.fileBytes, PlanBlocks(model), p.layers, p.ctx, cal)
            && (p.predicted.Some? <==> Calibrated(cal, PlanBlocks(model)))
            && (p.feasibility.Some? <==> p.predicted.Some?)
            && (p.predicted.Some? ==>
                  && (p.feasibility == Some(Green) <==> gpu.freeMb > 0 && p.predicted.value <= 0.85 * free)
                  && (p.feasibility == Some(Amber)
                      <==> gpu.freeMb > 0 && 0.85 * free < p.predicted.value <= free)
                  && (p.feasibility == Some(Red) <==> gpu.freeMb == 0 || p.predicted.value > free))
  {
    var p := PlanEngine(model, Some(gpu), prefs, cal);
    CalibratedExactly(model.fileBytes, PlanBlocks(model), p.layers, p.ctx, cal);
    if p.predicted.Some? && gpu.freeMb > 0 {
      RatioAtMost(p.predicted.value, gpu.freeMb as real, 0.85);
      RatioAtMost(p.predicted.value, gpu.freeMb as real, 1.0);
    }
  }

  lemma {:induction false} RatioAtMost(p: real, f: real, h: real)
    requires f > 0.0
    ensures p / f <= h <==> p <= h * f
  {
    QuotientTimes(p, f);
    if p <= f * h {
      QuotientAtMost(p, f, h);
    } else if p / f <= h {
      ScaleMono(f, p / f, h);
    }
  }

  // Of the weights, the share of the layers left to the CPU, in MiB.
  function CpuShare(fileBytes: nat, blocks: nat, layers: nat): real
    requires blocks > 0
  {
    (if layers < blocks then blocks - layers else 0) as real * fileBytes as real / (blocks as real * 1048576.0)
  }

  /** What is predicted: the fitted line at the context, less the share of the weights that the layers left to the
      CPU take with them. */
  lemma {:induction false} PredictionExactly(
    fileBytes: nat, blocks: nat, layers: nat, ctx: nat, cal: seq<CalPoint>, l: Line, line: real, p: real)
    requires blocks > 0 && LinearFit(FullOffload(cal, blocks)) == Some(l) && line == l.intercept + l.slope * ctx as real
    requires PredictVram(fileBytes, blocks, layers, ctx, cal) == Some(p)
    ensures p == line - CpuShare(fileBytes, blocks, layers)
  {
    PredictedWith(l, fileBytes, blocks, layers, ctx, CpuShare(fileBytes, blocks, layers), line, p);
  }

  lemma {:induction false} PredictedWith(
    l: Line, fileBytes: nat, blocks: nat, layers: nat, ctx: nat, share: real, line: real, p: real)
    requires blocks > 0 && share == CpuShare(fileBytes, blocks, layers) && line == l.intercept + l.slope * ctx as real
    requires PredictWith(Some(l), fileBytes, blocks, layers, ctx) == Some(p)
    ensures p == line - share
  {
    var weights, fraction := Megabytes(fileBytes), LayerFraction(layers, blocks);
    ShareExactly(fileBytes, blocks, layers, if layers < blocks then blocks - layers else 0, share);
    FootprintLeft(l, weights, fraction, ctx as real, share, line);
  }

  lemma {:induction false} ShareExactly(fileBytes: nat, blocks: nat, layers: nat, left: nat, share: real)
    requires blocks > 0 && left == (if layers < blocks then blocks - layers else 0)
    requires share == CpuShare(fileBytes, blocks, layers)
    ensures share == Megabytes(fileBytes) - Megabytes(fileBytes) * LayerFraction(layers, blocks)
  {
    var fraction := LayerFraction(layers, blocks);
    FractionTimes(layers, blocks, left);
    WeightsLeft(fileBytes, fraction, blocks as real, left as real);
    QuotientIs(left as real * fileBytes as real, blocks as real * 1048576.0,
               Megabytes(fileBytes) - Megabytes(fileBytes) * fraction);
  }

  lemma {:induction false} QuotientIs(a: real, b: real, q: real)
    requires b > 0.0 && q * b == a
    ensures a / b == q
  {
  }

  lemma {:induction false} FractionTimes(layers: nat, blocks: nat, left: nat)
    requires blocks > 0 && left == if layers < blocks then blocks - layers else 0
    ensures LayerFraction(layers, blocks) * blocks as real == blocks as real - left as real
  {
    QuotientTimes(Least(layers, blocks) as real, blocks as real);
  }

  lemma {:induction false} WeightsLeft(fileBytes: nat, fraction: real, blocks: real, left: real)
    requires fraction * blocks == blocks - left
    ensures (Megabytes(fileBytes) - Megabytes(fileBytes) * fraction) * (blocks * 1048576.0) == left * fileBytes as real
  {
    var m := Megabytes(fileBytes);
    var d := m - m * fraction;
    ShareLeft(m, fraction, blocks, left);
    assert d * (blocks * 1048576.0) == d * blocks * 1048576.0;
    MegabytesTimes(fileBytes, left);
  }

  lemma {:induction false} FootprintLeft(l: Line, weights: real, fraction: real, ctx: real, share: real, line: real)
    requires share == weights - weights * fraction && line == l.intercept + l.slope * ctx
    ensures Footprint(l, weights, fraction, ctx) == line - share
  {
  }

  lemma {:induction false} ShareLeft(weights: real, fraction: real, blocks: real, left: real)
    requires fraction * blocks == blocks - left
    ensures (weights - weights * fraction) * blocks == weights * left
  {
    assert (weights - weights * fraction) * blocks == weights * blocks - weights * (fraction * blocks);
  }

  lemma {:induction false} MegabytesTimes(fileBytes: nat, left: real)
    ensures Megabytes(fileBytes) * left * 1048576.0 == left * fileBytes as real
  {
    assert Megabytes(fileBytes) * 1048576.0 == fileBytes as real;
  }

  function Slope(model: ModelInfo, cal: seq<CalPoint>): Option<real> {
    match LinearFit(FullOffload(cal, SearchBlocks(model)))
    case None => None
    case Some(l) => Some(l.slope)
  }

  lemma {:induction false} FitsIsDownClosed(
    model: ModelInfo, gpu: GpuInfo, layers: nat, cal: seq<CalPoint>, c: nat, d: nat)
    requires Slope(model, cal).Some? ==> Slope(model, cal).value >= 0.0
    requires c <= d && Fits(model, gpu, layers, cal, d)
    ensures Fits(model, gpu, layers, cal, c)
  {
    var fit := LinearFit(FullOffload(cal, SearchBlocks(model)));
    FootprintGrowsWithCtx(fit.value, model.fileBytes, SearchBlocks(model), layers, c, d);
  }

  /** A context that is found fits the budget and the model; when the measured slope is not negative,
      the search stops less than 511 tokens short of anything that fits, and finding nothing means
      nothing from 511 tokens up fits. */
  lemma {:induction false} SearchIsNearOptimal(model: ModelInfo, gpu: GpuInfo, layers: nat, cal: seq<CalPoint>)
    requires model.contextLength.Some?
    ensures var (r, top) := (LargestFittingCtx(model, gpu, layers, cal), AsU32(model.contextLength.value));
            && (r.Some? ==> Fits(model, gpu, layers, cal, r.value) && 256 <= r.value <= top)
            && (Slope(model, cal).Some? && Slope(model, cal).value >= 0.0 ==>
                  forall c: nat | c <= top && Fits(model, gpu, layers, cal, c) ::
                    c < (if r.Some? then r.value else 0) + 511)
  {
    var fits := (c: nat) => Fits(model, gpu, layers, cal, c);
    var top := AsU32(model.contextLength.value);
    SearchFindsFitting(256, top, None, fits);
    if Slope(model, cal).Some? && Slope(model, cal).value >= 0.0 {
      forall c: nat, d: nat | c <= d && fits(d) ensures fits(c) {
        FitsIsDownClosed(model, gpu, layers, cal, c, d);
      }
      SearchMissesLittle(256, top, None, fits, top);
      forall c: nat | c <= top && Fits(model, gpu, layers, cal, c)
        ensures c < (if Search(256, top, None, fits).Some? then Search(256, top, None, fits).value else 0) + 511
      {
        assert fits(c);
      }
    }
  }

  lemma {:induction false} BudgetIsGreen(p: real, gpu: GpuInfo)
    requires gpu.freeMb > 0
    ensures p <= Budget(gpu) <==> Feasible(p, gpu.freeMb as real) == Green
  {
    var f := gpu.freeMb as real;
    assert f > 0.0;
    assert p / f * f == p;
    if p <= f * HEADROOM {
      QuotientAtMost(p, f, HEADROOM);
    } else if p / f <= HEADROOM {
      ScaleMono(f, p / f, HEADROOM);
    }
  }

  lemma {:induction false} QuotientAtMost(p: real, f: real, h: real)
    requires f > 0.0 && p <= f * h
    ensures p / f <= h
  {
    QuotientTimes(p, f);
    if p / f > h {
      StrictScale(f, h, p / f);
    }
  }

  lemma {:induction false} StrictScale(f: real, a: real, b: real)
    requires f > 0.0 && a < b
    ensures f * a < f * b
  {
  }

  lemma {:induction false} FoundIsGreen(
    predict: nat -> Option<real>, c: nat, gpu: GpuInfo, maxCtx: nat, prefs: Prefs, layers: nat, cpuMoe: bool)
    requires gpu.freeMb > 0 && prefs.ctx.None? && c <= maxCtx
    requires predict(maxCtx).Some? && predict(c).Some? && predict(c).value <= Budget(gpu)
    ensures var p := PlanWith(predict, Some(c), gpu.freeMb as real, maxCtx, prefs, layers, cpuMoe);
            p.feasibility == Some(Green) && p.ctx == c
  {
    BudgetIsGreen(predict(c).value, gpu);
  }

  lemma {:induction false} NotFoundIsNotGreen(
    predict: nat -> Option<real>, gpu: GpuInfo, maxCtx: nat, prefs: Prefs, layers: nat, cpuMoe: bool)
    requires gpu.freeMb > 0 && prefs.ctx.None? && predict(maxCtx).Some? && predict(maxCtx).value > Budget(gpu)
    requires forall c: nat | 511 <= c <= maxCtx :: predict(c).Some? && predict(c).value > Budget(gpu)
    ensures PlanWith(predict, None, gpu.freeMb as real, maxCtx, prefs, layers, cpuMoe).feasibility != Some(Green)
  {
    var ctx := Least(COLD_START_CTX, maxCtx);
    assert predict(ctx).value > Budget(gpu);
    BudgetIsGreen(predict(ctx).value, gpu);
  }

  lemma {:induction false} PredictorAgrees(model: ModelInfo, gpu: GpuInfo, layers: nat, cal: seq<CalPoint>, c: nat)
    requires SearchBlocks(model) == PlanBlocks(model)
    ensures var p := Predictor(model, PlanBlocks(model), layers, cal);
            && (Fits(model, gpu, layers, cal, c) <==> p(c).Some? && p(c).value <= Budget(gpu))
            && (p(c).Some? <==> Slope(model, cal).Some?)
  {
  }

  lemma {:induction false} SearchNeedsBlocks(model: ModelInfo, gpu: GpuInfo, layers: nat, cal: seq<CalPoint>, c: nat)
    requires Fits(model, gpu, layers, cal, c)
    ensures SearchBlocks(model) == PlanBlocks(model)
  {
  }

  /** A plan whose context came out of the search is Green, with that context. */
  lemma {:induction false} FoundContextIsGreen(model: ModelInfo, gpu: GpuInfo, prefs: Prefs, cal: seq<CalPoint>)
    requires gpu.freeMb > 0 && prefs.ctx.None?
    requires LargestFittingCtx(model, gpu, LayersAndMoe(model, gpu, prefs).0, cal).Some?
    ensures var p := PlanEngine(model, Some(gpu), prefs, cal);
            && p.feasibility == Some(Green)
            && Some(p.ctx) == LargestFittingCtx(model, gpu, LayersAndMoe(model, gpu, prefs).0, cal)
            && p.ctx <= ModelMaxCtx(model)
  {
    var (layers, cpuMoe) := LayersAndMoe(model, gpu, prefs);
    var c := LargestFittingCtx(model, gpu, layers, cal).value;
    SearchIsNearOptimal(model, gpu, layers, cal);
    SearchNeedsBlocks(model, gpu, layers, cal, c);
    PredictorAgrees(model, gpu, layers, cal, c);
    PredictorAgrees(model, gpu, layers, cal, ModelMaxCtx(model));
    FoundIsGreen(Predictor(model, PlanBlocks(model), layers, cal), c, gpu, ModelMaxCtx(model), prefs, layers, cpuMoe);
  }

  lemma {:induction false} FoundStaysFound(lo: nat, hi: nat, best: Option<nat>, fits: nat -> bool)
    requires 256 <= lo && best.Some?
    ensures Search(lo, hi, best, fits).Some?
  {
    SearchFindsFitting(lo, hi, best, fits);
  }

  // The first probe is at most the maximum, so a search without a find rules the maximum out.
  lemma {:induction false} MaximumProbed(top: nat, fits: nat -> bool)
    requires top >= 256 && DownClosed(fits) && Search(256, top, None, fits).None?
    ensures !fits(top)
  {
    var mid := 256 + (top - 256) / 2;
    if fits(mid) {
      FoundStaysFound(mid + 256, top, Some(mid), fits);
    }
  }

  lemma {:induction false} NothingFoundOverBudget(
    model: ModelInfo, gpu: GpuInfo, layers: nat, cal: seq<CalPoint>, c: nat)
    requires model.contextLength.Some? && c <= ModelMaxCtx(model) && SearchBlocks(model) == PlanBlocks(model)
    requires Slope(model, cal).Some? && Slope(model, cal).value >= 0.0 && ModelMaxCtx(model) >= 256
    requires LargestFittingCtx(model, gpu, layers, cal).None?
    ensures var p := Predictor(model, PlanBlocks(model), layers, cal)(c);
            p.Some? && (511 <= c || c == ModelMaxCtx(model) ==> p.value > Budget(gpu))
  {
    SearchIsNearOptimal(model, gpu, layers, cal);
    PredictorAgrees(model, gpu, layers, cal, c);
    var fits := (d: nat) => Fits(model, gpu, layers, cal, d);
    forall d: nat, e: nat | d <= e && fits(e) ensures fits(d) {
      FitsIsDownClosed(model, gpu, layers, cal, d, e);
    }
    MaximumProbed(ModelMaxCtx(model), fits);
  }

  lemma {:induction false} SameBlocks(model: ModelInfo)
    requires GetOr(model.blockCount, 0) < 0x1_0000_0000
    ensures SearchBlocks(model) == PlanBlocks(model)
  {
  }

  /** Where a calibration, if there is one, has no negative slope and the model takes at least 256 tokens, an
      unpinned plan is Green if and only if the search found a context: the cold-start fallback never looks safe
      by mistake. */
  lemma {:induction false} GreenExactlyWhenFound(model: ModelInfo, gpu: GpuInfo, prefs: Prefs, cal: seq<CalPoint>)
    requires gpu.freeMb > 0 && prefs.ctx.None?
    requires model.contextLength.Some? && ModelMaxCtx(model) >= 256
    requires GetOr(model.blockCount, 0) < 0x1_0000_0000
    requires Slope(model, cal).Some? ==> Slope(model, cal).value >= 0.0
    ensures PlanEngine(model, Some(gpu), prefs, cal).feasibility == Some(Green)
            <==> LargestFittingCtx(model, gpu, LayersAndMoe(model, gpu, prefs).0, cal).Some?
  {
    var (layers, cpuMoe) := LayersAndMoe(model, gpu, prefs);
    if LargestFittingCtx(model, gpu, layers, cal).Some? {
      FoundContextIsGreen(model, gpu, prefs, cal);
    } else if Slope(model, cal).None? {
      UncalibratedHasNoVerdict(model, gpu, prefs, cal);
    } else {
      var predict := Predictor(model, PlanBlocks(model), layers, cal);
      SameBlocks(model);
      forall c: nat | c <= ModelMaxCtx(model)
        ensures predict(c).Some? && (511 <= c || c == ModelMaxCtx(model) ==> predict(c).value > Budget(gpu))
      {
        NothingFoundOverBudget(model, gpu, layers, cal, c);
      }
      NotFoundIsNotGreen(predict, gpu, ModelMaxCtx(model), prefs, layers, cpuMoe);
    }
  }

  lemma {:induction false} UncalibratedHasNoVerdict(model: ModelInfo, gpu: GpuInfo, prefs: Prefs, cal: seq<CalPoint>)
    requires GetOr(model.blockCount, 0) < 0x1_0000_0000 && Slope(model, cal).None?
    ensures PlanEngine(model, Some(gpu), prefs, cal).feasibility == None
  {
    SameBlocks(model);
    PredictorAgrees(model, gpu, LayersAndMoe(model, gpu, prefs).0, cal, PlanEngine(model, Some(gpu), prefs, cal).ctx);
  }

  lemma {:induction false} MaximumPlanned(
    predict: nat -> Option<real>, gpu: GpuInfo, maxCtx: nat, prefs: Prefs, layers: nat, cpuMoe: bool)
    requires gpu.freeMb > 0 && prefs.ctx.None? && predict(maxCtx).Some? && maxCtx <= COLD_START_CTX
    ensures var p := PlanWith(predict, None, gpu.freeMb as real, maxCtx, prefs, layers, cpuMoe);
            p.ctx == maxCtx && (p.feasibility == Some(Green) <==> predict(maxCtx).value <= Budget(gpu))
  {
    BudgetIsGreen(predict(maxCtx).value, gpu);
  }

  /** Below 256 tokens, and where the maximum is unknown, the search never finds anything: an unpinned plan takes
      the maximum of the model, 4096 where that is unknown, and is Green if and only if that fits. */
  lemma {:induction false} UnsearchedGreenExactly(model: ModelInfo, gpu: GpuInfo, prefs: Prefs, cal: seq<CalPoint>)
    requires gpu.freeMb > 0 && prefs.ctx.None?
    requires model.contextLength.Some? ==> ModelMaxCtx(model) < 256
    requires GetOr(model.blockCount, 0) < 0x1_0000_0000
    ensures var layers := LayersAndMoe(model, gpu, prefs).0;
            var p := PlanEngine(model, Some(gpu), prefs, cal);
            && LargestFittingCtx(model, gpu, layers, cal).None? && p.ctx == ModelMaxCtx(model)
            && (model.contextLength.None? ==> p.ctx == COLD_START_CTX)
            && (p.feasibility == Some(Green) <==> Fits(model, gpu, layers, cal, ModelMaxCtx(model)))
  {
    var (layers, cpuMoe) := LayersAndMoe(model, gpu, prefs);
    SameBlocks(model);
    PredictorAgrees(model, gpu, layers, cal, ModelMaxCtx(model));
    if Slope(model, cal).None? {
      UncalibratedHasNoVerdict(model, gpu, prefs, cal);
    } else {
      MaximumPlanned(Predictor(model, PlanBlocks(model), layers, cal), gpu, ModelMaxCtx(model), prefs, layers, cpuMoe);
    }
  }

  // A model of one block and no bytes, measured in two contexts at nothing.
  function TinyModel(ctx: Option<nat>): ModelInfo {
    Gguf.ModelInfo([], ctx, Some(1), None, None, None, 0, None, 0)
  }

  const TINY_CAL := [CalPoint(1, 1, 0.0), CalPoint(2, 1, 0.0)]

  lemma {:induction false} TinyPoints(cal: seq<CalPoint>, ps: seq<Point>)
    requires cal == TINY_CAL && ps == FullOffload(cal, 1)
    ensures ps == [Point(1.0, 0.0), Point(2.0, 0.0)]
  {
    assert cal[1..] == [CalPoint(2, 1, 0.0)] && cal[1..][1..] == [];
    assert FullOffload(cal[1..], 1) == [Point(2.0, 0.0)] + [];
  }

  lemma {:induction false} TinyPrediction(cal: seq<CalPoint>, ctx: nat)
    requires cal == TINY_CAL
    ensures PredictVram(0, 1, 1, ctx, cal) == Some(0.0) && LinearFit(FullOffload(cal, 1)) == Some(Line(0.0, 0.0))
  {
    var ps := FullOffload(cal, 1);
    TinyPoints(cal, ps);
    assert cal[0] in cal && cal[1] in cal;
    CalibratedExactly(0, 1, 1, ctx, cal);
    FitRecoversLine(ps, LinearFit(ps).value, Line(0.0, 0.0));
    FullFootprintOnLine(Line(0.0, 0.0), 0, 1, 1, ctx);
  }

  lemma {:induction false} TinyLayers(ctx: Option<nat>, gpu: GpuInfo, prefs: Prefs)
    requires prefs == Prefs(None, None, None)
    ensures LayersAndMoe(TinyModel(ctx), gpu, prefs).0 == 1
  {
  }

  lemma {:induction false} TinyFits(ctx: Option<nat>, gpu: GpuInfo, cal: seq<CalPoint>, c: nat)
    requires cal == TINY_CAL
    ensures Fits(TinyModel(ctx), gpu, 1, cal, c)
  {
    TinyPrediction(cal, c);
    assert SearchBlocks(TinyModel(ctx)) == 1;
  }

  /** The example: a model of fewer than 256 tokens, or of unknown length, whose plan is Green although the search
      found nothing. */
  lemma {:induction false} GreenWithoutFind(ctx: Option<nat>, gpu: GpuInfo, prefs: Prefs, cal: seq<CalPoint>)
    requires (ctx.Some? ==> ctx.value < 256) && gpu.freeMb > 0 && prefs == Prefs(None, None, None) && cal == TINY_CAL
    ensures PlanEngine(TinyModel(ctx), Some(gpu), prefs, cal).feasibility == Some(Green)
    ensures LargestFittingCtx(TinyModel(ctx), gpu, LayersAndMoe(TinyModel(ctx), gpu, prefs).0, cal).None?
  {
    var model := TinyModel(ctx);
    TinyLayers(ctx, gpu, prefs);
    TinyFits(ctx, gpu, cal, ModelMaxCtx(model));
    UnsearchedGreenExactly(model, gpu, prefs, cal);
  }

  // ---------- the bound is exact ----------

  // A search that misses as much as one can: the first probe fits, the second is one too far.
  lemma {:induction false} SearchMissesMost(fits: nat -> bool)
    requires forall c: nat :: fits(c) <==> c <= 1532
    ensures Search(256, 1788, None, fits) == Some(1022)
  {
    assert Search(256, 1788, None, fits) == Search(1278, 1788, Some(1022), fits);
    assert Search(1278, 1788, Some(1022), fits) == Search(1278, 1277, Some(1022), fits);
  }

  // A model of one block and no bytes that takes 1788 tokens, measured at one MiB a token.
  const LINEAR_CAL := [CalPoint(1, 1, 1.0), CalPoint(2, 1, 2.0)]

  lemma {:induction false} LinearPoints(cal: seq<CalPoint>, ps: seq<Point>)
    requires cal == LINEAR_CAL && ps == FullOffload(cal, 1)
    ensures ps == [Point(1.0, 1.0), Point(2.0, 2.0)]
  {
    assert cal[1..] == [CalPoint(2, 1, 2.0)] && cal[1..][1..] == [];
    assert FullOffload(cal[1..], 1) == [Point(2.0, 2.0)] + [];
  }

  lemma {:induction false} LinearPrediction(cal: seq<CalPoint>, ctx: nat)
    requires cal == LINEAR_CAL
    ensures PredictVram(0, 1, 1, ctx, cal) == Some(ctx as real)
  {
    var ps := FullOffload(cal, 1);
    LinearPoints(cal, ps);
    assert cal[0] in cal && cal[1] in cal;
    CalibratedExactly(0, 1, 1, ctx, cal);
    FitRecoversLine(ps, LinearFit(ps).value, Line(0.0, 1.0));
    FullFootprintOnLine(Line(0.0, 1.0), 0, 1, 1, ctx);
  }

  /** No smaller bound would do: here 1532 tokens fit, and the search is content with 510 fewer. */
  lemma {:induction false} BoundIsExact(cal: seq<CalPoint>, gpu: GpuInfo)
    requires cal == LINEAR_CAL && gpu == GpuInfo(1803)
    ensures LargestFittingCtx(TinyModel(Some(1788)), gpu, 1, cal) == Some(1022)
    ensures Fits(TinyModel(Some(1788)), gpu, 1, cal, 1532)
  {
    var model := TinyModel(Some(1788));
    var fits := (c: nat) => Fits(model, gpu, 1, cal, c);
    forall c: nat ensures fits(c) <==> c <= 1532 {
      LinearPrediction(cal, c);
      assert SearchBlocks(model) == 1;
    }
    SearchMissesMost(fits);
    assert fits(1532);
  }
}
