/**
 * The sample bookkeeping of the pixel sampler, as functions on its fields: the
 * default methods of the `Sampler` trait (src/sampler/sampler.rs) and the methods
 * `PixelSampler` supplies (src/sampler/pixel_sampler.rs). A state records the
 * current pixel and sample, the offsets that hand out the requested sample arrays,
 * the precomputed per-dimension sample rows and the counters into them.
 *
 * The random number generator is not modelled: each draw the sampler would take
 * from it is a parameter of the operation that takes it.
 */
module Samplers {
  import opened Options
  import opened Floats
  import opened Vectors

  datatype SamplerState = SamplerState(
    array1DOffset: nat, array2DOffset: nat,
    currentPixel: Point2, currentPixelSampleIdx: nat,
    samples1DArraySizes: seq<nat>, samples2DArraySizes: seq<nat>,
    sampleArray1D: seq<seq<Float>>, sampleArray2D: seq<seq<Point2>>,
    samplesPerPixel: nat,
    samples1D: seq<seq<Float>>, samples2D: seq<seq<Point2>>,
    current1DDimension: nat, current2DDimension: nat)

  /** A value handed out by the sampler, with the state it leaves behind */
  datatype Drawn<T> = Drawn(state: SamplerState, value: T)

  /** What the camera needs for one ray: a film position, a time and a lens position */
  datatype CameraSample = CameraSample(pFilm: Point2, time: Float, pLens: Point2)

  /** The value of an operation that returned, forgetting the state */
  function ValueOf<T>(r: Outcome<Drawn<T>>): (v: Outcome<T>)
    ensures v.Panicked? <==> r.Panicked?
    ensures r.Returned? ==> v.value == r.value.value
  {
    if r.Panicked? then Panicked else Returned(r.value.value)
  }

  /**
   * The dimension counters never run past the precomputed rows, and every requested
   * array has its requested size recorded beside it.
   */
  predicate Inv(s: SamplerState) {
    s.current1DDimension <= |s.samples1D| && s.current2DDimension <= |s.samples2D| &&
    |s.samples1DArraySizes| == |s.sampleArray1D| && |s.samples2DArraySizes| == |s.sampleArray2D|
  }

  /** Every requested array holds its requested count of samples for each sample of a pixel */
  predicate ArraysSized(s: SamplerState)
    requires Inv(s)
  {
    (forall i :: 0 <= i < |s.sampleArray1D| ==> |s.sampleArray1D[i]| == s.samples1DArraySizes[i] * s.samplesPerPixel) &&
    (forall i :: 0 <= i < |s.sampleArray2D| ==> |s.sampleArray2D[i]| == s.samples2DArraySizes[i] * s.samplesPerPixel)
  }

  /** Every precomputed row has an entry for the current sample, so no getter panics */
  predicate RowsCover(s: SamplerState) {
    (forall d :: 0 <= d < |s.samples1D| ==> s.currentPixelSampleIdx < |s.samples1D[d]|) &&
    (forall d :: 0 <= d < |s.samples2D| ==> s.currentPixelSampleIdx < |s.samples2D[d]|)
  }

  /**
   * `PixelSampler::init`: `n` rows of zero samples, each as long as a pixel has
   * samples, for each of 1D and 2D; no arrays; every counter, offset and index zero.
   */
  function Init(samplesPerPixel: nat, nSampledDimensions: nat): SamplerState {
    SamplerState(0, 0, Origin2, 0, [], [], [], [], samplesPerPixel,
      seq(nSampledDimensions, _ => seq(samplesPerPixel, _ => Zero)),
      seq(nSampledDimensions, _ => seq(samplesPerPixel, _ => Origin2)),
      0, 0)
  }

  /** `start_pixel`: the pixel becomes current, at its first sample, with both array offsets rewound */
  function StartPixel(s: SamplerState, p: Point2): SamplerState {
    s.(currentPixel := p, currentPixelSampleIdx := 0, array1DOffset := 0, array2DOffset := 0)
  }

  /** `request_1d_array`: the count is recorded and an array of zeros is added for all samples of a pixel */
  function Request1DArray(s: SamplerState, n: nat): SamplerState {
    s.(samples1DArraySizes := s.samples1DArraySizes + [n],
       sampleArray1D := s.sampleArray1D + [seq(n * s.samplesPerPixel, _ => Zero)])
  }

  /** `request_2d_array`, the same with 2D samples */
  function Request2DArray(s: SamplerState, n: nat): SamplerState {
    s.(samples2DArraySizes := s.samples2DArraySizes + [n],
       sampleArray2D := s.sampleArray2D + [seq(n * s.samplesPerPixel, _ => Origin2)])
  }

  /** `round_count`: every count is accepted as it is */
  function RoundCount(n: nat): nat { n }

  /**
   * `get_1d_array` as written: nothing once the offset has reached the number of
   * arrays; otherwise the offset moves on and the array read is the one BEFORE the
   * old offset, so the subtraction underflows (and the program panics) when the old
   * offset is 0, as it is after `start_pixel`. The slice for the current sample is
   * returned when it lies inside that array.
   */
  function Get1DArray(s: SamplerState, n: nat): Outcome<Drawn<Option<seq<Float>>>> {
    if s.array1DOffset == |s.sampleArray1D| then Returned(Drawn(s, None))
    else if s.array1DOffset == 0 || s.array1DOffset - 1 >= |s.sampleArray1D| then Panicked
    else
      var t := s.(array1DOffset := s.array1DOffset + 1);
      var idx := s.currentPixelSampleIdx * n;
      var arr := s.sampleArray1D[s.array1DOffset - 1];
      Returned(Drawn(t, if idx + n <= |arr| then Some(arr[idx..idx + n]) else None))
  }

  /**
   * `get_2d_array` as written: the same, except that the test that ends the arrays
   * looks at the 1D offset and the number of 1D arrays, while the offset advanced
   * and the array read are the 2D ones.
   */
  function Get2DArray(s: SamplerState, n: nat): Outcome<Drawn<Option<seq<Point2>>>> {
    if s.array1DOffset == |s.sampleArray1D| then Returned(Drawn(s, None))
    else if s.array2DOffset == 0 || s.array2DOffset - 1 >= |s.sampleArray2D| then Panicked
    else
      var t := s.(array2DOffset := s.array2DOffset + 1);
      var idx := s.currentPixelSampleIdx * n;
      var arr := s.sampleArray2D[s.array2DOffset - 1];
      Returned(Drawn(t, if idx + n <= |arr| then Some(arr[idx..idx + n]) else None))
  }

  /** `default_start_next_sample`: offsets rewound, on to the next sample, and whether the pixel has it */
  function DefaultStartNextSample(s: SamplerState): Drawn<bool> {
    var t := s.(array1DOffset := 0, array2DOffset := 0, currentPixelSampleIdx := s.currentPixelSampleIdx + 1);
    Drawn(t, t.currentPixelSampleIdx < t.samplesPerPixel)
  }

  /** `default_set_sample_number`: offsets rewound, the given sample current, and whether the pixel has it */
  function DefaultSetSampleNumber(s: SamplerState, sampleNum: nat): Drawn<bool> {
    var t := s.(array1DOffset := 0, array2DOffset := 0, currentPixelSampleIdx := sampleNum);
    Drawn(t, t.currentPixelSampleIdx < t.samplesPerPixel)
  }

  /** `PixelSampler::start_next_sample`: the dimension counters restart, then the default update */
  function StartNextSample(s: SamplerState): Drawn<bool> {
    DefaultStartNextSample(s.(current1DDimension := 0, current2DDimension := 0))
  }

  /** `PixelSampler::set_sample_number`: the dimension counters restart, then the default update */
  function SetSampleNumber(s: SamplerState, sampleNum: nat): Drawn<bool> {
    DefaultSetSampleNumber(s.(current1DDimension := 0, current2DDimension := 0), sampleNum)
  }

  /**
   * `PixelSampler::get_1d`: the current sample's entry of the next precomputed row,
   * which panics when the row has no such entry; once the rows are used up, the
   * generator's draw `draw`, with the counter left where it is.
   */
  function Get1D(s: SamplerState, draw: Float): Outcome<Drawn<Float>> {
    if s.current1DDimension < |s.samples1D| then
      var row := s.samples1D[s.current1DDimension];
      if s.currentPixelSampleIdx < |row| then
        Returned(Drawn(s.(current1DDimension := s.current1DDimension + 1), row[s.currentPixelSampleIdx]))
      else Panicked
    else Returned(Drawn(s, draw))
  }

  /** `PixelSampler::get_2d`, the same with the 2D rows; `draw` is the pair of generator draws */
  function Get2D(s: SamplerState, draw: Point2): Outcome<Drawn<Point2>> {
    if s.current2DDimension < |s.samples2D| then
      var row := s.samples2D[s.current2DDimension];
      if s.currentPixelSampleIdx < |row| then
        Returned(Drawn(s.(current2DDimension := s.current2DDimension + 1), row[s.currentPixelSampleIdx]))
      else Panicked
    else Returned(Drawn(s, draw))
  }

  /**
   * `get_camera_sample`: a 2D draw offsets the raster position onto the film, then a
   * 1D draw gives the time and a second 2D draw the lens position.
   */
  function GetCameraSample(s: SamplerState, pRaster: Point2, film: Point2, time: Float, lens: Point2)
    : Outcome<Drawn<CameraSample>>
  {
    match Get2D(s, film)
    case Panicked => Panicked
    case Returned(a) =>
      match Get1D(a.state, time)
      case Panicked => Panicked
      case Returned(b) =>
        match Get2D(b.state, lens)
        case Panicked => Panicked
        case Returned(c) => Returned(Drawn(c.state, CameraSample(Add2(pRaster, a.value), b.value, c.value)))
  }

  /** The operations a renderer can apply to a sampler, with the generator draws they would take */
  datatype Op =
    | StartPixelOp(p: Point2)
    | StartNextSampleOp
    | SetSampleNumberOp(sampleNum: nat)
    | Request1DArrayOp(n: nat)
    | Request2DArrayOp(n: nat)
    | Get1DArrayOp(n: nat)
    | Get2DArrayOp(n: nat)
    | Get1DOp(draw: Float)
    | Get2DOp(draw2: Point2)
    | GetCameraSampleOp(pRaster: Point2, film: Point2, time: Float, lens: Point2)
    | SetArray1DOffsetOp(offset: nat)
    | SetArray2DOffsetOp(offset: nat)
    | SetCurrentPixelOp(pixel: Point2)
    | SetCurrentPixelSampleIdxOp(idx: nat)
    | SetSamplesPerPixelOp(count: nat)

  function Forget<T>(r: Outcome<Drawn<T>>): Outcome<SamplerState> {
    if r.Panicked? then Panicked else Returned(r.value.state)
  }

  /** The state after one operation, or a panic */
  function Apply(s: SamplerState, op: Op): Outcome<SamplerState> {
    match op
    case StartPixelOp(p) => Returned(StartPixel(s, p))
    case StartNextSampleOp => Returned(StartNextSample(s).state)
    case SetSampleNumberOp(k) => Returned(SetSampleNumber(s, k).state)
    case Request1DArrayOp(n) => Returned(Request1DArray(s, n))
    case Request2DArrayOp(n) => Returned(Request2DArray(s, n))
    case Get1DArrayOp(n) => Forget(Get1DArray(s, n))
    case Get2DArrayOp(n) => Forget(Get2DArray(s, n))
    case Get1DOp(d) => Forget(Get1D(s, d))
    case Get2DOp(d) => Forget(Get2D(s, d))
    case GetCameraSampleOp(pr, f, t, l) => Forget(GetCameraSample(s, pr, f, t, l))
    case SetArray1DOffsetOp(k) => Returned(s.(array1DOffset := k))
    case SetArray2DOffsetOp(k) => Returned(s.(array2DOffset := k))
    case SetCurrentPixelOp(p) => Returned(s.(currentPixel := p))
    case SetCurrentPixelSampleIdxOp(k) => Returned(s.(currentPixelSampleIdx := k))
    case SetSamplesPerPixelOp(k) => Returned(s.(samplesPerPixel := k))
  }

  /** The state after a run of operations, in order, or a panic if one of them panics */
  function Run(s: SamplerState, ops: seq<Op>): Outcome<SamplerState> {
    if ops == [] then Returned(s)
    else
      match Run(s, ops[..|ops| - 1])
      case Panicked => Panicked
      case Returned(t) => Apply(t, ops[|ops| - 1])
  }

  /** A fresh sampler keeps the invariant, has its rows as long as a pixel has samples, and no arrays */
  lemma InitFacts(samplesPerPixel: nat, nSampledDimensions: nat)
    ensures var s := Init(samplesPerPixel, nSampledDimensions);
      Inv(s) && ArraysSized(s) && |s.samples1D| == |s.samples2D| == nSampledDimensions &&
      (forall d :: 0 <= d < nSampledDimensions ==> |s.samples1D[d]| == |s.samples2D[d]| == samplesPerPixel) &&
      (samplesPerPixel > 0 ==> RowsCover(s))
  {
  }

  /** Every operation that returns keeps the invariant */
  lemma ApplyKeepsInv(s: SamplerState, op: Op)
    requires Inv(s)
    ensures Apply(s, op).Returned? ==> Inv(Apply(s, op).value)
  {
    if op.GetCameraSampleOp? {
      var r := GetCameraSample(s, op.pRaster, op.film, op.time, op.lens);
      if r.Returned? {
        var a := Get2D(s, op.film).value;
        var b := Get1D(a.state, op.time).value;
        assert Inv(a.state) && Inv(b.state);
      }
    }
  }

  /** Hence every run of operations that returns keeps it */
  lemma {:induction false} RunKeepsInv(s: SamplerState, ops: seq<Op>)
    requires Inv(s)
    ensures Run(s, ops).Returned? ==> Inv(Run(s, ops).value)
  {
    if ops != [] {
      RunKeepsInv(s, ops[..|ops| - 1]);
      var r := Run(s, ops[..|ops| - 1]);
      if r.Returned? {
        ApplyKeepsInv(r.value, ops[|ops| - 1]);
      }
    }
  }

  /** Requesting arrays keeps every array sized for all samples of a pixel */
  lemma RequestKeepsSized(s: SamplerState, n: nat)
    requires Inv(s) && ArraysSized(s)
    ensures Inv(Request1DArray(s, n)) && ArraysSized(Request1DArray(s, n))
    ensures Inv(Request2DArray(s, n)) && ArraysSized(Request2DArray(s, n))
    ensures Request1DArray(s, n).sampleArray2D == s.sampleArray2D
    ensures Request2DArray(s, n).sampleArray1D == s.sampleArray1D
    ensures Request1DArray(s, n).sampleArray1D[..|s.sampleArray1D|] == s.sampleArray1D
    ensures Request2DArray(s, n).sampleArray2D[..|s.sampleArray2D|] == s.sampleArray2D
  {
    var t1, t2 := Request1DArray(s, n), Request2DArray(s, n);
    assert t1.sampleArray1D[..|s.sampleArray1D|] == s.sampleArray1D;
    assert t2.sampleArray2D[..|s.sampleArray2D|] == s.sampleArray2D;
  }

  /** Moving on to the next sample is setting the sample number to one past the current one */
  lemma NextIsSetToSuccessor(s: SamplerState)
    ensures StartNextSample(s) == SetSampleNumber(s, s.currentPixelSampleIdx + 1)
  {
  }

  /** The state after `k` calls of `start_next_sample` */
  function AfterNextSamples(s: SamplerState, k: nat): SamplerState {
    if k == 0 then s else StartNextSample(AfterNextSamples(s, k - 1)).state
  }

  /**
   * After `start_pixel` and `k` calls of `start_next_sample`, sample `k` of the pixel
   * is current, with the offsets rewound; the `k`-th call returned true exactly when
   * `k` is below the number of samples per pixel. So the loop that starts a pixel and
   * goes on while `start_next_sample` returns true makes one pass per sample (at least one).
   */
  lemma {:induction false} SamplesOfPixel(s: SamplerState, p: Point2, k: nat)
    ensures var t := AfterNextSamples(StartPixel(s, p), k);
      t.currentPixelSampleIdx == k && t.currentPixel == p && t.array1DOffset == 0 && t.array2DOffset == 0 &&
      t.samplesPerPixel == s.samplesPerPixel && t.samples1D == s.samples1D && t.samples2D == s.samples2D &&
      t.sampleArray1D == s.sampleArray1D && t.sampleArray2D == s.sampleArray2D
    ensures k > 0 ==> AfterNextSamples(StartPixel(s, p), k).current1DDimension == 0
    ensures k > 0 ==> AfterNextSamples(StartPixel(s, p), k).current2DDimension == 0
    ensures k > 0 ==> (StartNextSample(AfterNextSamples(StartPixel(s, p), k - 1)).value <==> k < s.samplesPerPixel)
  {
    if k > 0 {
      SamplesOfPixel(s, p, k - 1);
    }
  }

  /** `k` successive calls of `get_1d`, the `j`-th taking `draws[j]` if it falls back on the generator */
  function Get1DRun(s: SamplerState, draws: seq<Float>): Outcome<Drawn<seq<Float>>> {
    if draws == [] then Returned(Drawn(s, []))
    else
      match Get1DRun(s, draws[..|draws| - 1])
      case Panicked => Panicked
      case Returned(r) =>
        match Get1D(r.state, draws[|draws| - 1])
        case Panicked => Panicked
        case Returned(x) => Returned(Drawn(x.state, r.value + [x.value]))
  }

  /**
   * Successive `get_1d` calls hand out the current sample's entries of the rows in
   * row order, one row per call, and the generator's draws once the rows are used up;
   * the counter ends at the number of rows used and nothing else changes.
   */
  lemma {:induction false} Get1DRunDraws(s: SamplerState, draws: seq<Float>)
    requires Inv(s) && RowsCover(s)
    ensures Get1DRun(s, draws).Returned?
    ensures var r := Get1DRun(s, draws).value;
      var used := if s.current1DDimension + |draws| < |s.samples1D| then s.current1DDimension + |draws| else |s.samples1D|;
      |r.value| == |draws| && r.state == s.(current1DDimension := used)
    ensures var r := Get1DRun(s, draws).value;
      forall j :: 0 <= j < |draws| ==>
        r.value[j] == (if s.current1DDimension + j < |s.samples1D|
                       then s.samples1D[s.current1DDimension + j][s.currentPixelSampleIdx]
                       else draws[j])
  {
    if draws != [] {
      var init := draws[..|draws| - 1];
      Get1DRunDraws(s, init);
      var r := Get1DRun(s, init).value;
      var x := Get1D(r.state, draws[|draws| - 1]);
      assert x.Returned?;
      var out := Get1DRun(s, draws).value;
      assert out.value == r.value + [x.value.value];
      forall j | 0 <= j < |draws|
        ensures out.value[j] ==
          if s.current1DDimension + j < |s.samples1D| then s.samples1D[s.current1DDimension + j][s.currentPixelSampleIdx]
          else draws[j]
      {
        if j < |init| {
          assert out.value[j] == r.value[j] && draws[j] == init[j];
        }
      }
    }
  }

  /**
   * With two 2D rows and one 1D row left, `get_camera_sample` uses them in order: the
   * first 2D row offsets the raster position, the 1D row gives the time, the second
   * 2D row the lens position; both counters move on and nothing else changes.
   */
  lemma CameraSampleFromRows(s: SamplerState, pRaster: Point2, film: Point2, time: Float, lens: Point2)
    requires RowsCover(s)
    requires s.current2DDimension + 2 <= |s.samples2D| && s.current1DDimension < |s.samples1D|
    ensures GetCameraSample(s, pRaster, film, time, lens).Returned?
    ensures var r := GetCameraSample(s, pRaster, film, time, lens).value;
      var i, d1, d2 := s.currentPixelSampleIdx, s.current1DDimension, s.current2DDimension;
      r.value == CameraSample(Add2(pRaster, s.samples2D[d2][i]), s.samples1D[d1][i], s.samples2D[d2 + 1][i]) &&
      r.state == s.(current1DDimension := d1 + 1, current2DDimension := d2 + 2)
  {
  }

  /** With every row used up, `get_camera_sample` is made of the generator's draws alone */
  lemma CameraSampleFromGenerator(s: SamplerState, pRaster: Point2, film: Point2, time: Float, lens: Point2)
    requires s.current2DDimension >= |s.samples2D| && s.current1DDimension >= |s.samples1D|
    ensures GetCameraSample(s, pRaster, film, time, lens) == Returned(Drawn(s, CameraSample(Add2(pRaster, film), time, lens)))
  {
  }

  /**
   * As written, the first `get_1d_array` after `start_pixel` panics whenever a 1D
   * array has been requested (it reads the array before offset 0), and returns
   * nothing when none has.
   */
  lemma FirstArrayAfterStartPixel(s: SamplerState, p: Point2, n: nat)
    ensures |s.sampleArray1D| > 0 ==> Get1DArray(StartPixel(s, p), n).Panicked?
    ensures |s.sampleArray1D| == 0 ==> Get1DArray(StartPixel(s, p), n) == Returned(Drawn(StartPixel(s, p), None))
  {
  }

  /**
   * As written, `get_2d_array` returns nothing whenever the 1D offset has reached the
   * number of 1D arrays, whatever 2D arrays there are: after `start_pixel` with no 1D
   * array requested, no 2D array is ever handed out.
   */
  lemma Get2DArrayFollows1D(s: SamplerState, n: nat)
    ensures s.array1DOffset == |s.sampleArray1D| ==> Get2DArray(s, n) == Returned(Drawn(s, None))
    ensures s.array1DOffset != |s.sampleArray1D| && s.array2DOffset == 0 ==> Get2DArray(s, n).Panicked?
  {
  }

  /**
   * When `get_1d_array` does hand out an array (the offset is positive and not at the
   * end), it is the array before the offset, and the slice for the current sample.
   */
  lemma Get1DArrayReadsPrevious(s: SamplerState, n: nat)
    requires 0 < s.array1DOffset <= |s.sampleArray1D| - 1
    ensures var r := Get1DArray(s, n);
      var i := s.currentPixelSampleIdx * n;
      r.Returned? && r.value.state == s.(array1DOffset := s.array1DOffset + 1) &&
      (r.value.value.Some? <==> i + n <= |s.sampleArray1D[s.array1DOffset - 1]|) &&
      (r.value.value.Some? ==> r.value.value.value == s.sampleArray1D[s.array1DOffset - 1][i..i + n])
  {
  }
}
