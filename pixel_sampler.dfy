/**
 * The pixel sampler (src/sampler/pixel_sampler.rs) with the `Sampler` default methods
 * it inherits (src/sampler/sampler.rs), as an object whose fields its methods update.
 * Each method is proved to leave the fields as the matching function of `Samplers`
 * says, from the fields it found.
 */
module PixelSamplers {
  import opened Options
  import opened Floats
  import opened Vectors
  import opened Samplers

  class PixelSampler {
    var array1DOffset: nat
    var array2DOffset: nat
    var currentPixel: Point2
    var currentPixelSampleIdx: nat
    var samples1DArraySizes: seq<nat>
    var samples2DArraySizes: seq<nat>
    var sampleArray1D: seq<seq<Float>>
    var sampleArray2D: seq<seq<Point2>>
    var samplesPerPixel: nat
    var samples1D: seq<seq<Float>>
    var samples2D: seq<seq<Point2>>
    var current1DDimension: nat
    var current2DDimension: nat

    /** The fields, as one value */
    function State(): SamplerState
      reads this
    {
      SamplerState(array1DOffset, array2DOffset, currentPixel, currentPixelSampleIdx,
        samples1DArraySizes, samples2DArraySizes, sampleArray1D, sampleArray2D, samplesPerPixel,
        samples1D, samples2D, current1DDimension, current2DDimension)
    }

    /** `init`: the generator's seeding is not modelled */
    constructor Init(samplesPerPixel: nat, nSampledDimensions: nat)
      ensures State() == Samplers.Init(samplesPerPixel, nSampledDimensions)
      ensures Inv(State()) && ArraysSized(State())
    {
      array1DOffset := 0;
      array2DOffset := 0;
      currentPixel := Origin2;
      currentPixelSampleIdx := 0;
      samples1DArraySizes := [];
      samples2DArraySizes := [];
      sampleArray1D := [];
      sampleArray2D := [];
      this.samplesPerPixel := samplesPerPixel;
      samples1D := seq(nSampledDimensions, _ => seq(samplesPerPixel, _ => Zero));
      samples2D := seq(nSampledDimensions, _ => seq(samplesPerPixel, _ => Origin2));
      current1DDimension := 0;
      current2DDimension := 0;
    }

    function Array1DOffset(): nat reads this { array1DOffset }

    function Array2DOffset(): nat reads this { array2DOffset }

    function CurrentPixel(): Point2 reads this { currentPixel }

    function CurrentPixelSampleIdx(): nat reads this { currentPixelSampleIdx }

    function SamplesPerPixel(): nat reads this { samplesPerPixel }

    method SetArray1DOffset(other: nat)
      modifies this
      ensures State() == old(State()).(array1DOffset := other)
    {
      array1DOffset := other;
    }

    method SetArray2DOffset(other: nat)
      modifies this
      ensures State() == old(State()).(array2DOffset := other)
    {
      array2DOffset := other;
    }

    method SetCurrentPixel(other: Point2)
      modifies this
      ensures State() == old(State()).(currentPixel := other)
    {
      currentPixel := other;
    }

    method SetCurrentPixelSampleIdx(other: nat)
      modifies this
      ensures State() == old(State()).(currentPixelSampleIdx := other)
    {
      currentPixelSampleIdx := other;
    }

    method SetSamplesPerPixel(other: nat)
      modifies this
      ensures State() == old(State()).(samplesPerPixel := other)
    {
      samplesPerPixel := other;
    }

    /** `start_pixel`, through the setters */
    method StartPixel(p: Point2)
      modifies this
      ensures State() == Samplers.StartPixel(old(State()), p)
    {
      SetCurrentPixel(p);
      SetCurrentPixelSampleIdx(0);
      SetArray1DOffset(0);
      SetArray2DOffset(0);
    }

    /** `request_1d_array`: both vectors grow by one entry */
    method Request1DArray(n: nat)
      modifies this
      ensures State() == Samplers.Request1DArray(old(State()), n)
    {
      samples1DArraySizes := samples1DArraySizes + [n];
      var newSamples := seq(n * samplesPerPixel, _ => Zero);
      sampleArray1D := sampleArray1D + [newSamples];
    }

    /** `request_2d_array` */
    method Request2DArray(n: nat)
      modifies this
      ensures State() == Samplers.Request2DArray(old(State()), n)
    {
      samples2DArraySizes := samples2DArraySizes + [n];
      var newSamples := seq(n * samplesPerPixel, _ => Origin2);
      sampleArray2D := sampleArray2D + [newSamples];
    }

    /** `get_1d_array` as written, reading the array before the old offset */
    method Get1DArray(n: nat) returns (out: Outcome<Option<seq<Float>>>)
      modifies this
      ensures out == ValueOf(Samplers.Get1DArray(old(State()), n))
      ensures out.Returned? ==> State() == Samplers.Get1DArray(old(State()), n).value.state
    {
      if array1DOffset == |sampleArray1D| {
        return Returned(None);
      }
      var offset := array1DOffset;
      SetArray1DOffset(array1DOffset + 1);
      if offset == 0 || offset - 1 >= |sampleArray1D| {
        return Panicked;
      }
      var idx := currentPixelSampleIdx * n;
      var arr := sampleArray1D[offset - 1];
      out := Returned(if idx + n <= |arr| then Some(arr[idx..idx + n]) else None);
    }

    /** `get_2d_array` as written, ending on the 1D offset and count */
    method Get2DArray(n: nat) returns (out: Outcome<Option<seq<Point2>>>)
      modifies this
      ensures out == ValueOf(Samplers.Get2DArray(old(State()), n))
      ensures out.Returned? ==> State() == Samplers.Get2DArray(old(State()), n).value.state
    {
      if array1DOffset == |sampleArray1D| {
        return Returned(None);
      }
      var offset := array2DOffset;
      SetArray2DOffset(array2DOffset + 1);
      if offset == 0 || offset - 1 >= |sampleArray2D| {
        return Panicked;
      }
      var idx := currentPixelSampleIdx * n;
      var arr := sampleArray2D[offset - 1];
      out := Returned(if idx + n <= |arr| then Some(arr[idx..idx + n]) else None);
    }

    /** `default_start_next_sample`, through the setters */
    method DefaultStartNextSample() returns (more: bool)
      modifies this
      ensures Drawn(State(), more) == Samplers.DefaultStartNextSample(old(State()))
    {
      SetArray1DOffset(0);
      SetArray2DOffset(0);
      SetCurrentPixelSampleIdx(currentPixelSampleIdx + 1);
      more := currentPixelSampleIdx < samplesPerPixel;
    }

    /** `default_set_sample_number`, through the setters */
    method DefaultSetSampleNumber(sampleNum: nat) returns (more: bool)
      modifies this
      ensures Drawn(State(), more) == Samplers.DefaultSetSampleNumber(old(State()), sampleNum)
    {
      SetArray1DOffset(0);
      SetArray2DOffset(0);
      SetCurrentPixelSampleIdx(sampleNum);
      more := currentPixelSampleIdx < samplesPerPixel;
    }

    /** `start_next_sample` */
    method StartNextSample() returns (more: bool)
      modifies this
      ensures Drawn(State(), more) == Samplers.StartNextSample(old(State()))
    {
      current1DDimension := 0;
      current2DDimension := 0;
      more := DefaultStartNextSample();
    }

    /** `set_sample_number` */
    method SetSampleNumber(sampleNum: nat) returns (more: bool)
      modifies this
      ensures Drawn(State(), more) == Samplers.SetSampleNumber(old(State()), sampleNum)
    {
      current1DDimension := 0;
      current2DDimension := 0;
      more := DefaultSetSampleNumber(sampleNum);
    }

    /** `get_1d`; `draw` is what the generator would return */
    method Get1D(draw: Float) returns (out: Outcome<Float>)
      modifies this
      ensures out == ValueOf(Samplers.Get1D(old(State()), draw))
      ensures out.Returned? ==> State() == Samplers.Get1D(old(State()), draw).value.state
    {
      if current1DDimension < |samples1D| {
        current1DDimension := current1DDimension + 1;
        var row := samples1D[current1DDimension - 1];
        if currentPixelSampleIdx >= |row| {
          return Panicked;
        }
        return Returned(row[currentPixelSampleIdx]);
      }
      return Returned(draw);
    }

    /** `get_2d`; `draw` is the pair the generator would return */
    method Get2D(draw: Point2) returns (out: Outcome<Point2>)
      modifies this
      ensures out == ValueOf(Samplers.Get2D(old(State()), draw))
      ensures out.Returned? ==> State() == Samplers.Get2D(old(State()), draw).value.state
    {
      if current2DDimension < |samples2D| {
        current2DDimension := current2DDimension + 1;
        var row := samples2D[current2DDimension - 1];
        if currentPixelSampleIdx >= |row| {
          return Panicked;
        }
        return Returned(row[currentPixelSampleIdx]);
      }
      return Returned(draw);
    }

    /** `get_camera_sample`: the film draw, then the time, then the lens draw */
    method GetCameraSample(pRaster: Point2, film: Point2, time: Float, lens: Point2) returns (out: Outcome<CameraSample>)
      modifies this
      ensures out == ValueOf(Samplers.GetCameraSample(old(State()), pRaster, film, time, lens))
      ensures out.Returned? ==> State() == Samplers.GetCameraSample(old(State()), pRaster, film, time, lens).value.state
    {
      var a := Get2D(film);
      if a.Panicked? {
        return Panicked;
      }
      var pFilm := Add2(pRaster, a.value);
      var t := Get1D(time);
      if t.Panicked? {
        return Panicked;
      }
      var pLens := Get2D(lens);
      if pLens.Panicked? {
        return Panicked;
      }
      out := Returned(CameraSample(V2(pFilm.x, pFilm.y), t.value, pLens.value));
    }
  }
}
