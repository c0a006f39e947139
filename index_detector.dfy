/**
 * The outer function `PICO(cascade, options)` of src/index.js: it destructures
 * the options with their defaults, unpacks the cascade once, makes the memory
 * updater, and returns `detect`, which runs the search on the grayscale image,
 * stores the frame in the memory and clusters everything the memory holds.
 * The detector object here holds what the `detect` closure captures.
 */
module IndexDetector {
  import opened Wrappers
  import opened JsNumbers
  import opened Detections
  import opened CascadeLayout
  import opened IndexCascade
  import opened IndexClassifier
  import IndexSearch
  import Grayscale
  import Memory
  import Clustering

  /** The destructured options. */
  datatype Options = Options(shiftfactor: real, scalefactor: real, initialsize: real,
                             threshold: real, rotation: seq<real>, memory: real)

  /** The `options` object: each key present or absent (undefined). */
  datatype Overrides = Overrides(shiftfactor: Option<real>, scalefactor: Option<real>, initialsize: Option<real>,
                                 threshold: Option<real>, rotation: Option<seq<real>>, memory: Option<real>)

  function Pick<T>(given: Option<T>, default: T): T {
    if given.Some? then given.value else default
  }

  /**
   * `const { shiftfactor = 0.1, scalefactor = 1.1, initialsize = 0.1,
   * threshold = 0.2, rotation = [0], memory = 1 } = options`: a key that is
   * given wins, an absent one takes its default.
   */
  function Destructure(o: Overrides): (r: Options)
    ensures r.shiftfactor == (if o.shiftfactor.Some? then o.shiftfactor.value else 0.1)
    ensures r.scalefactor == (if o.scalefactor.Some? then o.scalefactor.value else 1.1)
    ensures r.initialsize == (if o.initialsize.Some? then o.initialsize.value else 0.1)
    ensures r.threshold == (if o.threshold.Some? then o.threshold.value else 0.2)
    ensures r.rotation == (if o.rotation.Some? then o.rotation.value else [0.0])
    ensures r.memory == (if o.memory.Some? then o.memory.value else 1.0)
  {
    Options(Pick(o.shiftfactor, 0.1), Pick(o.scalefactor, 1.1), Pick(o.initialsize, 0.1),
            Pick(o.threshold, 0.2), Pick(o.rotation, [0.0]), Pick(o.memory, 1.0))
  }

  /** With no key given, the search parameters end the size loop, one angle is tried and one frame is kept. */
  lemma DefaultOptions()
    ensures var d := Destructure(Overrides(None, None, None, None, None, None));
      && d.shiftfactor >= 0.0 && d.scalefactor > 1.0 && d.rotation == [0.0] && Memory.Capacity(d.memory) == 1
  {
  }

  /** `classifier`, the closure `unpackCascade` returns: `classifyRegion` over the decoded cascade. */
  function ClassifierFn(cas: Cascade, tab: Tables): (fn: IndexSearch.ClassifierFn)
    requires cas.WellFormed() && tab.Valid()
    ensures forall r, c, a, s, px, ld :: fn(r, c, a, s, px, ld) == Classify(cas, tab, r, c, a, s, px, ld)
  {
    (r, c, a, s, px, ld) => Classify(cas, tab, r, c, a, s, px, ld)
  }

  /** The search one frame runs: `minsize` from `initialsize` and the square root of the image area. */
  function ScanOf(options: Options, cas: Cascade, tab: Tables, data: seq<byte>, width: nat, height: nat,
                  rootArea: real): (x: IndexSearch.Scan)
    requires cas.WellFormed() && tab.Valid() && |data| % 4 == 0
    ensures x.Valid() <==> options.shiftfactor >= 0.0 && options.scalefactor > 1.0
    ensures x.pixels == Grayscale.LumaImage(data) && x.minsize == IndexSearch.MinSize(options.initialsize, rootArea)
    ensures forall r, c, a, s :: x.clfn(r, c, a, s, x.pixels, x.width) == Classify(cas, tab, r, c, a, s, x.pixels, width)
  {
    IndexSearch.Scan(ClassifierFn(cas, tab), Grayscale.LumaImage(data), width, height, options.shiftfactor,
                     options.scalefactor, IndexSearch.MinSize(options.initialsize, rootArea), options.rotation)
  }

  /** The object `PICO(cascade, options)` builds: what the returned `detect` closure captures. */
  class Detector {
    /** The destructured options. */
    const options: Options
    /** `classifier`: the unpacked cascade, with the integer sine and cosine tables. */
    const cas: Cascade
    const tab: Tables
    /** `memoryUpdater`. */
    const mu: Memory.MemoryUpdater

    ghost predicate Valid()
      reads this, mu
    {
      cas.WellFormed() && tab.Valid() && mu.Valid() && mu.size == options.memory
    }

    constructor(options: Options, cas: Cascade, tab: Tables)
      requires cas.WellFormed() && tab.Valid()
      ensures Valid() && fresh(mu) && mu.frames == []
      ensures this.options == options && this.cas == cas && this.tab == tab
    {
      this.options := options;
      this.cas := cas;
      this.tab := tab;
      mu := new Memory.MemoryUpdater(options.memory);
    }

    /**
     * `detect({data, width, height})`: the search of this frame is stored in
     * the memory, and the truncated cluster representatives of everything
     * the memory holds are returned; with one frame of memory, only this
     * frame's detections are clustered. `rootArea` is `Math.sqrt(width * height)`.
     */
    method Detect(data: seq<byte>, width: nat, height: nat, rootArea: real) returns (dets: seq<Detection>)
      requires Valid() && |data| % 4 == 0
      requires options.shiftfactor >= 0.0 && options.scalefactor > 1.0
      modifies mu
      ensures Valid()
      ensures mu.frames == old(mu.frames) + [IndexSearch.Search(ScanOf(options, cas, tab, data, width, height, rootArea))]
      ensures dets == Clustering.ClusterDetectionsSpec(Memory.Concat(mu.memory), options.threshold, true)
      ensures Memory.Capacity(options.memory) == 1 ==>
        dets == Clustering.ClusterDetectionsSpec(IndexSearch.Search(ScanOf(options, cas, tab, data, width, height, rootArea)),
                                                 options.threshold, true)
    {
      var pixels := Grayscale.ToGrayscale(data, false);
      var x := IndexSearch.Scan(ClassifierFn(cas, tab), pixels, width, height, options.shiftfactor,
                                options.scalefactor, IndexSearch.MinSize(options.initialsize, rootArea), options.rotation);
      var found := IndexSearch.RunCascade(x);
      var pooled := mu.Update(found);
      dets := Clustering.ClusterDetections(pooled, options.threshold, true);
    }
  }

  /**
   * `PICO(cascade, options)`: the cascade is decoded once; a buffer that does
   * not hold the cascade is the error the decoder reports, and otherwise the
   * detector holds the decoded cascade, the destructured options and an
   * empty memory.
   */
  method NewPico(cascade: seq<byte>, f32: Float32Decoder, tab: Tables, overrides: Overrides)
    returns (r: Result<Detector, DecodeError>)
    requires tab.Valid()
    ensures r.Success? <==> IndexCascade.Decode(cascade, f32).Success?
    ensures r.Failure? ==> r.error == IndexCascade.Decode(cascade, f32).error
    ensures r.Success? ==> && fresh(r.value) && fresh(r.value.mu) && r.value.Valid()
                           && r.value.cas == IndexCascade.Decode(cascade, f32).value
                           && r.value.options == Destructure(overrides) && r.value.mu.frames == []
  {
    var decoded := IndexCascade.UnpackCascade(cascade, f32);
    if decoded.Failure? {
      return Failure(decoded.error);
    }
    var d := new Detector(Destructure(overrides), decoded.value, tab);
    return Success(d);
  }
}
