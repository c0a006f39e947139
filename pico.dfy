/**
 * The `PICO` class of src/pico.js: options merged over the defaults, a
 * classifier that rejects every window until a cascade is loaded, and a
 * memory of the last `memory` frames whose detections are pooled before
 * clustering.
 */
module Pico {
  import opened Wrappers
  import opened JsNumbers
  import opened Detections
  import opened CascadeLayout
  import opened IndexCascade
  import UtilsCascade
  import UtilsClassifier
  import UtilsSearch
  import Grayscale
  import Memory
  import Clustering

  /** `this.options`: the parameters `detect` passes on. */
  datatype Options = Options(shiftfactor: real, scalefactor: real, initialsize: real,
                             rotation: UtilsSearch.RotationOption, threshold: real, memory: real)
  {
    /** The parameters for which the size loop of the search ends. */
    predicate Searchable() {
      shiftfactor >= 0.0 && scalefactor > 1.0 && initialsize > 0.0
    }
  }

  /** The `options` argument of the constructor: each key present or absent. */
  datatype Overrides = Overrides(shiftfactor: Option<real>, scalefactor: Option<real>, initialsize: Option<real>,
                                 rotation: Option<UtilsSearch.RotationOption>, threshold: Option<real>,
                                 memory: Option<real>)

  /** `options = {}`: no key given. */
  const NO_OVERRIDES := Overrides(None, None, None, None, None, None)

  /**
   * The defaults: shift by 10% of the window, grow it by 10%, start at size
   * 0.1, the angle 0, overlap threshold 0.2, one frame of memory. With them
   * the search ends and the memory holds a single frame.
   */
  function Defaults(): (o: Options)
    ensures o.Searchable() && Memory.Capacity(o.memory) == 1
    ensures UtilsSearch.NormalizeRotation(o.rotation) == [0.0]
  {
    Options(0.1, 1.1, 0.1, UtilsSearch.Angle(0.0), 0.2, 1.0)
  }

  function Pick<T>(given: Option<T>, base: T): T {
    if given.Some? then given.value else base
  }

  /** `Object.assign(base, overrides)`: each key given in the overrides wins, every other keeps its base value. */
  function Assign(base: Options, o: Overrides): (r: Options)
    ensures o.shiftfactor.Some? ==> r.shiftfactor == o.shiftfactor.value
    ensures o.shiftfactor.None? ==> r.shiftfactor == base.shiftfactor
    ensures o.scalefactor.Some? ==> r.scalefactor == o.scalefactor.value
    ensures o.scalefactor.None? ==> r.scalefactor == base.scalefactor
    ensures o.initialsize.Some? ==> r.initialsize == o.initialsize.value
    ensures o.initialsize.None? ==> r.initialsize == base.initialsize
    ensures o.rotation.Some? ==> r.rotation == o.rotation.value
    ensures o.rotation.None? ==> r.rotation == base.rotation
    ensures o.threshold.Some? ==> r.threshold == o.threshold.value
    ensures o.threshold.None? ==> r.threshold == base.threshold
    ensures o.memory.Some? ==> r.memory == o.memory.value
    ensures o.memory.None? ==> r.memory == base.memory
  {
    Options(Pick(o.shiftfactor, base.shiftfactor), Pick(o.scalefactor, base.scalefactor),
            Pick(o.initialsize, base.initialsize), Pick(o.rotation, base.rotation),
            Pick(o.threshold, base.threshold), Pick(o.memory, base.memory))
  }

  /** With no key given the options are the defaults; merging the same overrides twice changes nothing more. */
  lemma AssignDefaults(o: Overrides)
    ensures Assign(Defaults(), NO_OVERRIDES) == Defaults()
    ensures Assign(Assign(Defaults(), o), o) == Assign(Defaults(), o)
  {
  }

  /** `this._clfn`: the placeholder `function () { return -1.0; }`, or the closure `unpackCascade` built. */
  datatype Classifier = Placeholder | Unpacked(cas: Cascade, tab: UtilsClassifier.RealTables)
  {
    /** An unpacked classifier comes from a decoded cascade and full-circle tables. */
    predicate Ready() {
      Unpacked? ==> UtilsCascade.Loaded(cas) && tab.Valid()
    }
  }

  /** The function the search calls: -1 everywhere for the placeholder, the cascade's score otherwise. */
  function ClassifierFn(clf: Classifier): (fn: UtilsSearch.ClassifierFn)
    requires clf.Ready()
    ensures clf.Placeholder? ==> forall r, c, a, s, px, ld :: !Accepted(fn(r, c, a, s, px, ld))
    ensures clf.Unpacked? ==> forall r, c, a, s, px, ld ::
      fn(r, c, a, s, px, ld) == UtilsClassifier.Classify(clf.cas, clf.tab, r, c, a, s, px, ld)
  {
    match clf
    case Placeholder => (r, c, a, s, px, ld) => Num(-1.0)
    case Unpacked(cas, tab) => (r, c, a, s, px, ld) => UtilsClassifier.Classify(cas, tab, r, c, a, s, px, ld)
  }

  /** What `runCascade` receives from `detect`. */
  function ScanOf(options: Options, clf: Classifier, data: seq<byte>, width: nat, height: nat): (x: UtilsSearch.Scan)
    requires clf.Ready() && |data| % 4 == 0
    ensures x.Valid() <==> options.Searchable()
    ensures x.pixels == Grayscale.LumaImage(data) && x.width == width && x.height == height
    ensures x.rotation == UtilsSearch.NormalizeRotation(options.rotation)
  {
    UtilsSearch.Scan(ClassifierFn(clf), Grayscale.LumaImage(data), width, height, options.shiftfactor, options.scalefactor,
                     options.initialsize, UtilsSearch.NormalizeRotation(options.rotation))
  }

  /** The raw detections of one frame. */
  function Frame(options: Options, clf: Classifier, data: seq<byte>, width: nat, height: nat): (dets: seq<Detection>)
    requires clf.Ready() && |data| % 4 == 0 && options.Searchable()
    ensures clf.Placeholder? ==> dets == []
    ensures UtilsSearch.AllReported(ScanOf(options, clf, data, width, height), dets)
  {
    var x := ScanOf(options, clf, data, width, height);
    UtilsSearch.SearchReported(x);
    if clf.Placeholder? then
      UtilsSearch.RejectingClassifierFindsNothing(x);
      UtilsSearch.Search(x)
    else
      UtilsSearch.Search(x)
  }

  /** The first half of `detect`: the grayscale image and the search over it. */
  method RunFrame(options: Options, clf: Classifier, data: seq<byte>, width: nat, height: nat)
    returns (found: seq<Detection>)
    requires clf.Ready() && |data| % 4 == 0 && options.Searchable()
    ensures found == Frame(options, clf, data, width, height)
  {
    var pixels := Grayscale.ToGrayscale(data, false);
    found := UtilsSearch.RunCascade(pixels, width, height, ClassifierFn(clf), options.shiftfactor,
                                    options.scalefactor, options.initialsize, options.rotation);
  }

  /** Frames that are all empty, the new one included, pool and cluster to nothing. */
  lemma PlaceholderPoolsNothing(h: seq<seq<Detection>>, dets: seq<Detection>, cap: nat, threshold: real)
    requires cap >= 1 && dets == [] && forall t :: 0 <= t < |h| ==> h[t] == []
    ensures forall t :: 0 <= t < |h + [dets]| ==> (h + [dets])[t] == []
    ensures Clustering.ClusterDetectionsSpec(Memory.Concat(Memory.Ring(h + [dets], cap)), threshold, false) == []
  {
    Memory.EmptyFramesEmptyPool(h + [dets], cap);
    assert Clustering.ClusterDetectionsSpec([], threshold, false) == [];
  }

  /** The detector object. */
  class PICO {
    /** `this.options`. */
    var options: Options
    /** `this._clfn`. */
    var classifier: Classifier
    /** `this._mu`: the memory updater made in the constructor. */
    const mu: Memory.MemoryUpdater

    /**
     * The memory holds `options.memory` frames; an unpacked classifier is
     * ready to run; and while no cascade has been loaded every stored frame
     * is empty.
     */
    ghost predicate Valid()
      reads this, mu
    {
      && mu.Valid() && mu.size == options.memory
      && classifier.Ready()
      && (classifier.Placeholder? ==> forall t :: 0 <= t < |mu.frames| ==> mu.frames[t] == [])
    }

    /** `new PICO(options)`: the options over the defaults, the placeholder classifier, an empty memory. */
    constructor(overrides: Overrides)
      ensures Valid() && fresh(mu)
      ensures options == Assign(Defaults(), overrides) && classifier == Placeholder
      ensures mu.frames == [] && mu.memory == seq(Memory.InitialSlots(options.memory), _ => [])
    {
      var merged := Assign(Defaults(), overrides);
      options := merged;
      classifier := Placeholder;
      mu := new Memory.MemoryUpdater(merged.memory);
    }

    /**
     * `loadCascade`: the bytes the fetch delivers, unpacked by `unpackCascade`
     * of src/utils.js; the options and the memory stay as they were.
     */
    method LoadCascade(bytes: seq<byte>, f32: Float32Decoder, tab: UtilsClassifier.RealTables)
      requires Valid() && 0 <= DepthField(bytes) <= 30 && tab.Valid()
      modifies this
      ensures Valid()
      ensures classifier == Unpacked(UtilsCascade.Decode(bytes, f32), tab)
      ensures options == old(options)
    {
      var cas := UtilsCascade.UnpackCascade(bytes, f32);
      classifier := Unpacked(cas, tab);
    }

    /**
     * `detect({data, width, height})`: the frame's detections are stored in
     * the memory, and the clusters of everything the memory holds are
     * returned. Before a cascade is loaded nothing is found; with one frame of
     * memory only the current frame is clustered.
     */
    method Detect(data: seq<byte>, width: nat, height: nat) returns (dets: seq<Detection>)
      requires Valid() && |data| % 4 == 0 && options.Searchable()
      modifies mu
      ensures Valid()
      ensures mu.frames == old(mu.frames) + [Frame(options, classifier, data, width, height)]
      ensures dets == Clustering.ClusterDetectionsSpec(Memory.Concat(mu.memory), options.threshold, false)
      ensures classifier.Placeholder? ==> dets == []
      ensures Memory.Capacity(options.memory) == 1 ==>
        dets == Clustering.ClusterDetectionsSpec(Frame(options, classifier, data, width, height), options.threshold, false)
    {
      var found := RunFrame(options, classifier, data, width, height);
      var pooled := mu.Update(found);
      dets := Clustering.ClusterDetections(pooled, options.threshold, false);
      if classifier.Placeholder? {
        PlaceholderPoolsNothing(old(mu.frames), found, Memory.Capacity(mu.size), options.threshold);
      }
    }
  }
}
