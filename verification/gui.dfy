/** The converter window (`MainWindow` of SL1_to_Photon_gui.py): choosing an
    input fills in the output path and four spin boxes from the archive's
    settings (`set_in_file`, lines 99-107), and `convert` (lines 113-171)
    checks its guards, maps the settings and appends the layers until done
    or stopped.

    Widgets are plain values: the two path fields and the spin boxes. The
    file system, the archive, the scratch folder's listing and `float` are
    parameters as in the command-line model; the user's answer to the
    overwrite question and the state of the stop flag are inputs too. */
module Gui {
  import opened Outcomes
  import opened Strings
  import opened Paths
  import opened Reader
  import opened Profile
  import opened Numbers
  import opened Layers

  /** The window's state: the two path fields and the spin boxes. */
  datatype Window = Window(infile: string, outfile: string, spins: SpinBoxes)

  /** The window after a handler ran, and the exception it ended with, if
      any. A failing handler keeps the changes it made before the raise. */
  datatype Update = Update(window: Window, error: Option<Error>)

  /** The coercions of `set_in_file`, in order, one per spin box it sets. */
  function InFileCoercions(): seq<Coercion> {
    [ToFloat("expTime"), ToFloat("expTimeFirst"), ToFloat("layerHeight"), ToInt("numFade")]
  }

  /** The settings `set_in_file` managed to coerce: the length of the
      longest run of succeeding coercions at the start of the table. */
  function Coerced(steps: seq<Coercion>, config: map<string, string>, toFloat: string -> Option<real>): (n: nat)
    ensures n <= |steps|
    ensures forall i :: 0 <= i < n ==> Succeeds(steps[i], config, toFloat)
    ensures n < |steps| ==> !Succeeds(steps[n], config, toFloat)
    decreases |steps|
  {
    if steps == [] || !Succeeds(steps[0], config, toFloat) then 0
    else 1 + Coerced(steps[1..], config, toFloat)
  }

  /** `set_in_file(path)`: show the path, show the derived output path,
      open the archive, then fill in the spin boxes from its settings. */
  function SetInFile(w: Window, path: string, zip: Option<Archive>, toFloat: string -> Option<real>): (u: Update)
    ensures u.window.infile == path && u.window.outfile == DeriveOutput(path)
    ensures u.window.spins.liftSpeed == w.spins.liftSpeed && u.window.spins.retractSpeed == w.spins.retractSpeed
    ensures Open(zip).Err? ==> u.window.spins == w.spins && u.error == Some(Open(zip).error)
    ensures Open(zip).Ok? ==> var filled := FillSpins(w.spins, Open(zip).value.config, toFloat);
                              u.window.spins == filled.0 && u.error == filled.1
    ensures Open(zip).Ok? ==> u.error == FirstFailure(InFileCoercions(), Open(zip).value.config, toFloat)
  {
    var shown := w.(infile := path, outfile := DeriveOutput(path));
    var result := Open(zip);
    if result.Err? then Update(shown, Some(result.error))
    else
      var filled := FillSpins(w.spins, result.value.config, toFloat);
      FillSpinsFails(w.spins, result.value.config, toFloat);
      Update(shown.(spins := filled.0), filled.1)
  }

  /** The second half of `set_in_file`: set the exposure, bottom exposure,
      layer height and bottom-layer spin boxes one after another. The first
      failure ends the handler with the boxes set so far. */
  function FillSpins(spins: SpinBoxes, config: map<string, string>, toFloat: string -> Option<real>): (r: (SpinBoxes, Option<Error>))
    ensures r.0.liftSpeed == spins.liftSpeed && r.0.retractSpeed == spins.retractSpeed
  {
    match FloatSetting(config, "expTime", toFloat)
    case Err(e) => (spins, Some(e))
    case Ok(exposure) =>
      var s1 := spins.(exposure := exposure);
      match FloatSetting(config, "expTimeFirst", toFloat)
      case Err(e) => (s1, Some(e))
      case Ok(exposureBottom) =>
        var s2 := s1.(exposureBottom := exposureBottom);
        match FloatSetting(config, "layerHeight", toFloat)
        case Err(e) => (s2, Some(e))
        case Ok(layerHeight) =>
          var s3 := s2.(layerHeight := layerHeight);
          match IntSetting(config, "numFade")
          case Err(e) => (s3, Some(e))
          case Ok(bottomLayers) => (s3.(bottomLayers := bottomLayers), None)
  }

  /** Filling the spin boxes fails exactly when a coercion of its table
      fails, with the first failure's error. */
  lemma FillSpinsFails(spins: SpinBoxes, config: map<string, string>, toFloat: string -> Option<real>)
    ensures FillSpins(spins, config, toFloat).1 == FirstFailure(InFileCoercions(), config, toFloat)
  {
    var s := InFileCoercions();
    forall k | 0 <= k < |s|
      ensures FirstFailure(s[k..], config, toFloat) == Step(s, k, config, toFloat)
    {
      assert s[k..][1..] == s[k + 1..];
    }
  }

  /** Spin box `k` of the table holds the new setting exactly when the
      first `k + 1` coercions succeeded; otherwise it keeps its old value.
      So a failure leaves the boxes before it updated and the rest as they
      were. */
  lemma FillSpinsPartial(spins: SpinBoxes, config: map<string, string>, toFloat: string -> Option<real>)
    ensures var n := Coerced(InFileCoercions(), config, toFloat);
            var r := FillSpins(spins, config, toFloat).0;
            && r.exposure == (if n > 0 then toFloat(config["expTime"]).value else spins.exposure)
            && r.exposureBottom == (if n > 1 then toFloat(config["expTimeFirst"]).value else spins.exposureBottom)
            && r.layerHeight == (if n > 2 then toFloat(config["layerHeight"]).value else spins.layerHeight)
            && r.bottomLayers == (if n > 3 then ParseInt(config["numFade"]).value else spins.bottomLayers)
  {
    var s := InFileCoercions();
    var n := Coerced(s, config, toFloat);
    if n < 4 {
      assert !Succeeds(s[n], config, toFloat);
    }
  }

  /** Which way the guards at the top of `convert` go. */
  datatype Guard =
    /** The input file does not exist: a warning, and nothing else. */
    | InputMissing
    /** The output exists and the user answered Cancel to the overwrite
        question. */
    | OverwriteDeclined
    /** The output path is empty or only whitespace. */
    | OutputBlank
    /** All checks passed; the conversion starts. */
    | Proceed

  /** The guards of `convert`, in the order the handler checks them.
      `overwrite` is the user's answer to the overwrite question, which is
      asked only when the output exists. */
  function ConvertGuard(infile: string, outfile: string, present: string -> bool, overwrite: bool): (g: Guard)
    ensures g == InputMissing <==> !present(infile)
    ensures g == OverwriteDeclined <==> present(infile) && present(outfile) && !overwrite
    ensures g == OutputBlank <==> present(infile) && (!present(outfile) || overwrite) && Strip(outfile) == []
    ensures g == Proceed <==> present(infile) && (!present(outfile) || overwrite) && Strip(outfile) != []
  {
    if !present(infile) then InputMissing
    else if present(outfile) && !overwrite then OverwriteDeclined
    else if Strip(outfile) == [] then OutputBlank
    else Proceed
  }

  /** The overwrite answer matters only when the output exists. */
  lemma AnswerIgnoredWithoutOutput(infile: string, outfile: string, present: string -> bool)
    requires !present(outfile)
    ensures ConvertGuard(infile, outfile, present, true) == ConvertGuard(infile, outfile, present, false)
  {
  }

  /** What pressing Convert leads to. */
  datatype Conversion =
    /** A guard stopped the handler before anything was read. */
    | Aborted(guard: Guard)
    /** A step raised: the archive could not be read, a setting could
        not be coerced, or the images could not be extracted. */
    | Failed(error: Error)
    /** The Photon file written to `path`, with its settings, the layers
        appended, the progress values shown after each, and the progress
        bar's maximum. */
    | Written(path: string, profile: PhotonProfile, layers: seq<string>, progress: seq<nat>, maximum: nat)

  /** `convert`: the guards, then the reader, the mapping, and the layer
      loop. The file is written even when the loop was stopped early, with
      the layers appended so far. */
  method Convert(w: Window, present: string -> bool, overwrite: bool, zip: Option<Archive>,
                 listing: Option<seq<string>>, toFloat: string -> Option<real>, stop: nat -> bool)
    returns (c: Conversion)
    ensures c.Aborted? <==> ConvertGuard(w.infile, w.outfile, present, overwrite) != Proceed
    ensures c.Aborted? ==> c.guard == ConvertGuard(w.infile, w.outfile, present, overwrite)
    ensures !c.Aborted? && Open(zip).Err? ==> c == Failed(Open(zip).error)
    ensures !c.Aborted? && Open(zip).Ok? && MapGui(w.spins, Open(zip).value.config, toFloat).Err? ==>
              c == Failed(MapGui(w.spins, Open(zip).value.config, toFloat).error)
    ensures !c.Aborted? && Open(zip).Ok? && MapGui(w.spins, Open(zip).value.config, toFloat).Ok? ==>
              (listing.None? ==> c == Failed(ExtractionFailed)) && (listing.Some? ==> c.Written?)
    ensures c.Written? ==> c.path == w.outfile && Strip(c.path) != []
    ensures c.Written? ==> Open(zip).Ok? && c.maximum == Open(zip).value.layerCount
                           && c.profile == MapGui(w.spins, Open(zip).value.config, toFloat).value
    ensures c.Written? ==> listing.Some? && StoppedPrefix(LayerOrder(listing.value), c.layers, stop)
    ensures c.Written? ==> ProgressCounts(c.progress, |c.layers|)
  {
    var guard := ConvertGuard(w.infile, w.outfile, present, overwrite);
    if guard != Proceed {
      return Aborted(guard);
    }
    var result := Open(zip);
    if result.Err? {
      return Failed(result.error);
    }
    var mapped := MapGui(w.spins, result.value.config, toFloat);
    if mapped.Err? {
      return Failed(mapped.error);
    }
    if listing.None? {
      return Failed(ExtractionFailed);
    }
    var appended, progress := AppendLayers(LayerOrder(listing.value), stop);
    return Written(w.outfile, mapped.value, appended, progress, result.value.layerCount);
  }
}
