/** The parameter mapping: how the settings of an SL1 archive and the
    user's choices become the fields of the Photon job
    (SL1_to_Photon.py:66-92 for the command line, SL1_to_Photon_gui.py:131-157
    for the window).

    Python's `float(text)` is not modelled: callers pass it in as
    `toFloat`, which answers `None` where `float` raises `ValueError`. The
    integer coercions (`int(text)`, and `int(x)` of a float) are modelled. */
module Profile {
  import opened Outcomes
  import opened Numbers

  /** The fields of the Photon job the converter sets. */
  datatype PhotonProfile = PhotonProfile(
    exposureTime: real,
    exposureTimeBottom: real,
    layerHeight: real,
    bottomLayers: int,
    bottomLayerCount: int,
    liftingSpeed: int,
    bottomLiftSpeed: int,
    retractSpeed: int,
    printTime: int,
    volumeMl: real,
    weightG: real,
    version: int,
    printPropertiesLength: int,
    antiAliasingLevel: int,
    layerLevels: int,
    lightPwm: int,
    lightPwmBottom: int,
    bottomLiftDistance: int,
    liftingDistance: int,
    costDollars: int,
    bottomLightOffDelay: real,
    lightOffDelay: real,
    p1: real,
    p2: real,
    p3: real,
    p4: real)

  /** The fixed part of the Photon format: fields with no counterpart in
      the SL1 settings, set to the same literals by both front ends. */
  predicate HasFormatConstants(p: PhotonProfile) {
    && p.version == 2
    && p.printPropertiesLength == 60
    && p.antiAliasingLevel == 0
    && p.layerLevels == 1
    && p.lightPwm == 255
    && p.lightPwmBottom == 255
    && p.bottomLiftDistance == 9060
    && p.liftingDistance == 5
    && p.costDollars == 1
    && p.bottomLightOffDelay == 0.0
    && p.lightOffDelay == 0.0
    && p.p1 == 0.0 && p.p2 == 0.0 && p.p3 == 0.0 && p.p4 == 0.0
  }

  /** A profile from its derived fields, with the format constants filled
      in. */
  function Assemble(
    exposureTime: real, exposureTimeBottom: real, layerHeight: real,
    bottomLayers: int, bottomLayerCount: int,
    liftingSpeed: int, bottomLiftSpeed: int, retractSpeed: int,
    printTime: int, volumeMl: real, weightG: real): PhotonProfile
  {
    PhotonProfile(
      exposureTime, exposureTimeBottom, layerHeight,
      bottomLayers, bottomLayerCount,
      liftingSpeed, bottomLiftSpeed, retractSpeed,
      printTime, volumeMl, weightG,
      2, 60, 0, 1, 255, 255, 9060, 5, 1,
      0.0, 0.0, 0.0, 0.0, 0.0, 0.0)
  }

  /** `float(config[key])`. */
  function FloatSetting(config: map<string, string>, key: string, toFloat: string -> Option<real>): Result<real>
  {
    if key !in config then Err(MissingKey(key))
    else match toFloat(config[key])
      case None => Err(NotANumber(key))
      case Some(v) => Ok(v)
  }

  /** `int(config[key])`. */
  function IntSetting(config: map<string, string>, key: string): Result<int>
  {
    if key !in config then Err(MissingKey(key))
    else match ParseInt(config[key])
      case None => Err(NotANumber(key))
      case Some(v) => Ok(v)
  }

  /** `int(args.<name>)` for a command-line option given as text. */
  function IntArgument(name: string, text: string): Result<int>
  {
    match ParseInt(text)
    case None => Err(NotANumber(name))
    case Some(v) => Ok(v)
  }

  /** One coercion the mapping performs, as an entry of a table. */
  datatype Coercion =
    | ToFloat(key: string)
    | ToInt(key: string)
    | ArgumentToInt(name: string, text: string)

  predicate Succeeds(c: Coercion, config: map<string, string>, toFloat: string -> Option<real>) {
    match c
    case ToFloat(k) => k in config && toFloat(config[k]).Some?
    case ToInt(k) => k in config && ParseInt(config[k]).Some?
    case ArgumentToInt(_, t) => ParseInt(t).Some?
  }

  /** The error a failing coercion raises: `KeyError` for a missing
      setting, `ValueError` for text that is not a number. */
  function FailureOf(c: Coercion, config: map<string, string>): Error {
    match c
    case ToFloat(k) => if k in config then NotANumber(k) else MissingKey(k)
    case ToInt(k) => if k in config then NotANumber(k) else MissingKey(k)
    case ArgumentToInt(n, _) => NotANumber(n)
  }

  /** The error of the first failing coercion of a table, if any. */
  function FirstFailure(steps: seq<Coercion>, config: map<string, string>, toFloat: string -> Option<real>): (r: Option<Error>)
    ensures r.None? <==> forall k :: 0 <= k < |steps| ==> Succeeds(steps[k], config, toFloat)
    decreases |steps|
  {
    if steps == [] then None
    else if !Succeeds(steps[0], config, toFloat) then Some(FailureOf(steps[0], config))
    else FirstFailure(steps[1..], config, toFloat)
  }

  /** The coercions of the command line, in the order the script performs
      them. */
  function CliCoercions(liftSpeed: string, retractSpeed: string): seq<Coercion> {
    [ ToFloat("expTime"), ToFloat("expTimeFirst"), ToFloat("layerHeight"),
      ToInt("numFade"),
      ArgumentToInt("liftspeed", liftSpeed), ArgumentToInt("retractspeed", retractSpeed),
      ToFloat("printTime"), ToFloat("usedMaterial") ]
  }

  /** The command-line mapping. Settings are read one field at a time, in
      the script's order, and the first coercion that raises ends it.
      `numFade` feeds both bottom-layer fields, the lift speed both
      lift-speed fields, `usedMaterial` both volume and weight; the script
      coerces each of these twice, and since the second coercion of the
      same text gives the same value, the model coerces once. */
  function MapCli(config: map<string, string>, liftSpeed: string, retractSpeed: string,
                  toFloat: string -> Option<real>): (r: Result<PhotonProfile>)
    ensures r.Ok? ==> HasFormatConstants(r.value)
    ensures r.Ok? ==> && "numFade" in config && ParseInt(config["numFade"]).Some?
                      && r.value.bottomLayers == r.value.bottomLayerCount == ParseInt(config["numFade"]).value
    ensures r.Ok? ==> && ParseInt(liftSpeed).Some? && ParseInt(retractSpeed).Some?
                      && r.value.liftingSpeed == r.value.bottomLiftSpeed == ParseInt(liftSpeed).value
                      && r.value.retractSpeed == ParseInt(retractSpeed).value
    ensures r.Ok? ==> && "usedMaterial" in config && toFloat(config["usedMaterial"]).Some?
                      && r.value.volumeMl == r.value.weightG == toFloat(config["usedMaterial"]).value
    ensures r.Ok? ==> && "printTime" in config && toFloat(config["printTime"]).Some?
                      && r.value.printTime == Trunc(toFloat(config["printTime"]).value)
    ensures r.Ok? ==> && "expTime" in config && toFloat(config["expTime"]).Some?
                      && "expTimeFirst" in config && toFloat(config["expTimeFirst"]).Some?
                      && "layerHeight" in config && toFloat(config["layerHeight"]).Some?
                      && r.value.exposureTime == toFloat(config["expTime"]).value
                      && r.value.exposureTimeBottom == toFloat(config["expTimeFirst"]).value
                      && r.value.layerHeight == toFloat(config["layerHeight"]).value
  {
    var exposureTime :- FloatSetting(config, "expTime", toFloat);
    var exposureTimeBottom :- FloatSetting(config, "expTimeFirst", toFloat);
    var layerHeight :- FloatSetting(config, "layerHeight", toFloat);
    var bottomLayers :- IntSetting(config, "numFade");
    var liftingSpeed :- IntArgument("liftspeed", liftSpeed);
    var retract :- IntArgument("retractspeed", retractSpeed);
    var printTime :- FloatSetting(config, "printTime", toFloat);
    var material :- FloatSetting(config, "usedMaterial", toFloat);
    Ok(Assemble(exposureTime, exposureTimeBottom, layerHeight,
                bottomLayers, bottomLayers,
                liftingSpeed, liftingSpeed, retract,
                Trunc(printTime), material, material))
  }

  /** The command-line mapping fails exactly when a coercion of its table
      fails, and with the error of the first one that does: a missing
      setting is reported by name before any later setting is looked at. */
  lemma MapCliFailsAsTable(config: map<string, string>, liftSpeed: string, retractSpeed: string,
                           toFloat: string -> Option<real>)
    ensures var r := MapCli(config, liftSpeed, retractSpeed, toFloat);
            var f := FirstFailure(CliCoercions(liftSpeed, retractSpeed), config, toFloat);
            (r.Err? <==> f.Some?) && (r.Err? ==> r.error == f.value)
  {
    var s := CliCoercions(liftSpeed, retractSpeed);
    forall k | 0 <= k < |s|
      ensures FirstFailure(s[k..], config, toFloat) == Step(s, k, config, toFloat)
    {
      assert s[k..][1..] == s[k + 1..];
    }
    // one case for each coercion that can be the first to fail
    if !Succeeds(s[0], config, toFloat) {
    } else if !Succeeds(s[1], config, toFloat) {
    } else if !Succeeds(s[2], config, toFloat) {
    } else if !Succeeds(s[3], config, toFloat) {
    } else if !Succeeds(s[4], config, toFloat) {
    } else if !Succeeds(s[5], config, toFloat) {
    } else if !Succeeds(s[6], config, toFloat) {
    } else if !Succeeds(s[7], config, toFloat) {
    }
  }

  /** One step of the table scan at index `k`. */
  function Step(s: seq<Coercion>, k: nat, config: map<string, string>, toFloat: string -> Option<real>): Option<Error>
    requires k < |s|
  {
    if !Succeeds(s[k], config, toFloat) then Some(FailureOf(s[k], config))
    else FirstFailure(s[k + 1..], config, toFloat)
  }

  /** The values the window's spin boxes hold when Convert is pressed. */
  datatype SpinBoxes = SpinBoxes(
    exposure: real, exposureBottom: real, layerHeight: real,
    bottomLayers: int, liftSpeed: int, retractSpeed: int)

  /** The coercions of the window's mapping; every other field comes from
      a spin box, which cannot fail. */
  function GuiCoercions(): seq<Coercion> {
    [ToFloat("printTime"), ToFloat("usedMaterial")]
  }

  /** The window's mapping: one spin box feeds both bottom-layer fields,
      one feeds both lift-speed fields, and `usedMaterial` feeds volume and
      weight. */
  function MapGui(spins: SpinBoxes, config: map<string, string>,
                  toFloat: string -> Option<real>): (r: Result<PhotonProfile>)
    ensures r.Ok? ==> HasFormatConstants(r.value)
    ensures r.Ok? ==> r.value.bottomLayers == r.value.bottomLayerCount == spins.bottomLayers
    ensures r.Ok? ==> r.value.liftingSpeed == r.value.bottomLiftSpeed == spins.liftSpeed
    ensures r.Ok? ==> r.value.retractSpeed == spins.retractSpeed
    ensures r.Ok? ==> && r.value.exposureTime == spins.exposure
                      && r.value.exposureTimeBottom == spins.exposureBottom
                      && r.value.layerHeight == spins.layerHeight
    ensures r.Ok? ==> && "usedMaterial" in config && toFloat(config["usedMaterial"]).Some?
                      && r.value.volumeMl == r.value.weightG == toFloat(config["usedMaterial"]).value
    ensures r.Ok? ==> && "printTime" in config && toFloat(config["printTime"]).Some?
                      && r.value.printTime == Trunc(toFloat(config["printTime"]).value)
  {
    var printTime :- FloatSetting(config, "printTime", toFloat);
    var material :- FloatSetting(config, "usedMaterial", toFloat);
    Ok(Assemble(spins.exposure, spins.exposureBottom, spins.layerHeight,
                spins.bottomLayers, spins.bottomLayers,
                spins.liftSpeed, spins.liftSpeed, spins.retractSpeed,
                Trunc(printTime), material, material))
  }

  /** The window's mapping fails exactly when its table does, with the
      first failing coercion's error. */
  lemma MapGuiFailsAsTable(spins: SpinBoxes, config: map<string, string>, toFloat: string -> Option<real>)
    ensures var r := MapGui(spins, config, toFloat);
            var f := FirstFailure(GuiCoercions(), config, toFloat);
            (r.Err? <==> f.Some?) && (r.Err? ==> r.error == f.value)
  {
    assert GuiCoercions()[1..][1..] == [];
  }
}
