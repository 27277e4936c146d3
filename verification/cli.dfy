/** The command-line converter (`__main__` of SL1_to_Photon.py:42-119):
    choose the output path, refuse to overwrite unless forced, read the
    archive, map its settings, and append the layers in name order.

    The file system is a parameter: `present` answers `os.path.exists`,
    `zip` is what `zipfile.ZipFile` makes of the input path, `listing` is
    what the scratch folder holds after extraction (`None` when extraction
    raised), and `toFloat` is
    Python's `float`. Printing and the final write are not modelled; the
    outcome says what would be written where. */
module Cli {
  import opened Outcomes
  import opened Strings
  import opened Paths
  import opened Reader
  import opened Profile
  import opened Ordering
  import opened Layers

  /** argparse's defaults for `--liftspeed` and `--retractspeed`. */
  const DefaultLiftSpeed: string := "65"
  const DefaultRetractSpeed: string := "150"

  /** The parsed command line. The speeds stay text until the mapping
      coerces them. */
  datatype Args = Args(
    input: string,
    output: Option<string>,
    force: bool,
    liftSpeed: string,
    retractSpeed: string)

  /** The status the script passes to `sys.exit` when it refuses. */
  const RefusalCode: int := -1

  datatype Outcome =
    /** The output exists and `-f` was not given: the message names the
        file by its base name and the script exits with `status`. */
    | Refused(status: int, shown: string)
    /** A step raised; Python ends the script with a traceback. */
    | Failed(error: Error)
    /** The Photon file written to `path`: its settings and its layers in
        the order they were appended. */
    | Written(path: string, profile: PhotonProfile, layers: seq<string>)

  /** The output path: `-o` verbatim, or the input with its extension
      replaced by `.photon`. */
  function OutputPath(args: Args): (p: string)
    ensures args.output.Some? ==> p == args.output.value
    ensures args.output.None? ==> EndsWith(p, PhotonExtension)
    ensures args.output.None? ==> p == SplitExt(args.input).0 + PhotonExtension
  {
    match args.output
    case Some(path) => path
    case None => DeriveOutput(args.input)
  }

  /** One run of the script. */
  function Run(args: Args, present: string -> bool, zip: Option<Archive>,
               listing: Option<seq<string>>, toFloat: string -> Option<real>): (o: Outcome)
    ensures o.Refused? <==> present(OutputPath(args)) && !args.force
    ensures o.Refused? ==> o.status == RefusalCode && o.shown == Basename(OutputPath(args))
    ensures !o.Refused? && Open(zip).Err? ==> o == Failed(Open(zip).error)
    ensures !o.Refused? && Open(zip).Ok? ==>
              var mapped := MapCli(Open(zip).value.config, args.liftSpeed, args.retractSpeed, toFloat);
              (mapped.Err? ==> o == Failed(mapped.error))
              && (mapped.Ok? && listing.None? ==> o == Failed(ExtractionFailed))
              && (mapped.Ok? && listing.Some? ==> o.Written? && o.path == OutputPath(args) && o.profile == mapped.value)
    ensures o.Written? ==> listing.Some? && Sorted(o.layers) && o.layers == LayerOrder(listing.value)
  {
    var path := OutputPath(args);
    if present(path) && !args.force then
      Refused(RefusalCode, Basename(path))
    else
      match Open(zip)
      case Err(e) => Failed(e)
      case Ok(reader) =>
        match MapCli(reader.config, args.liftSpeed, args.retractSpeed, toFloat)
        case Err(e) => Failed(e)
        case Ok(profile) =>
          match listing
          case None => Failed(ExtractionFailed)
          case Some(files) =>
            LayerOrderSpec(files);
            Written(path, profile, LayerOrder(files))
  }

  /** The refusal happens before the archive is touched: when it applies,
      neither the archive, nor the extracted files, nor the settings'
      values make any difference. */
  lemma RefusalComesFirst(args: Args, present: string -> bool,
                          zip1: Option<Archive>, listing1: Option<seq<string>>, toFloat1: string -> Option<real>,
                          zip2: Option<Archive>, listing2: Option<seq<string>>, toFloat2: string -> Option<real>)
    requires present(OutputPath(args)) && !args.force
    ensures Run(args, present, zip1, listing1, toFloat1) == Run(args, present, zip2, listing2, toFloat2)
  {
  }

  /** The exit status the shell sees: POSIX keeps the low eight bits of
      the value given to `exit`. */
  function ProcessStatus(code: int): (s: nat)
    ensures s < 256
    ensures (s - code) % 256 == 0
  {
    code % 256
  }

  /** A refusal shows up as status 255. */
  lemma RefusalStatus()
    ensures ProcessStatus(RefusalCode) == 255
  {
  }

  /** With the default speeds, a successful mapping lifts at 65 and
      retracts at 150, for normal and bottom layers alike. */
  lemma DefaultSpeeds(config: map<string, string>, toFloat: string -> Option<real>)
    requires MapCli(config, DefaultLiftSpeed, DefaultRetractSpeed, toFloat).Ok?
    ensures var p := MapCli(config, DefaultLiftSpeed, DefaultRetractSpeed, toFloat).value;
            p.liftingSpeed == p.bottomLiftSpeed == 65 && p.retractSpeed == 150
  {
    StripOf([], DefaultLiftSpeed, []);
    assert [] + DefaultLiftSpeed + [] == DefaultLiftSpeed;
    assert DefaultLiftSpeed[..1] == "6";
    StripOf([], DefaultRetractSpeed, []);
    assert [] + DefaultRetractSpeed + [] == DefaultRetractSpeed;
    assert DefaultRetractSpeed[..2] == "15";
    assert "15"[..1] == "1";
  }
}
