/** `SL1Reader`: opening an SL1 archive, reading its `config.ini` and
    counting its layer images (SL1_to_Photon.py:11-29 and the identical
    copy at SL1_to_Photon_gui.py:17-35).

    The zip container itself is not decoded: an archive is the ordered
    list of its entries, and a path that `zipfile.ZipFile` cannot open is
    `None`. */
module Reader {
  import opened Outcomes
  import opened Strings
  import Config

  /** One member of the archive. `contents` stands for the decoded text
      `read(name).decode()` would return; only `config.ini` is ever read
      as text. */
  datatype Entry = Entry(name: string, contents: string)

  datatype Archive = Archive(entries: seq<Entry>)

  /** The member holding the slicer settings. */
  const ConfigName: string := "config.ini"

  /** The marker a member name must contain to count as a layer. */
  const LayerMarker: string := ".png"

  /** `zf.namelist()`: member names in archive order, repeats kept. */
  function Names(a: Archive): (names: seq<string>)
    ensures |names| == |a.entries|
    ensures forall i :: 0 <= i < |names| ==> names[i] == a.entries[i].name
    decreases |a.entries|
  {
    if a.entries == [] then []
    else Names(Archive(a.entries[..|a.entries| - 1])) + [a.entries[|a.entries| - 1].name]
  }

  /** `zf.read(name)`: the contents of the member called `name`; when a
      name repeats, the zip directory keeps the last member of that name.
      `None` is the `KeyError` of a missing member. */
  function Read(a: Archive, name: string): (r: Option<string>)
    ensures r.None? <==> name !in Names(a)
    ensures r.Some? ==> exists i :: 0 <= i < |a.entries| && a.entries[i] == Entry(name, r.value)
                                   && forall j :: i < j < |a.entries| ==> a.entries[j].name != name
    decreases |a.entries|
  {
    if a.entries == [] then None
    else
      var last := a.entries[|a.entries| - 1];
      if last.name == name then Some(last.contents)
      else
        var r := Read(Archive(a.entries[..|a.entries| - 1]), name);
        assert Names(a) == Names(Archive(a.entries[..|a.entries| - 1])) + [last.name];
        r
  }

  /** The `n_layers` loop: one per member name containing `".png"`
      anywhere, whatever folder it sits in and whatever follows it. */
  function CountLayers(names: seq<string>): (n: nat)
    ensures n <= |names|
    ensures n == |names| <==> forall i :: 0 <= i < |names| ==> Contains(names[i], LayerMarker)
    ensures n == 0 <==> forall i :: 0 <= i < |names| ==> !Contains(names[i], LayerMarker)
    decreases |names|
  {
    if names == [] then 0
    else
      var rest := CountLayers(names[..|names| - 1]);
      if Contains(names[|names| - 1], LayerMarker) then rest + 1 else rest
  }

  /** A reader that was constructed: the parsed settings and the layer
      count. */
  datatype Sl1Reader = Sl1Reader(config: map<string, string>, layerCount: nat)

  /** `SL1Reader(path)`: open the archive, read and parse `config.ini`,
      count the layers. Each step that raises in the source is an `Err`
      here, in the order the constructor meets them; in particular a
      missing `config.ini` ends construction, so no reader without
      settings ever exists. */
  function Open(zip: Option<Archive>): (r: Result<Sl1Reader>)
    ensures zip.None? ==> r == Err(NotAnArchive)
    ensures zip.Some? && ConfigName !in Names(zip.value) ==> r == Err(MissingConfig)
    ensures r.Ok? <==> zip.Some? && ConfigName in Names(zip.value)
                       && Config.ParseConfig(Read(zip.value, ConfigName).value).Ok?
    ensures r.Ok? ==> r.value.layerCount == CountLayers(Names(zip.value))
                      && r.value.config == Config.ParseConfig(Read(zip.value, ConfigName).value).value
  {
    match zip
    case None => Err(NotAnArchive)
    case Some(a) =>
      match Read(a, ConfigName)
      case None => Err(MissingConfig)
      case Some(text) =>
        var config :- Config.ParseConfig(text);
        Ok(Sl1Reader(config, CountLayers(Names(a))))
  }

  /** The layer count adds up over any split of the name list. */
  lemma {:induction false} CountLayersAppend(a: seq<string>, b: seq<string>)
    ensures CountLayers(a + b) == CountLayers(a) + CountLayers(b)
    decreases |b|
  {
    if b == [] {
      assert a + b == a;
    } else {
      var b' := b[..|b| - 1];
      assert (a + b)[..|a + b| - 1] == a + b';
      CountLayersAppend(a, b');
    }
  }

  /** Any name holding `".png"` counts, wherever the marker stands and
      whatever folder the name is in: a thumbnail in a sub-folder and a
      backup copy both count. */
  lemma CountsAnyPng(folder: string, stem: string, suffix: string)
    ensures CountLayers([folder + stem + LayerMarker + suffix]) == 1
  {
    var n := folder + stem + LayerMarker + suffix;
    assert n[|folder + stem|..|folder + stem| + |LayerMarker|] == LayerMarker;
    assert OccursAt(n, LayerMarker, |folder + stem|);
    ContainsAt(n, LayerMarker);
  }

  /** An archive's layer count includes its thumbnail images: `k`
      top-level layer images plus one thumbnail in a folder count as
      `k + 1`. */
  lemma ThumbnailIsCounted(layers: seq<string>, folder: string, stem: string)
    requires forall i :: 0 <= i < |layers| ==> Contains(layers[i], LayerMarker)
    ensures CountLayers(layers + [folder + "/" + stem + LayerMarker]) == |layers| + 1
  {
    CountLayersAppend(layers, [folder + "/" + stem + LayerMarker]);
    CountsAnyPng(folder + "/", stem, []);
    assert folder + "/" + stem + LayerMarker + [] == folder + "/" + stem + LayerMarker;
  }
}
