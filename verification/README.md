# SL1 to Photon, modelled in Dafny

SL1toPhoton converts a print job sliced for the Prusa SL1 resin printer into
the `.photon` format of the Anycubic Photon. An SL1 file is a zip archive. It
holds a `config.ini` with `key = value` lines and one PNG image per layer.
The converter has two front ends:

- a command-line script, `SL1_to_Photon.py`;
- a Qt window, `SL1_to_Photon_gui.py`.

Both carry the same `SL1Reader`. This project models the decisions they make:

- **Settings.** How `config.ini` becomes a settings map. This includes line
  splitting, stripping, the exactly-one-`=` rule, the last duplicate winning,
  and the reader failing when `config.ini` is missing (module `Config`).
- **Layer count.** How layers are counted: every archive name that contains
  `.png` counts, thumbnails in sub-folders included (module `Reader`).
- **Output path.** How the output path is derived with `os.path.splitext`
  (module `Paths`).
- **Guards.** The command line refuses an existing output unless `-f` is
  given (module `Cli`). The window checks the input, then the overwrite
  question, then a blank output (module `Gui`).
- **Parameters.** How settings and user choices become Photon parameters.
  This covers paired fields fed from one source, the fixed table of format
  constants, and the order in which coercions raise (module `Profile`).
- **Layer order.** The layer loop runs in sorted name order. Progress after
  layer `i` is `i + 1`, and the window's stop flag leaves a prefix (modules
  `Ordering` and `Layers`).

The Python built-ins these decisions rest on are modelled as well:

- `str.strip`, `str.split` with one separator, `str.splitlines` and the
  substring test (module `Strings`, module `Lines`);
- `int()` of text and `int()` of a float (module `Numbers`). `int()` skips
  the same whitespace as `strip()`, except the ASCII information separators
  U+001C to U+001F, which it refuses;
- `sorted` on strings (module `Ordering`).

Every failure of a modelled step is an `Err` carrying an
`Outcomes.Error`, in the order the code meets them. Steps that are not
modelled cannot fail in the model (see "Left out").

The environment is passed in as parameters:

- `present` answers `os.path.exists`;
- `zip` is the opened archive, or `None` when `zipfile` refuses the path;
- `listing` is what the scratch folder holds after extraction, or `None`
  when extraction raised;
- `toFloat` stands for Python's `float`;
- `overwrite` is the user's answer to the overwrite question;
- `stop(k)` is the state of the stop flag after `k` layers.

## Model

| member | source | states |
|---|---|---|
| Strings.StripShape | SL1_to_Photon.py:28-29 | `strip()` removes a whitespace prefix and a whitespace suffix and nothing else, leaves no whitespace at either end, and turns whitespace-only text into the empty string |
| Strings.StripOf | SL1_to_Photon.py:28-29 | conversely, text with no whitespace at either end, surrounded by any whitespace, strips to exactly that text |
| Strings.StripIdempotent | SL1_to_Photon.py:28-29 | stripping twice is the same as stripping once, so the key and value stripped after the line was stripped lose nothing more |
| Strings.CountStrip | SL1_to_Photon.py:28 | stripping whitespace never removes a `=`, so the line and the stripped line hold the same number of separators |
| Strings.Split | SL1_to_Photon.py:28 | `split('=')` yields one piece more than the text holds `=` characters |
| Strings.SplitShape | SL1_to_Photon.py:28 | `split('=')` yields one piece more than there are `=`, and no piece contains `=` |
| Strings.JoinSplit | SL1_to_Photon.py:28 | joining the pieces of `split` with the separator gives back the string |
| Strings.SplitJoin | SL1_to_Photon.py:28 | splitting a join of separator-free pieces gives back the pieces |
| Strings.Contains | SL1_to_Photon.py:17 | the empty text occurs in every name, and a text that occurs is no longer than the name |
| Strings.ContainsAt | SL1_to_Photon.py:17 | the substring test `".png" in name` holds exactly when `.png` occurs at some position of the name |
| Lines.SplitLines | SL1_to_Photon.py:27 | `splitlines()` yields lines free of line breaks, and nothing at all for empty text |
| Lines.SplitWritten | SL1_to_Photon.py:27 | a text of break-free lines, each ended by `\n` or `\r\n` in any mix, possibly followed by a last line with no ending, splits back into exactly those lines |
| Config.ParseLineShape | SL1_to_Photon.py:28-29 | an accepted line yields a key and a value with no surrounding whitespace and no `=` |
| Config.ParseLineAccepts | SL1_to_Photon.py:28 | a line unpacks into key and value exactly when it holds one `=`; no `=` (a blank line included) or two or more fail |
| Config.ParseLineSides | SL1_to_Photon.py:28-29 | an accepted line yields its trimmed left side as key and its trimmed right side as value |
| Config.ParseFrom | SL1_to_Photon.py:27-29 | a loop that completes keeps every key set before it started; one that fails names a line at or after its starting line |
| Config.ParseFromAccepts | SL1_to_Photon.py:27-29 | from any line on, the loop completes exactly when every remaining line is well formed |
| Config.ParseFromStops | SL1_to_Photon.py:27-29 | a loop that fails names a malformed line, and every line between its start and that line is well formed, so it is the first malformed one |
| Config.ParseFromContents | SL1_to_Photon.py:27-29 | the loop adds exactly the keys of the remaining lines, each with the value of its last line, and keeps earlier settings no later line redefines |
| Config.ParseLinesAccepts | SL1_to_Photon.py:27-28 | parsing succeeds exactly when every line holds one `=`; otherwise it fails on the first line that does not |
| Config.ParseLines | SL1_to_Photon.py:27-29 | the loop over the lines succeeds exactly when every line holds one `=`, and a failure names a line that does not |
| Config.ParseConfig | SL1_to_Photon.py:27-29 | an empty `config.ini` gives no settings; parsing succeeds exactly when every line `splitlines()` yields holds one `=` |
| Config.ParseLinesContents | SL1_to_Photon.py:29 | the settings' keys are exactly the trimmed left sides, and each key maps to the trimmed right side of the last line defining it |
| Config.ParseConfigOfLines | SL1_to_Photon_gui.py:33-35 | a `config.ini` written line by line, with `\n` or `\r\n` endings in any mix and perhaps no ending after the last line, parses as its lines do |
| Config.BlankLineRefused | SL1_to_Photon.py:28 | a blank line fails even after a valid one, and the error names that line |
| Config.DoubleEqualsRefused | SL1_to_Photon_gui.py:34 | a line with two `=` fails |
| Numbers.ParseInt | SL1_to_Photon.py:70-76 | `int()` of text refuses any text that holds an ASCII information separator, and accepts only text with something left after stripping |
| Numbers.ParseShow | SL1_to_Photon.py:70-73 | `int(str(n)) == n` for every integer |
| Numbers.ParseIntAccepts | SL1_to_Photon.py:72 | `int()` of text accepts surrounding whitespace, a `+` sign and single underscores between digits |
| Numbers.ParseIntRefuses | SL1_to_Photon.py:70-76 | `int()` of text refuses a fraction such as `3.0`, the empty string, a doubled underscore, and a leading U+001C that `strip()` would have removed |
| Numbers.Trunc | SL1_to_Photon.py:77 | `int()` of a float keeps the integer part, rounding toward zero on both sides of zero |
| Numbers.TruncIsNotFloor | SL1_to_Photon_gui.py:142 | truncation and flooring part on negative fractions: `int(-1.5)` is -1, not -2 |
| Reader.Names | SL1_to_Photon.py:16 | `namelist()` lists every member name in archive order, repeats kept |
| Reader.Read | SL1_to_Photon.py:22 | reading a name fails exactly when no member has it; otherwise it yields the contents of the last member of that name |
| Reader.CountLayers | SL1_to_Photon.py:15-18 | the count is at most the number of names; it equals that number exactly when every name contains `.png`, and it is zero exactly when none does |
| Reader.CountLayersAppend | SL1_to_Photon_gui.py:21-24 | the layer count adds up over any split of the name list |
| Reader.CountsAnyPng | SL1_to_Photon_gui.py:23 | any name holding `.png` counts, in whatever folder and with whatever suffix |
| Reader.ThumbnailIsCounted | SL1_to_Photon.py:16-18 | `k` layer images plus a thumbnail in a sub-folder count as `k + 1` |
| Reader.Open | SL1_to_Photon.py:12-24 | construction fails when the path is not an archive, and also when `config.ini` is missing, so no reader without settings exists; it succeeds exactly when the settings parse, and then carries them and the layer count |
| Paths.Basename | SL1_to_Photon.py:60 | `os.path.basename` returns a final piece of the path holding no `/`, and, unless it is the whole path, the character before it is a `/` |
| Paths.RFind | SL1_to_Photon.py:55 | the position found holds the character sought, and no later position does |
| Paths.SplitExt | SL1_to_Photon.py:55 | `splitext` cuts the path into two pieces that concatenate back to it, and the extension is empty or one dot followed by no dot and no `/` |
| Paths.SplitExtShape | SL1_to_Photon.py:55 | besides the cut, an extension is cut only from a final component that keeps a non-dot character before it, and is always cut when the final component has a dot after a non-dot character |
| Paths.DeriveOutput | SL1_to_Photon.py:55-56 | the derived output path ends in `.photon`, and a path without an extension just gains `.photon` |
| Paths.SplitExtOfDerived | SL1_to_Photon.py:55-56 | splitting a path that ends in `.photon` gives back the stem exactly when its final component holds a non-dot character |
| Paths.DeriveFixedPoint | SL1_to_Photon.py:54-56 | deriving again from a derived path changes nothing exactly when the input's final component holds a non-dot character |
| Paths.BasenameKeepsStem | SL1_to_Photon_gui.py:101 | a path with an extension has a final component holding a non-dot character |
| Paths.DeriveExamples | SL1_to_Photon_gui.py:101-102 | `prints/benchy.sl1` gives `prints/benchy.photon`; a dot in a folder name is not an extension; a leading dot does not start one |
| Ordering.StrLe | SL1_to_Photon.py:110 | a name sorts at or before every name it is a prefix of, and a name that sorts at or before one of its own prefixes is that prefix |
| Ordering.StrLeTotal | SL1_to_Photon.py:110 | any two names are comparable under `sorted`'s order |
| Ordering.StrLeAntisymmetric | SL1_to_Photon.py:110 | two names each at most the other are equal |
| Ordering.StrLeTransitive | SL1_to_Photon.py:110 | `sorted`'s order on names is transitive |
| Ordering.Insert | SL1_to_Photon.py:110 | inserting into a sorted list keeps it sorted and adds exactly the one element |
| Ordering.Sort | SL1_to_Photon.py:110 | `sorted` returns an ascending permutation of its input |
| Ordering.SortedUnique | SL1_to_Photon_gui.py:163 | two ascending lists with the same elements are equal |
| Ordering.SortListingOrder | SL1_to_Photon_gui.py:163 | sorting the same elements listed in different orders gives the same result |
| Layers.GlobMatch | SL1_to_Photon.py:110 | a name matching `*.png` is longer than `.png`, since the glob skips names starting with a dot |
| Layers.Matching | SL1_to_Photon.py:110 | the glob returns no more entries than the listing holds, and every one matches `*.png` |
| Layers.LayerOrder | SL1_to_Photon.py:110 | the layers come in ascending name order, and each matches `*.png` |
| Layers.MatchingCounts | SL1_to_Photon.py:110 | the glob keeps each listed `*.png` name that is not hidden, as often as it is listed, and nothing else |
| Layers.LayerOrderSpec | SL1_to_Photon.py:110 | the layers come in ascending name order, and they are exactly the matching entries of the listing |
| Layers.LayerOrderIgnoresListingOrder | SL1_to_Photon_gui.py:163 | the order in which the file system lists the scratch folder does not change the layer order |
| Layers.FolderPrefixKeepsOrder | SL1_to_Photon.py:110 | sorting full paths that share the scratch folder orders them as sorting the bare names does |
| Layers.GlobMatchIsCounted | SL1_to_Photon.py:17 | every name the glob matches contains `.png`, so the reader counted it |
| Layers.DistinctBound | SL1_to_Photon_gui.py:21-24 | distinct `.png` names drawn from the archive are no more than the reader's count |
| Layers.DistinctOnce | SL1_to_Photon_gui.py:163 | a listing without repeats holds each name at most once |
| Layers.LayersWithinCount | SL1_to_Photon_gui.py:159-166 | when every listed file came from an archive name, the progress never passes the bar's maximum `n_layers` |
| Layers.AppendLayers | SL1_to_Photon_gui.py:163-169 | the layers appended are a prefix of the sorted files, and progress after layer `i` is `i + 1`; the loop stops after layer `k` only when the flag is set there, and it appends every file when the flag is never set (the command line, SL1_to_Photon.py:110-114) |
| Profile.FirstFailure | SL1_to_Photon.py:67-77 | scanning a table of coercions finds no failure exactly when every coercion in it succeeds |
| Profile.MapCli | SL1_to_Photon.py:67-92 | on success, the format constants are set; both bottom-layer fields are `int(numFade)`; both lift speeds are `int(liftspeed)`; volume and weight are both `float(usedMaterial)`; print time is the truncated `float(printTime)` |
| Profile.MapCliFailsAsTable | SL1_to_Photon.py:67-85 | the command-line mapping fails exactly when a coercion of its table fails, with the error of the first one in source order |
| Profile.MapGui | SL1_to_Photon_gui.py:132-157 | on success, the format constants are set; one spin box feeds both bottom-layer fields and one feeds both lift speeds; `usedMaterial` feeds volume and weight |
| Profile.MapGuiFailsAsTable | SL1_to_Photon_gui.py:142-150 | the window's mapping fails exactly when `printTime` or `usedMaterial` cannot be coerced, with the first failure's error |
| Cli.OutputPath | SL1_to_Photon.py:54-58 | `-o` is used verbatim; without it the path is the `splitext` base plus `.photon`, and so ends in `.photon` |
| Cli.Run | SL1_to_Photon.py:59-114 | the run refuses exactly when the output exists and `-f` is absent, with status -1 and the base name shown; otherwise it fails at the first failing step (archive, mapping, extraction) or writes the mapped profile with the layers in ascending order |
| Cli.RefusalComesFirst | SL1_to_Photon.py:59-65 | when the script refuses, the archive, its extracted files and the settings make no difference: the refusal comes before any reading or mapping |
| Cli.ProcessStatus | SL1_to_Photon.py:61 | the exit status seen by the shell is the code reduced to eight bits |
| Cli.DefaultSpeeds | SL1_to_Photon.py:49-50 | with the default speeds, a successful mapping lifts at 65 and retracts at 150, for normal and bottom layers |
| Gui.SetInFile | SL1_to_Photon_gui.py:99-107 | choosing an input always shows it and the derived output path, whatever happens next; the speed boxes are untouched; an archive that cannot be read leaves the spin boxes as they were and reports its error; a readable one fills the boxes as `FillSpins` does and reports the error of the first failing coercion, if any |
| Gui.FillSpins | SL1_to_Photon_gui.py:104-107 | filling the spin boxes never touches the lift and retract speeds |
| Gui.FillSpinsFails | SL1_to_Photon_gui.py:104-107 | filling fails exactly when a coercion fails, with the first failure's error |
| Gui.FillSpinsPartial | SL1_to_Photon_gui.py:104-107 | spin box `k`, taken as a plain value, holds the new setting exactly when the first `k + 1` coercions succeeded, and otherwise keeps its old value |
| Gui.AnswerIgnoredWithoutOutput | SL1_to_Photon_gui.py:121-124 | the overwrite answer changes nothing when the output does not exist, since the question is not asked |
| Gui.ConvertGuard | SL1_to_Photon_gui.py:117-128 | the conversion aborts for a missing input; otherwise it aborts when the output exists and the user cancels; otherwise it aborts for a blank output; it proceeds exactly when all three checks pass |
| Gui.Convert | SL1_to_Photon_gui.py:113-170 | a guard other than proceed aborts; otherwise it fails at the first failing step, or writes to the output path the mapped profile, a prefix of the sorted layers cut by the stop flag, progress `i + 1` per layer, and `n_layers` as maximum |

## Left out

- Zip decoding and UTF-8 decoding are not modelled. An archive is its list of member names and decoded texts.
- Writing the images to the scratch folder, `os.makedirs` and the temporary folder are file-system I/O. The folder's listing after extraction is an input. An extraction that raises is `None`. For example, a `.png` name inside a sub-folder raises, because that sub-folder is never created.
- Rotating each image with PIL (`rotate(180)`) and serialising the Photon file with `pyphotonfile` are foreign libraries. Each layer is represented by its file name. The write is represented by the `Written` outcome.
- The failures of those foreign and I/O steps are not modelled: creating the temporary folder (`tempfile.TemporaryDirectory`), loading, rotating or saving a layer image that is not a readable PNG (SL1_to_Photon.py:113, SL1_to_Photon_gui.py:164), a failing `append_layer` (SL1_to_Photon.py:114, SL1_to_Photon_gui.py:165) and a failing `write` (SL1_to_Photon.py:118, SL1_to_Photon_gui.py:170). Once the mapping succeeded and the folder was listed, `Cli.Run` and `Gui.Convert` report `Written`.
- Profile.MapCli: the script sets most format constants on the inner object `photon.photon`, which belongs to the foreign library. The model states the intended constant table.
- Profile.MapCli: `float()` is a parameter. Floating-point parsing and rounding are left out. `int()` of text and the truncation in `int(float(...))` are modelled.
- Profile.MapCli: the script coerces `numFade`, the lift speed and `usedMaterial` twice each. The model coerces each once. Coercing the same text twice gives the same value and the same error.
- Floats are mathematical reals, so truncation has no overflow, infinity or NaN case.
- `int()` of text accepts ASCII digits only. Python also accepts other Unicode decimal digits.
- Numbers.ParseInt: the limit of Python 3.11 and later on the number of digits `int()` converts (4300 by default, `sys.int_info.default_max_str_digits`) is not modelled; the model parses digit strings of any length, as earlier Python versions do.
- Paths are POSIX paths. Windows separators and drive letters are left out.
- Printing is left out: the verbose parameter dump, the lift-speed echo, progress text and message boxes.
- Qt is left out: widget set-up, drag and drop (`dropEvent`), the file dialogs (`open_in_file`, `open_out_file`) and `processEvents`.
- Spin boxes are treated as plain values. Qt clamps a value to the range of its spin box, and `QDoubleSpinBox.setValue` also rounds to the box's `decimals()` (2 unless the form sets otherwise), so the exposure times and layer height read back from the boxes can differ from `float(config[...])`. The form file that defines ranges and decimals is not part of this model, so neither clamping nor rounding is modelled.
- `SL1_to_Photon_gui.py:168` lacks the colon after `if(self.stopConvert)`, so the file does not parse as written. Nothing sets `stopConvert` either. The model takes the evident intent: a flag read after each layer, supplied as `stop`.
- When `config.ini` is missing, the code takes the `except` branch that formats the undefined name `filename`. That raises `NameError` rather than printing a message. The model reports it as `MissingConfig`.
