/** Failure values of the converter and a failure-compatible result type.

    The Python code signals every failure by raising; the model returns
    `Err` with the error the raise would carry, so that callers (and
    contracts) can see which step failed. */
module Outcomes {

  /** Why a step of the conversion failed. */
  datatype Error =
    /** `zipfile.ZipFile` refused the input path (missing file, not a zip). */
    | NotAnArchive
    /** `config.ini` is not an entry of the archive; the handler then raises
        itself, because it formats a name that is not defined there. */
    | MissingConfig
    /** Line `line` (0-based) of `config.ini` does not unpack into exactly
        one key and one value. */
    | MalformedConfigLine(line: nat)
    /** `config[key]` raised `KeyError`. */
    | MissingKey(key: string)
    /** `int(...)` or `float(...)` of the value found under `key` (or of the
        command-line argument named `key`) raised `ValueError`. */
    | NotANumber(key: string)
    /** `extract_images` raised while writing the layer images to the
        scratch folder. */
    | ExtractionFailed

  datatype Option<+T> = None | Some(value: T)

  datatype Result<+T> = Ok(value: T) | Err(error: Error) {

    predicate IsFailure() {
      Err?
    }

    function PropagateFailure<U>(): Result<U>
      requires Err?
    {
      Err(error)
    }

    function Extract(): T
      requires Ok?
    {
      value
    }
  }
}
