# PaddleOCR result normaliser — a Dafny model

`paddle_ocr.py` is a command-line adapter: it runs the PaddleOCR recognizer on
one image and prints a JSON result document. This project models the part of
it that has behaviour of its own:

- the **result normaliser** of `perform_ocr`: the recognizer's raw output (a
  list of pages, each a list of lines, each a polygon with a text and a
  confidence), or the exception it raised, becomes a document with
  `success`, `blocks`, `text`, `pageCount` and, on failure, `error`;
- the **bounding box** of each line: `x`/`y` are the minima of the polygon's
  coordinates, `width`/`height` the spans up to the maxima;
- the **language-code mapping** of `main`: a fixed twelve-entry table, with
  unknown codes passed through and `en` as the default;
- the **entry point**: argument handling, the usage error, and where the
  printed document ends up.

Modules:

- `Wrappers` (`wrappers.dfy`): `Option`.
- `Geometry` (`geometry.dfy`): points, `Min`/`Max` as Python's builtins on a
  non-empty list, and `Enclose`, the bounding box, with its tightness and
  vertex-order lemmas.
- `Normalizer` (`normalizer.dfy`): the raw outcome `Raw`, the document
  `Document`, the specification function `Normalize`, and `PerformOcr`, the
  loop of the source that appends a block and a text per line. `PerformOcr`
  is proved to build exactly `Normalize`'s document. Beside them are `Join`
  (`'\n'.join`) and its partner `Split` (`str.split`), with the round trip
  proved.
- `Languages` (`languages.dfy`): `LanguageTable` and `ToRecognizerLanguage`.
- `Cli` (`cli.dfy`): `ParseArgs`, the stdout routing of the code as written
  (`RunAsWritten`) and the corrected `Run` (see Findings).

The recognizer (`PaddleOCR(...)` and `ocr.ocr(...)`) is an input: in
`Normalizer` a `Raw` value, in `Cli` a function from image path and language
to `Raw`.

## Model

| member | source | states |
|---|---|---|
| `Geometry.Min` | paddle_ocr.py:91-92 | the minimum of a non-empty list is one of its elements and no element is below it |
| `Geometry.Max` | paddle_ocr.py:93-94 | the maximum of a non-empty list is one of its elements and no element is above it |
| `Geometry.Enclose` | paddle_ocr.py:88-94 | the box has non-negative width and height, encloses every polygon point, and each of its four sides is attained by some point (so `x + width` is the largest x) |
| `Geometry.EncloseIsTightest` | paddle_ocr.py:88-94 | every axis-aligned box holding all points contains the computed box |
| `Geometry.EncloseIgnoresVertexOrder` | paddle_ocr.py:82-94 | polygons with the same points in another order give the same box |
| `Geometry.EncloseExample` | paddle_ocr.py:88-94 | the square-cornered polygon (1,1),(5,1),(5,3),(1,3) gives x=1, y=1, width=4, height=2 |
| `Normalizer.Normalize` | paddle_ocr.py:69-124 | the document fails exactly when the recognizer raised or a first-page polygon is empty; success means one page and no error; failure means no blocks, empty text, zero pages and the exception's message |
| `Normalizer.PerformOcr` | paddle_ocr.py:69-124 | the append loop over the first page, with its early failure on an empty polygon, builds exactly the document `Normalize` specifies |
| `Normalizer.NothingDetected` | paddle_ocr.py:69-75 | an absent result, an empty result or an empty first page give success, no blocks, empty text, one page |
| `Normalizer.RaisedIsReported` | paddle_ocr.py:117-124 | an exception gives success false, no blocks, empty text, zero pages and the exception's message as error |
| `Normalizer.LaterPagesIgnored` | paddle_ocr.py:69-81 | only the first page is read: later pages never change the document |
| `Normalizer.BlocksFollowLines` | paddle_ocr.py:81-108 | one block per line, in line order; block k keeps line k's text and confidence, has type "text", and its box is `Enclose` of line k's polygon: it encloses every point and each of its four sides is attained |
| `Normalizer.TextIsJoinedBlockTexts` | paddle_ocr.py:108-114 | in every outcome the document's text is its block texts joined with newlines |
| `Normalizer.SplitJoin` | paddle_ocr.py:113 | splitting a join of at least one separator-free part gives back exactly those parts |
| `Normalizer.TextSplitsIntoLineTexts` | paddle_ocr.py:108-113 | with detections and no newline inside a line text, splitting the document text at newlines gives the block texts, one per line |
| `Normalizer.TwoLinesExample` | paddle_ocr.py:96-114 | lines "Hello" then "World" give two blocks in that order and the text "Hello\nWorld" |
| `Languages.ToRecognizerLanguage` | paddle_ocr.py:156 | a listed code maps to its table value, any other code passes through unchanged |
| `Languages.ListedCodes` | paddle_ocr.py:141-154 | each of the twelve codes maps to its recognizer name (eng to en, chi_sim to ch, and so on) |
| `Languages.TableValuesAreNotCodes` | paddle_ocr.py:141-154 | no recognizer name in the table is itself a listed code |
| `Languages.MappingIsIdempotent` | paddle_ocr.py:141-156 | mapping a mapped code again changes nothing |
| `Cli.ParseArgs` | paddle_ocr.py:130-156 | an `argv` shorter than 2 (program name but no image path) is a usage error; otherwise the image is `argv[1]` and the language is `argv[2]` mapped through the table, or "en" when `argv` has no third element |
| `Cli.StdoutAfterOcrAsWritten` | paddle_ocr.py:44-67 | standard output is left on the null device exactly when the recognizer raised |
| `Cli.TrackStdoutAsWritten` | paddle_ocr.py:44-67 | following the redirection at line 48, the early exit of a raising recognizer call and the restore at line 65 step by step, stdout ends on the null device exactly when the recognizer raised |
| `Cli.RunAsWritten` | paddle_ocr.py:126-159 | the usage error prints the usage document with exit status 1; every other run exits with status 0 |
| `Cli.RecognizerFailureIsLost` | paddle_ocr.py:62-67 | as written, a recognizer exception leaves the caller with exit status 0 and no output |
| `Cli.Run` | paddle_ocr.py:126-159 | (corrected entry point, see Findings) the usage error prints the usage document with exit status 1; every other run exits with status 0 and shows exactly one result document |
| `Cli.EveryRunIsReported` | paddle_ocr.py:156-159 | (corrected entry point, see Findings) the shown document is the normalised outcome of recognising the given image in the requested language |
| `Cli.RecognizerFailureIsReported` | paddle_ocr.py:117-124 | (corrected entry point, see Findings) a recognizer exception reaches the caller as the failure document with its message |
| `Cli.RunsDifferOnlyOnRaise` | paddle_ocr.py:62-67 | the code as written and the corrected run differ exactly on runs where the recognizer raised |

## Left out

- Rounding: `round(..., 2)` on the box and `round(..., 4)` on the confidence, and the `float(...)` conversion, are floating-point operations. The model keeps exact reals, so the box and confidence properties are stated on the unrounded values.
- The recognizer itself (`PaddleOCR(...)`, `ocr.ocr(...)`) is a foreign library; it is an input value (`Raw`) or a function parameter. Model download and caching belong to it.
- Process configuration: the environment variables, `multiprocessing.cpu_count` and thread hints set before the import have no behaviour of their own.
- Stderr suppression during the import and during recognition is not modelled; stdout routing is modelled only as far as it decides whether the document reaches the caller.
- JSON serialisation (`json.dumps`, `ensure_ascii=False`, two-space indent) and printing are I/O; the model stops at the `Printed` value.
- Malformed recognizer output (a line that is not a polygon/text pair, a non-numeric confidence, a non-string text, NaN coordinates) cannot be expressed in the typed `Line`; the only in-loop failure modelled is the empty polygon.
- `Normalizer.EmptyMinMessage` uses CPython's wording before version 3.12 ("min() arg is an empty sequence"); later versions word the message differently.
- An exception from opening the null device (before the redirection) is not modelled.
- A non-empty `error` is not promised: the failure document carries `str(e)`, which is the empty string for an exception raised without arguments, so the model keeps any message, the empty one included.
- Only `Exception` subclasses become `Raised`: the handler is `except Exception`, so a `BaseException` that is not an `Exception` (such as `SystemExit` or `KeyboardInterrupt`) raised while the recognizer is built or run ends the process without any document, with stdout and stderr still on the null device; the model has no outcome for that case.

## Findings

| source | as written | input that shows it | evidently intended | confidence | as-written member | corrected member |
|---|---|---|---|---|---|---|
| paddle_ocr.py:62-67 | standard output is put back only after the recognizer returns; when `PaddleOCR(...)` or `ocr.ocr(...)` raises, the handler returns the failure document while stdout still points at the null device, and `main` prints it there | a run with an image path whose recognizer raises (a model that fails to load): exit status 0, empty output | the failure document is printed to the caller: the handler at paddle_ocr.py:117-124 builds a failure document for `main` to print, and `main` is documented as reading arguments and outputting JSON (paddle_ocr.py:127-128) | high, not executed | `Cli.RecognizerFailureIsLost` | `Cli.EveryRunIsReported` |
