/**
 * The entry point `main`: argument handling, the default language, and where
 * the printed document goes. The recognizer is a parameter: given the image
 * path and the recognizer's language name it yields the raw outcome.
 */
module Cli {
  import opened Normalizer
  import opened Languages
  import opened Wrappers

  /** The document `main` prints when the image path is missing. */
  const UsageMessage := "Usage: paddle_ocr.py <image_path> [lang]"

  /** What the arguments ask for: nothing runnable, or one recognition. */
  datatype Invocation = Usage | Request(imagePath: string, language: string)

  /** Where `sys.stdout` points. */
  datatype Stream = Console | NullDevice

  /**
   * A JSON object that `main` prints. `UsageReport` stands for the object
   * `{'success': False, 'error': ...}` printed when the image path is missing;
   * its `success` field is always false, so only the message is kept.
   */
  datatype Printed = UsageReport(error: string) | Report(doc: Document)

  /** What the calling process sees: the exit status and what reached standard output. */
  datatype Outcome = Outcome(exitCode: int, console: seq<Printed>)

  /**
   * Reads `sys.argv` (program name first). Without an image path it is a
   * usage error; otherwise it requests the image with the given language,
   * or "en" when none is given, mapped to the recognizer's name.
   */
  function ParseArgs(argv: seq<string>): (inv: Invocation)
    ensures inv.Usage? <==> |argv| < 2
    ensures inv.Request? ==> inv.imagePath == argv[1]
    ensures |argv| == 2 ==> inv.language == "en"
    ensures |argv| > 2 ==> inv.language == ToRecognizerLanguage(argv[2])
    ensures |argv| > 2 && argv[2] !in LanguageTable ==> inv.language == argv[2]
  {
    if |argv| < 2 then Usage
    else
      var lang := if |argv| > 2 then argv[2] else DefaultLanguage;
      Request(argv[1], ToRecognizerLanguage(lang))
  }

  /**
   * Where standard output points once `perform_ocr` returns, as the source
   * is written: it is sent to the null device before the recognizer is
   * built and put back only after the recognizer returns, so an exception
   * from the recognizer leaves it on the null device.
   */
  function StdoutAfterOcrAsWritten(raw: Raw): (s: Stream)
    ensures s == NullDevice <==> raw.Raised?
  {
    if raw.Raised? then NullDevice else Console
  }

  /**
   * The redirection of `perform_ocr` step by step, as written: stdout starts
   * on the console, is sent to the null device before the recognizer is
   * built, and is put back only once both recognizer calls have returned; an
   * exception from either call jumps straight to the handler.
   */
  method TrackStdoutAsWritten(raw: Raw) returns (stdout: Stream)
    ensures stdout == NullDevice <==> raw.Raised?
    ensures stdout == StdoutAfterOcrAsWritten(raw)
  {
    stdout := Console;
    stdout := NullDevice;
    if raw.Raised? {
      return;
    }
    stdout := Console;
  }

  /** What was printed on `stream`, as far as the caller can see it. */
  function Visible(stream: Stream, p: Printed): seq<Printed> {
    if stream == Console then [p] else []
  }

  /** `main` as written: the report goes wherever standard output was left pointing. */
  function RunAsWritten(argv: seq<string>, recognize: (string, string) -> Raw): (out: Outcome)
    ensures |argv| < 2 ==> out == Outcome(1, [UsageReport(UsageMessage)])
    ensures |argv| >= 2 ==> out.exitCode == 0
  {
    match ParseArgs(argv)
    case Usage => Outcome(1, [UsageReport(UsageMessage)])
    case Request(path, language) =>
      var raw := recognize(path, language);
      Outcome(0, Visible(StdoutAfterOcrAsWritten(raw), Report(Normalize(raw))))
  }

  /**
   * As written, when the recognizer raises, the failure document is printed
   * to the null device: the caller gets exit status 0 and no output at all.
   */
  lemma RecognizerFailureIsLost(argv: seq<string>, recognize: (string, string) -> Raw)
    requires |argv| >= 2
    requires recognize(ParseArgs(argv).imagePath, ParseArgs(argv).language).Raised?
    ensures RunAsWritten(argv, recognize) == Outcome(0, [])
  {
  }

  /**
   * `main` with standard output put back on every path out of `perform_ocr`
   * (as a `finally` block would), so the report always reaches the caller.
   */
  function Run(argv: seq<string>, recognize: (string, string) -> Raw): (out: Outcome)
    ensures |argv| < 2 ==> out == Outcome(1, [UsageReport(UsageMessage)])
    ensures |argv| >= 2 ==> out.exitCode == 0 && |out.console| == 1 && out.console[0].Report?
  {
    match ParseArgs(argv)
    case Usage => Outcome(1, [UsageReport(UsageMessage)])
    case Request(path, language) =>
      var raw := recognize(path, language);
      Outcome(0, [Report(Normalize(raw))])
  }

  /**
   * With the redirection undone on every path, a run with an image path
   * always shows the caller exactly one document: the normalised outcome of
   * recognising that image in the requested language, failures included.
   */
  lemma EveryRunIsReported(argv: seq<string>, recognize: (string, string) -> Raw)
    requires |argv| >= 2
    ensures var inv := ParseArgs(argv);
      Run(argv, recognize) == Outcome(0, [Report(Normalize(recognize(argv[1], inv.language)))])
  {
  }

  /**
   * In the corrected run, a recognizer failure reaches the caller as the
   * failure document with its message.
   */
  lemma RecognizerFailureIsReported(argv: seq<string>, recognize: (string, string) -> Raw, message: string)
    requires |argv| >= 2
    requires recognize(argv[1], ParseArgs(argv).language) == Raised(message)
    ensures Run(argv, recognize).console == [Report(Document(false, [], "", 0, Some(message)))]
  {
    EveryRunIsReported(argv, recognize);
  }

  /** Where the two versions differ: only the runs in which the recognizer raised. */
  lemma RunsDifferOnlyOnRaise(argv: seq<string>, recognize: (string, string) -> Raw)
    requires |argv| >= 2
    ensures RunAsWritten(argv, recognize) != Run(argv, recognize)
        <==> recognize(argv[1], ParseArgs(argv).language).Raised?
  {
  }
}
