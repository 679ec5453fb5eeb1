/**
 * The mapping in `main` from common language codes to the identifiers the
 * recognizer expects: a fixed table, with unknown codes passed through.
 */
module Languages {

  /** The language used when none is given on the command line. */
  const DefaultLanguage := "en"

  /** `lang_map`: twelve common codes and the recognizer's names for them. */
  const LanguageTable: map<string, string> := map[
    "eng" := "en",
    "fra" := "french",
    "deu" := "german",
    "spa" := "spanish",
    "por" := "portuguese",
    "ita" := "italian",
    "jpn" := "japan",
    "kor" := "korean",
    "chi_sim" := "ch",
    "chi_tra" := "chinese_cht",
    "ara" := "arabic",
    "rus" := "cyrillic"
  ]

  /** `lang_map.get(lang, lang)`: the table's value for a listed code, the code itself otherwise. */
  function ToRecognizerLanguage(code: string): (r: string)
    ensures code in LanguageTable ==> r == LanguageTable[code]
    ensures code !in LanguageTable ==> r == code
  {
    if code in LanguageTable then LanguageTable[code] else code
  }

  /** Each of the twelve listed codes maps to its table value. */
  lemma ListedCodes()
    ensures ToRecognizerLanguage("eng") == "en"
    ensures ToRecognizerLanguage("fra") == "french"
    ensures ToRecognizerLanguage("deu") == "german"
    ensures ToRecognizerLanguage("spa") == "spanish"
    ensures ToRecognizerLanguage("por") == "portuguese"
    ensures ToRecognizerLanguage("ita") == "italian"
    ensures ToRecognizerLanguage("jpn") == "japan"
    ensures ToRecognizerLanguage("kor") == "korean"
    ensures ToRecognizerLanguage("chi_sim") == "ch"
    ensures ToRecognizerLanguage("chi_tra") == "chinese_cht"
    ensures ToRecognizerLanguage("ara") == "arabic"
    ensures ToRecognizerLanguage("rus") == "cyrillic"
  {
  }

  /** No recognizer name in the table is itself a listed code. */
  lemma TableValuesAreNotCodes(code: string)
    requires code in LanguageTable
    ensures LanguageTable[code] !in LanguageTable
  {
  }

  /**
   * Mapping is idempotent: a code that is already a recognizer name, such
   * as the default "en", is passed through unchanged.
   */
  lemma MappingIsIdempotent(code: string)
    ensures ToRecognizerLanguage(ToRecognizerLanguage(code)) == ToRecognizerLanguage(code)
  {
    if code in LanguageTable {
      TableValuesAreNotCodes(code);
    }
  }
}
