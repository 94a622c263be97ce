/** Display names of language codes, used to label context examples. */
module LanguageNames {

  /** The static table of 21 codes; English is deliberately not in it. */
  const LanguageTable: map<string, string> := map[
    "es" := "Spanish",
    "fr" := "French",
    "de" := "German",
    "it" := "Italian",
    "pt" := "Portuguese",
    "ja" := "Japanese",
    "ko" := "Korean",
    "zh" := "Chinese",
    "ar" := "Arabic",
    "hi" := "Hindi",
    "ur" := "Urdu",
    "ru" := "Russian",
    "nl" := "Dutch",
    "sv" := "Swedish",
    "no" := "Norwegian",
    "da" := "Danish",
    "pl" := "Polish",
    "tr" := "Turkish",
    "he" := "Hebrew",
    "th" := "Thai",
    "vi" := "Vietnamese"
  ]

  /** The display name of `code`, or the code itself when it is not tabled.
      A tabled name never equals its code, so the result echoes the code
      exactly when the lookup fell back. */
  function GetLanguageName(code: string): (name: string)
    ensures code in LanguageTable ==> name == LanguageTable[code]
    ensures name == code <==> code !in LanguageTable
  {
    if code in LanguageTable then LanguageTable[code] else code
  }

  /** English is not tabled, so its name falls back to the code itself. */
  lemma EnglishFallsBack()
    ensures GetLanguageName("en") == "en"
    ensures GetLanguageName("es") == "Spanish"
  {
  }
}
