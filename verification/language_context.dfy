/** The language context (contexts/LanguageContext.tsx): the three interface languages,
    the text direction, the preference kept in the browser's local storage under
    `adminLanguage`, and the lookup `t` with its fall-back to the key. The storage is a
    parameter: what was read from it, and what is written to it. */
module LanguageContext {
  import opened Basics

  datatype Language = En | Ar | Fr

  datatype Direction = Ltr | Rtl

  /** The language code stored and written to the page's `lang` attribute. */
  function Code(lang: Language): (code: string)
    ensures |code| == 2
    ensures lang == En ==> code == "en"
    ensures lang == Ar ==> code == "ar"
    ensures lang == Fr ==> code == "fr"
  {
    match lang
    case En => "en"
    case Ar => "ar"
    case Fr => "fr"
  }

  /** Reads a stored code back; anything other than the three codes is not a language. */
  function FromCode(code: string): (r: Option<Language>)
    ensures r.Some? <==> code in {"en", "ar", "fr"}
  {
    match code
    case "en" => Some(En)
    case "ar" => Some(Ar)
    case "fr" => Some(Fr)
    case _ => None
  }

  /** Codes are read back to the language they were written for. */
  lemma CodeRoundTrip(lang: Language)
    ensures FromCode(Code(lang)) == Some(lang)
  {
  }

  /** And a code that reads back is the code of the language it reads as. */
  lemma FromCodeRoundTrip(code: string)
    requires FromCode(code).Some?
    ensures Code(FromCode(code).value) == code
  {
  }

  /** The language the provider starts with and the one it settles on after reading the
      stored preference: English, unless the stored value is one of the three codes. */
  const InitialLanguage: Language := En

  function LoadSaved(saved: Option<string>): (lang: Language)
    ensures saved.Some? && saved.value in {"en", "ar", "fr"} ==> Code(lang) == saved.value
    ensures !(saved.Some? && saved.value in {"en", "ar", "fr"}) ==> lang == InitialLanguage
  {
    if saved.Some? && saved.value != "" then FromCode(saved.value).GetOr(InitialLanguage)
    else InitialLanguage
  }

  /** `dir`: right to left for Arabic only. */
  function Dir(lang: Language): (d: Direction)
    ensures d == Rtl <==> lang == Ar
  {
    if lang == Ar then Rtl else Ltr
  }

  function DirAttribute(d: Direction): string {
    match d
    case Ltr => "ltr"
    case Rtl => "rtl"
  }

  /** The page's `dir` and `lang` attributes once a language is in effect. */
  datatype DocumentAttributes = DocumentAttributes(dir: string, lang: string)

  function DocumentFor(lang: Language): (attrs: DocumentAttributes)
    ensures attrs.dir == "rtl" <==> lang == Ar
    ensures FromCode(attrs.lang) == Some(lang)
  {
    DocumentAttributes(DirAttribute(Dir(lang)), Code(lang))
  }

  /** `setLanguage`: the new language takes effect and its code is what is stored, so a
      reload restores the choice, and choosing the language in effect changes nothing. */
  datatype Preference = Preference(language: Language, stored: Option<string>)

  function SetLanguage(p: Preference, lang: Language): (r: Preference)
    ensures r.language == lang
    ensures r.stored == Some(Code(lang))
    ensures r.stored.Some? && LoadSaved(r.stored) == lang
  {
    Preference(lang, Some(Code(lang)))
  }

  // ---------------------------------------------------------------------------
  // Translation
  // ---------------------------------------------------------------------------

  /** One table of translated texts per language, by key. */
  datatype Translations = Translations(en: map<string, string>, ar: map<string, string>, fr: map<string, string>)

  function Table(tr: Translations, lang: Language): map<string, string> {
    match lang
    case En => tr.en
    case Ar => tr.ar
    case Fr => tr.fr
  }

  /** `t`: the text for the key in the current language; a missing key, and an empty
      text too, fall back to the key itself. */
  function Translate(tr: Translations, lang: Language, key: string): (text: string)
    ensures key in Table(tr, lang) && Table(tr, lang)[key] != "" ==> text == Table(tr, lang)[key]
    ensures !(key in Table(tr, lang) && Table(tr, lang)[key] != "") ==> text == key
  {
    var found := Lookup(Table(tr, lang), key);
    if found.Some? && found.value != "" then found.value else key
  }

  /** The lookup never yields the empty text for a non-empty key. */
  lemma TranslateNonEmpty(tr: Translations, lang: Language, key: string)
    requires key != ""
    ensures Translate(tr, lang, key) != ""
  {
  }

  /** What a screen writes into a label: a key looked up with `t`, or a literal text. */
  datatype Label = Key(key: string) | Raw(text: string)

  function Render(tr: Translations, lang: Language, l: Label): string {
    match l
    case Key(k) => Translate(tr, lang, k)
    case Raw(s) => s
  }
}
