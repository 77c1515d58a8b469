/**
 * The translation context (src/contexts/LanguageContext.tsx): two
 * dictionaries, a current language that starts as English, and the lookup
 * `t(key)` that falls back to the key itself.
 */
module Language {
  import opened Wrappers

  datatype Language = En | De

  const EnTranslations: map<string, string> := map[
    "nav.projects" := "Projects",
    "nav.experience" := "Experience",
    "nav.contact" := "Contact",
    "hero.greeting.morning" := "Good morning",
    "hero.greeting.afternoon" := "Good afternoon",
    "hero.greeting.evening" := "Good evening",
    "hero.intro" := "I'm",
    "hero.description" := "A passionate software developer from Austria, specializing in modern web technologies and system programming.",
    "hero.viewProjects" := "View Projects",
    "hero.downloadCV" := "Download CV",
    "hero.location" := "Ansfelden, AT",
    "projects.title" := "Featured Projects",
    "projects.subtitle" := "Some of my recent work",
    "projects.viewAll" := "View All Projects",
    "projects.liveDemo" := "Live Demo",
    "projects.sourceCode" := "Source Code",
    "experience.title" := "Experience & Education",
    "experience.subtitle" := "My journey in software development",
    "contact.title" := "Get In Touch",
    "contact.subtitle" := "Let's build something amazing together",
    "contact.email" := "Send Email",
    "contact.github" := "GitHub Profile",
    "footer.madeWith" := "Made with",
    "footer.by" := "by",
    "common.loading" := "Loading...",
    "common.error" := "Something went wrong"
  ]

  const DeTranslations: map<string, string> := map[
    "nav.projects" := "Projekte",
    "nav.experience" := "Erfahrung",
    "nav.contact" := "Kontakt",
    "hero.greeting.morning" := "Guten Morgen",
    "hero.greeting.afternoon" := "Guten Tag",
    "hero.greeting.evening" := "Guten Abend",
    "hero.intro" := "Ich bin",
    "hero.description" := "Ein leidenschaftlicher Softwareentwickler aus Österreich, spezialisiert auf moderne Webtechnologien und Systemprogrammierung.",
    "hero.viewProjects" := "Projekte Ansehen",
    "hero.downloadCV" := "Lebenslauf Herunterladen",
    "hero.location" := "Ansfelden, AT",
    "projects.title" := "Ausgewählte Projekte",
    "projects.subtitle" := "Einige meiner neuesten Arbeiten",
    "projects.viewAll" := "Alle Projekte Ansehen",
    "projects.liveDemo" := "Live Demo",
    "projects.sourceCode" := "Quellcode",
    "experience.title" := "Erfahrung & Bildung",
    "experience.subtitle" := "Mein Weg in der Softwareentwicklung",
    "contact.title" := "Kontakt Aufnehmen",
    "contact.subtitle" := "Lass uns etwas Großartiges zusammen bauen",
    "contact.email" := "Email Senden",
    "contact.github" := "GitHub Profil",
    "footer.madeWith" := "Erstellt mit",
    "footer.by" := "von",
    "common.loading" := "Laden...",
    "common.error" := "Etwas ist schief gelaufen"
  ]

  /** `translations[language]`. */
  function Translations(lang: Language): (dict: map<string, string>)
    ensures dict.Keys == EnTranslations.Keys
  {
    SameKeys();
    match lang
    case En => EnTranslations
    case De => DeTranslations
  }

  /** `t(key)`: the current language's entry when it is present and non-empty (truthy), the key itself otherwise. */
  function T(lang: Language, key: string): (r: string)
    ensures key in Translations(lang) && Translations(lang)[key] != "" ==> r == Translations(lang)[key]
    ensures key !in Translations(lang) || Translations(lang)[key] == "" ==> r == key
  {
    var dict := Translations(lang);
    if key in dict && dict[key] != "" then dict[key] else key
  }

  /** The two dictionaries have the same keys. */
  lemma SameKeys()
    ensures EnTranslations.Keys == DeTranslations.Keys
  {
  }

  /** No entry is empty, so `t` returns the entry for every key the dictionaries have. */
  lemma NoEmptyEntries(lang: Language)
    ensures forall key :: key in Translations(lang) ==>
      Translations(lang)[key] != "" && T(lang, key) == Translations(lang)[key]
  {
  }

  /** "projects.error" differs from each dictionary key of its length at a known position. */
  lemma ErrorKeyIsMissing()
    ensures "projects.error" !in EnTranslations && "projects.error" !in DeTranslations
  {
    var missing := "projects.error";
    assert missing[0] == 'p' && missing[9] == 'e';
    assert "common.loading"[0] == 'c' && "contact.github"[0] == 'c' && "nav.experience"[0] == 'n';
    assert "projects.title"[9] == 't';
  }

  /** No dictionary key is as long as "projects.allProjects". */
  lemma AllProjectsKeyIsMissing()
    ensures "projects.allProjects" !in EnTranslations && "projects.allProjects" !in DeTranslations
  {
  }

  /** Keys the pages use but no dictionary defines come back unchanged in both languages. */
  lemma MissingKeysFallBack(lang: Language)
    ensures T(lang, "projects.error") == "projects.error"
    ensures T(lang, "projects.allProjects") == "projects.allProjects"
  {
    ErrorKeyIsMissing();
    AllProjectsKeyIsMissing();
  }

  /** The value `LanguageContext` provides, of which only the language is state. */
  datatype ContextValue = ContextValue(language: Language)

  const NoProviderMessage: string := "useLanguage must be used within a LanguageProvider"

  /** `useLanguage()`: the provided value, or the error it throws outside a provider. */
  function UseLanguage(context: Option<ContextValue>): (r: Result<ContextValue, string>)
    ensures context.Some? <==> r.Success?
    ensures context.Some? ==> r.value == context.value
    ensures context.None? ==> r.error == NoProviderMessage
  {
    match context
    case Some(value) => Success(value)
    case None => Failure(NoProviderMessage)
  }

  /** The state `LanguageProvider` keeps with `useState`. */
  class LanguageProvider {
    var language: Language

    constructor ()
      ensures language == En
    {
      language := En;
    }

    method SetLanguage(lang: Language)
      modifies this
      ensures language == lang
    {
      language := lang;
    }

    /** `t` as the provider hands it out: the current language's entry for a known key, the key itself otherwise. */
    function Translate(key: string): (r: string)
      reads this
      ensures key in Translations(language) ==> r == Translations(language)[key] && r != ""
      ensures key !in Translations(language) ==> r == key
    {
      NoEmptyEntries(language);
      T(language, key)
    }
  }
}
