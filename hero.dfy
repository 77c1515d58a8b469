/**
 * The greeting of the hero section (src/components/sections/Hero.tsx): the
 * hour of day picks one of three translation keys. The clock is the
 * parameter `hour` (what `new Date().getHours()` returns).
 */
module Hero {
  import Language

  const MorningKey: string := "hero.greeting.morning"
  const AfternoonKey: string := "hero.greeting.afternoon"
  const EveningKey: string := "hero.greeting.evening"

  /** The key chosen for `hour`: before noon morning, before six in the evening afternoon, evening after that. */
  function GreetingKey(hour: int): (k: string)
    ensures hour < 12 ==> k == MorningKey
    ensures 12 <= hour < 18 ==> k == AfternoonKey
    ensures 18 <= hour ==> k == EveningKey
  {
    if hour < 12 then MorningKey
    else if hour < 18 then AfternoonKey
    else EveningKey
  }

  /** The three keys are different, so each hour selects exactly one of them. */
  lemma GreetingKeyExactlyOne(hour: int)
    ensures GreetingKey(hour) == MorningKey <==> hour < 12
    ensures GreetingKey(hour) == AfternoonKey <==> 12 <= hour < 18
    ensures GreetingKey(hour) == EveningKey <==> 18 <= hour
  {
    assert MorningKey[14] == 'm' && EveningKey[14] == 'e';
    assert |AfternoonKey| != |MorningKey| && |AfternoonKey| != |EveningKey|;
  }

  /** The greeting shown: `t` applied to the chosen key. */
  function Greeting(lang: Language.Language, hour: int): (g: string)
    ensures g == Language.Translations(lang)[GreetingKey(hour)]
    ensures g != ""
  {
    Language.NoEmptyEntries(lang);
    Language.T(lang, GreetingKey(hour))
  }

  /** All three keys are in both dictionaries, so the greeting is always a translation and never the raw key. */
  lemma GreetingIsTranslated(lang: Language.Language, hour: int)
    ensures GreetingKey(hour) in Language.Translations(lang)
    ensures Greeting(lang, hour) == Language.Translations(lang)[GreetingKey(hour)]
    ensures Greeting(lang, hour) != GreetingKey(hour)
  {
    Language.NoEmptyEntries(lang);
  }

  /** The English greetings hour by hour. */
  lemma EnglishGreetings(hour: int)
    ensures hour < 12 ==> Greeting(Language.En, hour) == "Good morning"
    ensures 12 <= hour < 18 ==> Greeting(Language.En, hour) == "Good afternoon"
    ensures 18 <= hour ==> Greeting(Language.En, hour) == "Good evening"
  {
  }
}
