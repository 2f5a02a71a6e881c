/** The live drivers list beside the map (components/DriversMap.tsx): the presence dot and
    the presence text of each driver. */
module DriversMap {
  import opened LanguageContext

  /** The three states a listed driver is shown in. */
  datatype Presence = Offline | Available | Busy

  /** Offline wins over availability: an offline driver is offline whatever the
      availability flag says. */
  function PresenceOf(isOnline: bool, isAvailable: bool): (p: Presence)
    ensures p == Offline <==> !isOnline
    ensures p == Available <==> isOnline && isAvailable
    ensures p == Busy <==> isOnline && !isAvailable
  {
    if !isOnline then Offline else if isAvailable then Available else Busy
  }

  /** `getStatusColor`: gray, green or yellow. */
  function GetStatusColor(isOnline: bool, isAvailable: bool): (r: string)
    ensures r == "bg-gray-500" <==> !isOnline
    ensures r == "bg-green-500" <==> isOnline && isAvailable
    ensures r == "bg-yellow-500" <==> isOnline && !isAvailable
  {
    if !isOnline then "bg-gray-500"
    else if isAvailable then "bg-green-500"
    else "bg-yellow-500"
  }

  /** `getStatusText`: the translated "offline" and "online" texts, and the word "Busy",
      which is written in English in every language. */
  function GetStatusText(isOnline: bool, isAvailable: bool): (l: Label)
    ensures l == Key("drivers.offline") <==> !isOnline
    ensures l == Key("drivers.online") <==> isOnline && isAvailable
    ensures l == Raw("Busy") <==> isOnline && !isAvailable
  {
    if !isOnline then Key("drivers.offline")
    else if isAvailable then Key("drivers.online")
    else Raw("Busy")
  }

  function PresenceColor(p: Presence): string {
    match p
    case Offline => "bg-gray-500"
    case Available => "bg-green-500"
    case Busy => "bg-yellow-500"
  }

  function PresenceText(p: Presence): Label {
    match p
    case Offline => Key("drivers.offline")
    case Available => Key("drivers.online")
    case Busy => Raw("Busy")
  }

  /** The dot and the text always describe the same presence. */
  lemma ColorAndTextAgree(isOnline: bool, isAvailable: bool)
    ensures GetStatusColor(isOnline, isAvailable) == PresenceColor(PresenceOf(isOnline, isAvailable))
    ensures GetStatusText(isOnline, isAvailable) == PresenceText(PresenceOf(isOnline, isAvailable))
  {
  }

  /** Distinct presences get distinct dots, so the colour alone tells them apart. */
  lemma PresenceColorInjective(p: Presence, q: Presence)
    requires PresenceColor(p) == PresenceColor(q)
    ensures p == q
  {
  }

  /** A busy driver reads "Busy" whatever language is chosen. */
  lemma BusyIsNotTranslated(tr: Translations, lang: Language)
    ensures Render(tr, lang, GetStatusText(true, false)) == "Busy"
  {
  }
}
