/**
 * DeviceCollector.getBrowserInfo: an ordered chain of substring tests on the user agent
 * picks one of five names, formatted together with the language as "name (language)".
 */
module Browser {
  import opened Wrappers
  import opened JsStrings

  datatype BrowserName = Chrome | Firefox | Safari | Edge | Other

  /** The branches of getBrowserInfo, tested in the order they are written. */
  function Classify(ua: JsString): BrowserName
  {
    if Contains(ua, Units("Chrome")) && !Contains(ua, Units("Edg")) then Chrome
    else if Contains(ua, Units("Firefox")) then Firefox
    else if Contains(ua, Units("Safari")) && !Contains(ua, Units("Chrome")) then Safari
    else if Contains(ua, Units("Edg")) then Edge
    else Other
  }

  /** The name each branch assigns to browserName. */
  function NameText(name: BrowserName): JsString
  {
    match name
    case Chrome => Units("Chrome")
    case Firefox => Units("Firefox")
    case Safari => Units("Safari")
    case Edge => Units("Edge")
    case Other => Units("其他浏览器")
  }

  /** getBrowserInfo's result: `${browserName} (${navigator.language})`. */
  function BrowserInfo(ua: JsString, language: JsString): JsString
  {
    NameText(Classify(ua)) + Units(" (") + language + Units(")")
  }

  /** The word `w` occurs somewhere in the user agent. */
  ghost predicate Mentions(ua: JsString, w: string)
  {
    exists i :: OccursAt(ua, Units(w), i)
  }

  /**
   * Which name a user agent gets, stated by the words it mentions: Chrome needs "Chrome"
   * without "Edg"; Firefox needs "Firefox" unless Chrome already won; Safari needs "Safari"
   * with neither "Chrome" nor "Firefox"; Edge needs "Edg" without "Firefox" and with "Chrome"
   * whenever "Safari" is present (the shape of a Chromium Edge user agent); and only a user
   * agent mentioning none of the four words is Other.
   */
  lemma ClassifyByWords(ua: JsString)
    ensures Classify(ua) == Chrome <==> Mentions(ua, "Chrome") && !Mentions(ua, "Edg")
    ensures Classify(ua) == Firefox <==> Mentions(ua, "Firefox") && !(Mentions(ua, "Chrome") && !Mentions(ua, "Edg"))
    ensures Classify(ua) == Safari <==> Mentions(ua, "Safari") && !Mentions(ua, "Chrome") && !Mentions(ua, "Firefox")
    ensures Classify(ua) == Edge <==>
              Mentions(ua, "Edg") && !Mentions(ua, "Firefox") && (Mentions(ua, "Safari") ==> Mentions(ua, "Chrome"))
    ensures Classify(ua) == Other <==>
              !Mentions(ua, "Chrome") && !Mentions(ua, "Firefox") && !Mentions(ua, "Safari") && !Mentions(ua, "Edg")
  {
    ContainsAt(ua, Units("Chrome"));
    ContainsAt(ua, Units("Edg"));
    ContainsAt(ua, Units("Firefox"));
    ContainsAt(ua, Units("Safari"));
  }

  /** The "name (" prefix of a description, when `s` starts with it and ends with ")". */
  function LanguageAfter(s: JsString, name: BrowserName): Option<JsString>
  {
    var p := NameText(name) + Units(" (");
    if |p| < |s| && s[..|p|] == p && s[|s| - 1] == ')' as int then Some(s[|p|..|s| - 1]) else None
  }

  /** Reads a browser description back into the name and the language it was made from. */
  function ParseBrowserInfo(s: JsString): Option<(BrowserName, JsString)>
  {
    if LanguageAfter(s, Chrome).Some? then Some((Chrome, LanguageAfter(s, Chrome).value))
    else if LanguageAfter(s, Firefox).Some? then Some((Firefox, LanguageAfter(s, Firefox).value))
    else if LanguageAfter(s, Safari).Some? then Some((Safari, LanguageAfter(s, Safari).value))
    else if LanguageAfter(s, Edge).Some? then Some((Edge, LanguageAfter(s, Edge).value))
    else if LanguageAfter(s, Other).Some? then Some((Other, LanguageAfter(s, Other).value))
    else None
  }

  /** No two names start with the same code unit. */
  lemma DistinctInitials(m: BrowserName, n: BrowserName)
    requires m != n
    ensures NameText(m)[0] != NameText(n)[0]
  {
  }

  /** A description always has the form "name (language)": parsing it recovers the name and the language. */
  lemma BrowserInfoRoundTrip(ua: JsString, language: JsString)
    ensures ParseBrowserInfo(BrowserInfo(ua, language)) == Some((Classify(ua), language))
  {
    var n := Classify(ua);
    var s := BrowserInfo(ua, language);
    var p := NameText(n) + Units(" (");
    assert s == p + language + Units(")");
    assert s[..|p|] == p;
    assert s[|p|..|s| - 1] == language;
    assert LanguageAfter(s, n) == Some(language);
    forall m | m != n
      ensures LanguageAfter(s, m).None?
    {
      DistinctInitials(m, n);
      var q := NameText(m) + Units(" (");
      assert q[0] == NameText(m)[0];
      assert s[0] == NameText(n)[0];
    }
  }
}
