/**
  The script the root layout runs before the first paint: it looks for a
  `theme` entry in `document.cookie` with `/(?:^|; )theme=([^;]+)/`, decodes
  its value, and adds the `light-mode` class for `light` and removes it for
  anything else. `decodeURIComponent` is a parameter returning `None` when it
  throws; the script's catch-all then leaves the class alone.
*/
module Layout {
  import opened Wrappers

  const Key: string := "theme="
  const Separator: string := "; "

  /** `theme=` at `k`, followed by at least one character other than `;`. */
  predicate KeyAt(c: string, k: nat) {
    && k + |Key| < |c|
    && c[k..k + |Key|] == Key
    && c[k + |Key|] != ';'
  }

  /** The pattern matches starting at `s`: `^` (only at 0) or `"; "`, then
      the key. */
  predicate MatchAt(c: string, s: nat) {
    || (s == 0 && KeyAt(c, 0))
    || (s + |Separator| <= |c| && c[s..s + |Separator|] == Separator && KeyAt(c, s + |Separator|))
  }

  /** Where the key of a match starting at `s` begins. */
  function KeyStart(c: string, s: nat): (k: nat)
    requires MatchAt(c, s)
    ensures KeyAt(c, k)
    ensures k == 0 || (k >= |Separator| && c[k - |Separator|..k] == Separator)
  {
    if s == 0 && KeyAt(c, 0) then 0 else s + |Separator|
  }

  /** The end of the run of characters other than `;` that starts at `j`. */
  function ValueEnd(c: string, j: nat): (e: nat)
    requires j <= |c|
    ensures j <= e <= |c|
    ensures forall i :: j <= i < e ==> c[i] != ';'
    ensures e < |c| ==> c[e] == ';'
    decreases |c| - j
  {
    if j == |c| || c[j] == ';' then j else ValueEnd(c, j + 1)
  }

  /** The captured group `([^;]+)` of a key at `k`: non-empty, free of `;`,
      and running up to the next `;` or the end of the string. */
  function ValueAt(c: string, k: nat): (v: string)
    requires KeyAt(c, k)
    ensures v != [] && ';' !in v
    ensures k + |Key| + |v| <= |c|
    ensures c[k..k + |Key| + |v|] == Key + v
    ensures k + |Key| + |v| < |c| ==> c[k + |Key| + |v|] == ';'
  {
    var start := k + |Key|;
    var v := c[start..ValueEnd(c, start)];
    assert c[k..start + |v|] == c[k..start] + v;
    v
  }

  /** The leftmost position at or after `from` where the pattern matches. */
  function FindMatch(c: string, from: nat): (at: Option<nat>)
    requires from <= |c|
    ensures at.None? <==> forall s :: from <= s < |c| ==> !MatchAt(c, s)
    ensures at.Some? ==> from <= at.value < |c| && MatchAt(c, at.value)
    ensures at.Some? ==> forall t :: from <= t < at.value ==> !MatchAt(c, t)
    decreases |c| - from
  {
    if from == |c| then None
    else if MatchAt(c, from) then Some(from)
    else FindMatch(c, from + 1)
  }

  /** `m ? m[1] : null` for `m = cookie.match(...)`: the value of the
      leftmost `theme` entry that starts the string or follows `"; "`. */
  function CookieTheme(cookie: string): (value: Option<string>)
    ensures value.None? <==> forall s :: 0 <= s < |cookie| ==> !MatchAt(cookie, s)
    ensures value.Some? ==> value.value != [] && ';' !in value.value
    ensures value.Some? ==>
      exists k: nat ::
        && KeyAt(cookie, k)
        && value.value == ValueAt(cookie, k)
        && (k == 0 || (k >= |Separator| && cookie[k - |Separator|..k] == Separator))
  {
    match FindMatch(cookie, 0)
    case None => None
    case Some(s) => Some(ValueAt(cookie, KeyStart(cookie, s)))
  }

  /** The leftmost entry wins: the value comes from the first position where
      the pattern matches. */
  lemma CookieThemeLeftmost(cookie: string, s: nat)
    requires s < |cookie| && MatchAt(cookie, s)
    requires forall t :: 0 <= t < s ==> !MatchAt(cookie, t)
    ensures CookieTheme(cookie) == Some(ValueAt(cookie, KeyStart(cookie, s)))
  {
    var at := FindMatch(cookie, 0);
    assert at.Some?;
    assert !(at.value < s) && !(s < at.value);
  }

  /** What the script does to the `light-mode` class. */
  datatype ClassChange = AddLightMode | RemoveLightMode | Unchanged

  /** The whole script: no entry means `'dark'`; a decoded `light` adds the
      class, any other decoded value removes it, and a value that cannot be
      decoded leaves the class as it was. */
  function ThemeScript(cookie: string, decode: string -> Option<string>): (change: ClassChange)
    ensures CookieTheme(cookie).None? ==> change == RemoveLightMode
    ensures change == AddLightMode <==>
      CookieTheme(cookie).Some? && decode(CookieTheme(cookie).value) == Some("light")
    ensures change == Unchanged <==>
      CookieTheme(cookie).Some? && decode(CookieTheme(cookie).value).None?
  {
    var m := CookieTheme(cookie);
    var theme := if m.Some? then decode(m.value) else Some("dark");
    match theme
    case None => Unchanged
    case Some(t) => if t == "light" then AddLightMode else RemoveLightMode
  }

  /** The class flag after the script. */
  function ApplyChange(change: ClassChange, lightMode: bool): (after: bool)
    ensures change == AddLightMode ==> after
    ensures change == RemoveLightMode ==> !after
    ensures change == Unchanged ==> after == lightMode
  {
    match change
    case AddLightMode => true
    case RemoveLightMode => false
    case Unchanged => lightMode
  }

  /** Without `theme=` at the start and without any `"; "` in the string
      there is no `theme` entry, so the script removes the class. */
  lemma NoEntryWithoutSeparator(c: string, decode: string -> Option<string>)
    requires !KeyAt(c, 0)
    requires forall i :: 0 <= i < |c| - 1 ==> !(c[i] == ';' && c[i + 1] == ' ')
    ensures CookieTheme(c).None?
    ensures ThemeScript(c, decode) == RemoveLightMode
  {
    forall s | 0 <= s < |c| ensures !MatchAt(c, s) {
      if s + |Separator| <= |c| {
        assert c[s..s + |Separator|][0] == c[s] && c[s..s + |Separator|][1] == c[s + 1];
      }
    }
  }

  /** `mytheme=light` does not set light mode: the key must start the
      string or follow `"; "`. */
  lemma KeyInsideNameDoesNotMatch(decode: string -> Option<string>)
    ensures ThemeScript("mytheme=light", decode) == RemoveLightMode
  {
    var c := "mytheme=light";
    assert c[0..|Key|][0] != Key[0];
    assert forall i :: 0 <= i < |c| ==> c[i] != ';';
    NoEntryWithoutSeparator(c, decode);
  }

  /** `a=1;theme=light` does not set light mode either: `;` without the
      space is not the separator. */
  lemma SeparatorWithoutSpaceDoesNotMatch(decode: string -> Option<string>)
    ensures ThemeScript("a=1;theme=light", decode) == RemoveLightMode
  {
    var c := "a=1;theme=light";
    assert c[0..|Key|][0] != Key[0];
    assert forall i :: 0 <= i < |c| && i != 3 ==> c[i] != ';';
    assert c[4] != ' ';
    NoEntryWithoutSeparator(c, decode);
  }

  /** `theme=;` has an empty value, which the pattern does not accept. */
  lemma EmptyValueMeansDark(decode: string -> Option<string>)
    ensures ThemeScript("theme=;", decode) == RemoveLightMode
  {
    var c := "theme=;";
    assert c[|Key|] == ';';
    assert forall i :: 0 <= i < |c| - 1 ==> c[i] != ';';
    NoEntryWithoutSeparator(c, decode);
  }

  /** With two entries the first one decides. */
  lemma LeftmostEntryWins(decode: string -> Option<string>)
    requires decode("light") == Some("light")
    ensures ThemeScript("theme=light; theme=dark", decode) == AddLightMode
  {
    var c := "theme=light; theme=dark";
    assert c[0..|Key|] == Key;
    assert KeyAt(c, 0) && MatchAt(c, 0) && KeyStart(c, 0) == 0;
    assert ValueEnd(c, 11) == 11;
    assert ValueEnd(c, 10) == 11;
    assert ValueEnd(c, 9) == 11;
    assert ValueEnd(c, 8) == 11;
    assert ValueEnd(c, 7) == 11;
    assert ValueEnd(c, 6) == 11;
    assert ValueAt(c, 0) == c[6..11] == "light";
    CookieThemeLeftmost(c, 0);
  }
}
