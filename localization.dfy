/** Country and station names for display (src/utils/localization.ts).
    `Intl.DisplayNames` is outside the model: its `of` lookup comes in as a
    function per language that may find a name, find none, or throw. */
module Localization {
  import opened JsBuiltins
  import opened Stations

  /** What `regionNames.of(code)` does for one code. */
  datatype DisplayName = Named(text: string) | Unnamed | Throws

  /** The display-name lookup for the interface language. */
  function RegionName(code: string, lang: Lang, regionNamesZh: string -> DisplayName,
                  regionNamesEn: string -> DisplayName): DisplayName {
    if lang == Zh then regionNamesZh(code) else regionNamesEn(code)
  }

  /** The country name shown for a country code, with the station's own
      country name as fallback. */
  function GetCountryName(code: string, name: string, lang: Lang,
                          regionNamesZh: string -> DisplayName,
                          regionNamesEn: string -> DisplayName): (r: string)
    ensures code == "" ==> r == name
    ensures code == "TW" ==> r == (if lang == Zh then "中国" else "China")
    ensures code != "" && code != "TW" ==>
      r == name || (r != "" && RegionName(code, lang, regionNamesZh, regionNamesEn) == Named(r))
    ensures code != "" && code != "TW" && RegionName(code, lang, regionNamesZh, regionNamesEn).Throws? ==>
      r == name
    ensures var found := RegionName(code, lang, regionNamesZh, regionNamesEn);
      code != "" && code != "TW" && found.Named? && found.text != "" ==> r == found.text
    ensures var found := RegionName(code, lang, regionNamesZh, regionNamesEn);
      code != "" && code != "TW" && (found.Unnamed? || found == Named("")) ==> r == name
    ensures name != "" ==> r != ""
  {
    if code == "" then name
    else if code == "TW" then (if lang == Zh then "中国" else "China")
    else
      match RegionName(code, lang, regionNamesZh, regionNamesEn)
      case Named(text) => if text != "" then text else name
      case Unnamed => name
      case Throws => name
  }

  /** The `\w` class of a non-Unicode regular expression. */
  predicate IsWordChar(c: char) {
    IsAsciiLetter(c) || '0' <= c <= '9' || c == '_'
  }

  /** `\b` at position `i`: exactly one of the characters around it is a
      word character. */
  predicate Boundary(s: string, i: nat)
    requires i <= |s|
  {
    (i > 0 && IsWordChar(s[i - 1])) != (i < |s| && IsWordChar(s[i]))
  }

  /** A word to replace: it starts with an ASCII letter. */
  type Word = w: string | |w| > 0 && IsAsciiLetter(w[0]) witness "a"

  /** `/\bword\b/i` matches at position `i`. Letters compare without case;
      the words are ASCII, and a non-ASCII character never matches an ASCII
      one under `i` without `u`. */
  predicate WordAt(s: string, word: Word, i: nat)
    requires i <= |s|
  {
    i + |word| <= |s| &&
    Boundary(s, i) &&
    (forall k | 0 <= k < |word| :: LowerChar(s[i + k]) == LowerChar(word[k])) &&
    Boundary(s, i + |word|)
  }

  /** `s.replace(/\bword\b/gi, rep)` on the part of `s` from `i` on: the scan
      goes left to right and resumes after each match. */
  function ReplaceWordFrom(s: string, word: Word, rep: string, i: nat): string
    requires i <= |s|
    decreases |s| - i
  {
    if i == |s| then ""
    else if WordAt(s, word, i) then rep + ReplaceWordFrom(s, word, rep, i + |word|)
    else [s[i]] + ReplaceWordFrom(s, word, rep, i + 1)
  }

  function ReplaceWord(s: string, word: Word, rep: string): string {
    ReplaceWordFrom(s, word, rep, 0)
  }

  datatype Rule = Rule(word: Word, replacement: string)

  /** The replacements, in the order they are chained. */
  const STATION_WORDS: seq<Rule> := [
    Rule("Radio", "电台"),
    Rule("Station", "广播站"),
    Rule("News", "新闻"),
    Rule("Classical", "古典"),
    Rule("Jazz", "爵士"),
    Rule("Rock", "摇滚"),
    Rule("Pop", "流行"),
    Rule("Hits", "金曲"),
    Rule("Public", "公共"),
    Rule("International", "国际"),
    Rule("Voice of", "之声 - "),
    Rule("Live", "直播"),
    Rule("Network", "网络"),
    Rule("Channel", "频道"),
    Rule("Music", "音乐"),
    Rule("Fm", "调频"),
    Rule("Am", "调幅")
  ]

  /** The chain of replacements, first rule first. */
  function ApplyRules(s: string, rules: seq<Rule>): string
    decreases |rules|
  {
    if rules == [] then s
    else ApplyRules(ReplaceWord(s, rules[0].word, rules[0].replacement), rules[1..])
  }

  /** The station name shown in the interface: in Chinese, the translated
      name followed by the original in parentheses, or the name itself when
      no rule changed it. */
  function GetLocalizedStationName(name: string, lang: Lang): (r: string)
    ensures lang == En ==> r == name
    ensures lang == Zh ==> (r == name <==> ApplyRules(name, STATION_WORDS) == name)
    ensures lang == Zh && r != name ==> r == ApplyRules(name, STATION_WORDS) + " (" + name + ")"
  {
    if lang == En then name
    else
      var localized := ApplyRules(name, STATION_WORDS);
      if localized != name then localized + " (" + name + ")" else name
  }

  predicate NoAsciiLetters(s: string) {
    forall k | 0 <= k < |s| :: !IsAsciiLetter(s[k])
  }

  /** Without matches from `i` on, the scan copies the rest of the string. */
  lemma {:induction false} ReplaceWordFromNoMatch(s: string, word: Word, rep: string, i: nat)
    requires i <= |s|
    requires forall j | i <= j < |s| :: !WordAt(s, word, j)
    ensures ReplaceWordFrom(s, word, rep, i) == s[i..]
    decreases |s| - i
  {
    if i < |s| {
      ReplaceWordFromNoMatch(s, word, rep, i + 1);
    }
  }

  /** A word starting with a letter cannot match where there is no letter. */
  lemma NoWordWithoutLetters(s: string, word: Word, j: nat)
    requires NoAsciiLetters(s) && j <= |s|
    ensures !WordAt(s, word, j)
  {
    if j + |word| <= |s| {
      assert !IsAsciiLetter(s[j + 0]);
    }
  }

  lemma {:induction false} ApplyRulesWithoutLetters(s: string, rules: seq<Rule>)
    requires NoAsciiLetters(s)
    ensures ApplyRules(s, rules) == s
    decreases |rules|
  {
    if rules != [] {
      var word := rules[0].word;
      forall j | 0 <= j < |s|
        ensures !WordAt(s, word, j)
      {
        NoWordWithoutLetters(s, word, j);
      }
      ReplaceWordFromNoMatch(s, word, rules[0].replacement, 0);
      ApplyRulesWithoutLetters(s, rules[1..]);
    }
  }

  /** A name without ASCII letters is shown unchanged. */
  lemma NameWithoutLettersUnchanged(name: string, lang: Lang)
    requires NoAsciiLetters(name)
    ensures GetLocalizedStationName(name, lang) == name
  {
    ApplyRulesWithoutLetters(name, STATION_WORDS);
  }

  /** Matching ignores case but needs word boundaries: "radio" matches in
      "My radio", not at the start of "Radiohead". */
  lemma WholeWordMatching()
    ensures WordAt("My radio", "Radio", 3)
    ensures !WordAt("Radiohead", "Radio", 0)
  {
    assert "Radiohead"[5] == 'h';
  }
}
