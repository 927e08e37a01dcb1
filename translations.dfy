/** Tag and language display names (src/utils/translations.ts). The two
    lookup tables are object literals, kept here as their entries in
    declaration order. */
module Translations {
  import opened JsBuiltins
  import opened Stations

  /** A display name; every value in both tables is non-empty, so
      `TABLE[key] || fallback` takes the fallback only for a missing key. */
  type Name = s: string | s != "" witness "?"

  datatype Label = Label(text: Name)

  const LANGUAGE_MAP: seq<(string, Label)> := [
    ("english", Label("英语")),
    ("spanish", Label("西班牙语")),
    ("french", Label("法语")),
    ("german", Label("德语")),
    ("italian", Label("意大利语")),
    ("chinese", Label("中文")),
    ("mandarin", Label("普通话")),
    ("cantonese", Label("粤语")),
    ("russian", Label("俄语")),
    ("japanese", Label("日语")),
    ("korean", Label("韩语")),
    ("portuguese", Label("葡萄牙语")),
    ("dutch", Label("荷兰语")),
    ("polish", Label("波兰语")),
    ("turkish", Label("土耳其语")),
    ("arabic", Label("阿拉伯语")),
    ("hindi", Label("印地语")),
    ("greek", Label("希腊语")),
    ("swedish", Label("瑞典语")),
    ("norwegian", Label("挪威语")),
    ("danish", Label("丹麦语")),
    ("finnish", Label("芬兰语")),
    ("ukrainian", Label("乌克兰语")),
    ("thai", Label("泰语")),
    ("vietnamese", Label("越南语")),
    ("indonesian", Label("印尼语")),
    ("hungarian", Label("匈牙利语")),
    ("czech", Label("捷克语")),
    ("romanian", Label("罗马尼亚语")),
    ("persian", Label("波斯语")),
    ("farsi", Label("波斯语")),
    ("serbian", Label("塞尔维亚语")),
    ("croatian", Label("克罗地亚语"))
  ]

  const GENRE_MAP: seq<(string, Label)> := [
    ("pop", Label("流行")),
    ("rock", Label("摇滚")),
    ("jazz", Label("爵士")),
    ("classical", Label("古典")),
    ("news", Label("新闻")),
    ("talk", Label("谈话")),
    ("electronic", Label("电子")),
    ("dance", Label("舞曲")),
    ("house", Label("浩室")),
    ("techno", Label("特克诺")),
    ("trance", Label("出神")),
    ("ambient", Label("氛围")),
    ("chillout", Label("放松")),
    ("lounge", Label("休闲")),
    ("hip hop", Label("嘻哈")),
    ("rap", Label("说唱")),
    ("rnb", Label("R&B")),
    ("soul", Label("灵魂乐")),
    ("funk", Label("放克")),
    ("disco", Label("迪斯科")),
    ("blues", Label("蓝调")),
    ("country", Label("乡村")),
    ("folk", Label("民谣")),
    ("latin", Label("拉丁")),
    ("reggae", Label("雷鬼")),
    ("metal", Label("金属")),
    ("punk", Label("朋克")),
    ("indie", Label("独立音乐")),
    ("alternative", Label("另类")),
    ("oldies", Label("怀旧")),
    ("80s", Label("80年代")),
    ("90s", Label("90年代")),
    ("00s", Label("00年代")),
    ("70s", Label("70年代")),
    ("top 40", Label("榜单金曲")),
    ("hits", Label("热歌")),
    ("adult contemporary", Label("成人当代")),
    ("christian", Label("基督教")),
    ("gospel", Label("福音")),
    ("islamic", Label("伊斯兰")),
    ("culture", Label("文化")),
    ("sport", Label("体育")),
    ("education", Label("教育")),
    ("kids", Label("儿童")),
    ("student", Label("校园")),
    ("variety", Label("综艺")),
    ("world", Label("世界音乐")),
    ("soundtrack", Label("原声")),
    ("instrumental", Label("纯音乐")),
    ("easy listening", Label("轻音乐")),
    ("community", Label("社区")),
    ("public radio", Label("公共广播")),
    ("college", Label("高校")),
    ("weather", Label("天气")),
    ("traffic", Label("交通")),
    ("politics", Label("政治")),
    ("comedy", Label("喜剧")),
    ("drama", Label("戏剧")),
    ("business", Label("商业")),
    ("finance", Label("金融")),
    ("technology", Label("科技")),
    ("science", Label("科学"))
  ]

  /** `TABLE[key] || fallback` on one of the string tables. */
  function LookupOr(table: seq<(string, Label)>, key: string, fallback: string): (r: string)
    ensures (forall i | 0 <= i < |table| :: table[i].0 != key) ==> r == fallback
    ensures (exists i | 0 <= i < |table| :: table[i].0 == key) ==> exists i | 0 <= i < |table| :: table[i].0 == key && table[i].1.text == r
  {
    var found := Lookup(table, key);
    if found.Some? && found.value.text != "" then found.value.text else fallback
  }

  /** The normalised tag `getLocalizedTag` looks up: lowercased, then trimmed. */
  function TagKey(tag: string): string {
    Trim(ToLower(tag))
  }

  /** In English the tag is shown as is; in Chinese a tag whose normalised
      form is a genre key shows that genre's name, any other tag is shown
      as is (untrimmed). */
  function GetLocalizedTag(tag: string, lang: Lang): (r: string)
    ensures lang == En ==> r == tag
    ensures lang == Zh && (exists i | 0 <= i < |GENRE_MAP| :: GENRE_MAP[i].0 == TagKey(tag)) ==>
      exists i | 0 <= i < |GENRE_MAP| :: GENRE_MAP[i].0 == TagKey(tag) && GENRE_MAP[i].1.text == r
    ensures lang == Zh && (forall i | 0 <= i < |GENRE_MAP| :: GENRE_MAP[i].0 != TagKey(tag)) ==> r == tag
  {
    if lang == En then tag else LookupOr(GENRE_MAP, TagKey(tag), tag)
  }

  /** One comma-separated part of a language string, trimmed then lowercased. */
  function LanguageKey(part: string): string {
    ToLower(Trim(part))
  }

  /** The display segments of a language string: one per comma-separated
      part, each translated or kept in its normalised form. */
  function LanguageSegments(s: string): (segs: seq<string>)
    ensures |segs| == |Split(s, ',')|
  {
    var parts := Split(s, ',');
    seq(|parts|, k requires 0 <= k < |parts| => LookupOr(LANGUAGE_MAP, LanguageKey(parts[k]), LanguageKey(parts[k])))
  }

  function GetLocalizedLanguage(s: string, lang: Lang): (r: string)
    ensures s == "" ==> r == ""
    ensures s != "" && lang == En ==> r == s
  {
    if s == "" then ""
    else if lang == En then s
    else Join(LanguageSegments(s), " / ")
  }

  /** There are as many segments as comma-separated parts: one more than
      the number of commas. */
  lemma SegmentCount(s: string)
    ensures |LanguageSegments(s)| == CountChar(s, ',') + 1
  {
    SplitCount(s, ',');
  }

  /** Each segment is the table's name for its part, or the part in its
      normalised form when the table has no such key. */
  lemma SegmentMeaning(s: string, k: nat)
    requires k < |Split(s, ',')|
    ensures var key := LanguageKey(Split(s, ',')[k]);
      var seg := LanguageSegments(s)[k];
      ((exists i | 0 <= i < |LANGUAGE_MAP| :: LANGUAGE_MAP[i].0 == key) ==>
         exists i | 0 <= i < |LANGUAGE_MAP| :: LANGUAGE_MAP[i].0 == key && LANGUAGE_MAP[i].1.text == seg) &&
      ((forall i | 0 <= i < |LANGUAGE_MAP| :: LANGUAGE_MAP[i].0 != key) ==> seg == key)
  {
  }

  /** A language string without commas becomes its own single translation. */
  lemma SingleLanguage(s: string)
    requires s != "" && ',' !in s
    ensures GetLocalizedLanguage(s, Zh) == LookupOr(LANGUAGE_MAP, LanguageKey(s), LanguageKey(s))
  {
    SplitNoSeparator(s, ',');
  }

  /** Lowercasing leaves whitespace alone, so it commutes with trimming: the
      tag and the language normalisations agree. */
  lemma LowerKeepsWhitespace(c: char)
    ensures IsJsWhitespace(LowerChar(c)) == IsJsWhitespace(c)
  {
  }

  lemma {:induction false} TrimStartLower(s: string)
    ensures TrimStart(ToLower(s)) == ToLower(TrimStart(s))
    decreases |s|
  {
    if s != [] {
      LowerKeepsWhitespace(s[0]);
      if IsJsWhitespace(s[0]) {
        assert ToLower(s)[1..] == ToLower(s[1..]);
        TrimStartLower(s[1..]);
      }
    }
  }

  lemma {:induction false} TrimEndLower(s: string)
    ensures TrimEnd(ToLower(s)) == ToLower(TrimEnd(s))
    decreases |s|
  {
    if s != [] {
      var last := |s| - 1;
      LowerKeepsWhitespace(s[last]);
      if IsJsWhitespace(s[last]) {
        assert ToLower(s)[..last] == ToLower(s[..last]);
        TrimEndLower(s[..last]);
      }
    }
  }

  lemma NormalisationsAgree(s: string)
    ensures TagKey(s) == LanguageKey(s)
  {
    TrimStartLower(s);
    TrimEndLower(TrimStart(s));
  }
}
