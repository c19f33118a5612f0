/**
  The field cleaning that turns one NewsAPI result plus the keywords the
  page scraper found into a `Headline`, and the JSON-ready dictionary a
  headline is rendered as (news/headline.py).
 */
module Headline {
  import opened Wrappers
  import opened PyBuiltins

  // ---------------------------------------------------------- clean_string

  /** `str(x)` for a JSON string field: a missing (null) field becomes the
      text "None". */
  function Str(x: Option<string>): string {
    match x
    case Some(s) => s
    case None => "None"
  }

  /** Where the non-greedy match of `<.*?>` that opened just before `k` ends:
      the first `'>'` from `k` on, unless a line feed comes first (`.` does
      not match a line feed). */
  function TagEnd(s: string, k: nat): (r: Option<nat>)
    requires k <= |s|
    ensures r.Some? ==> k <= r.value < |s| && s[r.value] == '>'
    ensures r.Some? ==> forall m :: k <= m < r.value ==> s[m] != '>' && s[m] != '\n'
    // a corollary of the next clause, kept as the form callers use
    ensures r.None? ==> '\n' in s[k..] || '>' !in s[k..]
    ensures r.None? ==> forall m :: k <= m < |s| && s[m] == '>' ==> '\n' in s[k..m]
    decreases |s| - k
  {
    if k == |s| then None
    else if s[k] == '>' then Some(k)
    else if s[k] == '\n' then
      assert forall m :: k < m <= |s| ==> s[k..m][0] == '\n';
      None
    else
      assert s[k..] == [s[k]] + s[k + 1..];
      assert forall m :: k < m <= |s| ==> s[k..m] == [s[k]] + s[k + 1..m];
      TagEnd(s, k + 1)
  }

  /** `re.sub('<.*?>', '', s)`: scanning left to right, every `<...>` span
      that matches is dropped, and every other character is kept (see
      `StripTagsKeepsChar`, `StripTagsSpan` and `StripTagsUnmatchedOpen`). */
  function StripTags(s: string): (r: string)
    ensures |r| <= |s|
    ensures forall c :: c in r ==> c in s
    decreases |s|
  {
    if s == [] then []
    else if s[0] == '<' && TagEnd(s, 1).Some? then
      var rest := s[TagEnd(s, 1).value + 1..];
      var r := StripTags(rest);
      assert forall c :: c in rest ==> c in s;
      r
    else
      var r := [s[0]] + StripTags(s[1..]);
      assert forall c :: c in s[1..] ==> c in s;
      r
  }

  /** `s.replace('\n', '')`. */
  function RemoveNewlines(s: string): (r: string)
    ensures '\n' !in r
    ensures |r| <= |s|
  {
    if s == [] then []
    else if s[0] == '\n' then RemoveNewlines(s[1..])
    else [s[0]] + RemoveNewlines(s[1..])
  }

  /** `clean_string`: drop every `<...>` span, then every line feed. The
      result never holds a line feed and is never longer than the input. */
  function CleanString(s: string): (r: string)
    ensures '\n' !in r
    ensures |r| <= |s|
  {
    RemoveNewlines(StripTags(s))
  }

  /** Without a `<` there is nothing for the tag pattern to match. */
  lemma {:induction false} StripTagsNoOpen(s: string)
    requires '<' !in s
    ensures StripTags(s) == s
  {
    if s != [] {
      assert s[0] != '<';
      StripTagsNoOpen(s[1..]);
      assert [s[0]] + s[1..] == s;
    }
  }

  /** On text without a `<`, `clean_string` only removes line feeds. */
  lemma CleanStringWithoutTags(s: string)
    requires '<' !in s
    ensures CleanString(s) == RemoveNewlines(s)
  {
    StripTagsNoOpen(s);
  }

  /** No `<` kept in `t` has a `>` anywhere after it. */
  predicate NoTagLeft(t: string) {
    forall i, j :: 0 <= i < j < |t| && t[i] == '<' ==> t[j] != '>'
  }

  lemma {:induction false} StripTagsLeavesNoTag(s: string)
    requires '\n' !in s
    ensures NoTagLeft(StripTags(s))
    decreases |s|
  {
    if s != [] {
      if s[0] == '<' && TagEnd(s, 1).Some? {
        var rest := s[TagEnd(s, 1).value + 1..];
        assert forall c :: c in rest ==> c in s;
        StripTagsLeavesNoTag(rest);
      } else {
        var tail := StripTags(s[1..]);
        assert forall c :: c in s[1..] ==> c in s;
        StripTagsLeavesNoTag(s[1..]);
        var r := [s[0]] + tail;
        if s[0] == '<' {
          // the tag pattern failed here; with no line feed, that means no '>' follows
          assert '\n' !in s[1..];
          assert '>' !in s[1..];
          assert '>' !in tail;
        }
        forall i, j | 0 <= i < j < |r| && r[i] == '<'
          ensures r[j] != '>'
        {
          assert r[j] == tail[j - 1];
          if i > 0 {
            assert r[i] == tail[i - 1];
          } else {
            assert tail[j - 1] in tail;
          }
        }
      }
    }
  }

  /** Text without a line feed is left unchanged by `RemoveNewlines`. */
  lemma {:induction false} RemoveNewlinesNoLineFeed(s: string)
    requires '\n' !in s
    ensures RemoveNewlines(s) == s
  {
    if s != [] {
      RemoveNewlinesNoLineFeed(s[1..]);
      assert [s[0]] + s[1..] == s;
    }
  }

  /** `replace('\n', '')` works character by character: it drops a line
      feed and keeps any other character. */
  lemma RemoveNewlinesChar(c: char)
    ensures RemoveNewlines([c]) == if c == '\n' then [] else [c]
  {
    assert [c][1..] == [];
  }

  /** ... and it works piecewise on a concatenation, so every character
      other than a line feed is kept, in order. */
  lemma {:induction false} RemoveNewlinesAppend(a: string, b: string)
    ensures RemoveNewlines(a + b) == RemoveNewlines(a) + RemoveNewlines(b)
  {
    if a == [] {
      assert a + b == b;
    } else {
      var ab := a + b;
      assert ab[0] == a[0] && ab[1..] == a[1..] + b;
      RemoveNewlinesAppend(a[1..], b);
      if a[0] == '\n' {
        assert RemoveNewlines(ab) == RemoveNewlines(a[1..] + b);
        assert RemoveNewlines(a) == RemoveNewlines(a[1..]);
      } else {
        assert RemoveNewlines(ab) == [a[0]] + RemoveNewlines(a[1..] + b);
        assert RemoveNewlines(a) == [a[0]] + RemoveNewlines(a[1..]);
      }
    }
  }

  /** Every character other than `<` is kept by the tag removal. */
  lemma StripTagsKeepsChar(c: char, b: string)
    requires c != '<'
    ensures StripTags([c] + b) == [c] + StripTags(b)
  {
    assert ([c] + b)[1..] == b;
  }

  /** The match of `<.*?>` at an opening `<` ends at the first `>` when no
      line feed comes before it. */
  lemma TagEndAt(s: string, k: nat, m: nat)
    requires k <= m < |s| && s[m] == '>'
    requires forall i :: k <= i < m ==> s[i] != '>' && s[i] != '\n'
    ensures TagEnd(s, k) == Some(m)
  {
  }

  /** A `<...>` span on one line, with no `>` inside, is dropped whole; the
      text before it (free of `<`) is kept, and removal resumes after it. */
  lemma {:induction false} StripTagsSpan(a: string, t: string, b: string)
    requires '<' !in a && '>' !in t && '\n' !in t
    ensures StripTags(a + ['<'] + t + ['>'] + b) == a + StripTags(b)
  {
    var s := a + ['<'] + t + ['>'] + b;
    if a == [] {
      assert s == ['<'] + t + ['>'] + b;
      var m := |t| + 1;
      assert s[m] == '>';
      forall i | 1 <= i < m
        ensures s[i] != '>' && s[i] != '\n'
      {
        assert s[i] == t[i - 1];
      }
      TagEndAt(s, 1, m);
      assert s[m + 1..] == b;
    } else {
      StripTagsSpan(a[1..], t, b);
      assert s == [a[0]] + (a[1..] + ['<'] + t + ['>'] + b);
      StripTagsKeepsChar(a[0], a[1..] + ['<'] + t + ['>'] + b);
      assert [a[0]] + a[1..] == a;
    }
  }

  /** A `<` that opens no match (a line feed comes before every later `>`,
      or no `>` follows) is kept as an ordinary character. */
  lemma StripTagsUnmatchedOpen(s: string)
    requires s != [] && s[0] == '<'
    requires forall m :: 1 <= m < |s| && s[m] == '>' ==> '\n' in s[1..m]
    ensures StripTags(s) == ['<'] + StripTags(s[1..])
  {
    assert TagEnd(s, 1).None?;
  }


  /** On single-line text, no `<` in the cleaned string is followed later by
      a `>`: every tag is gone. */
  lemma CleanStringLeavesNoTag(s: string)
    requires '\n' !in s
    ensures NoTagLeft(CleanString(s))
  {
    StripTagsLeavesNoTag(s);
    assert forall c :: c in StripTags(s) ==> c in s;
    RemoveNewlinesNoLineFeed(StripTags(s));
  }

  /** Why the premise above is needed: a tag broken by a line feed is not
      matched, and removing the line feed afterwards rejoins it. */
  lemma TagAcrossLineSurvives()
    ensures CleanString("<b\n>") == "<b>"
  {
    var s := "<b\n>";
    assert s[1..] == "b\n>" && s[2..] == "\n>" && s[3..] == ">";
    assert TagEnd(s, 2) == None;
    assert TagEnd(s, 1) == None;
    StripTagsNoOpen(s[1..]);
    assert StripTags(s) == [s[0]] + s[1..] == s;
    assert RemoveNewlines(">") == ">";
    assert RemoveNewlines("\n>") == ">";
    assert RemoveNewlines("b\n>") == "b>";
  }

  // -------------------------------------------------------- clean_keywords

  /** `filter(lambda word: word, ws)`: the non-empty keywords, in order. */
  function NonEmpty(ws: seq<string>): seq<string> {
    if ws == [] then []
    else
      var rest := NonEmpty(ws[1..]);
      if ws[0] == "" then rest else [ws[0]] + rest
  }

  /** The filter keeps only non-empty keywords of its input. */
  lemma {:induction false} NonEmptyMembers(ws: seq<string>)
    ensures forall w :: w in NonEmpty(ws) ==> w in ws && w != ""
  {
    if ws != [] {
      NonEmptyMembers(ws[1..]);
      assert forall w :: w in ws[1..] ==> w in ws;
    }
  }

  /** `map(lambda word: word.title(), ws)`. */
  function TitleAll(ws: seq<string>): (r: seq<string>)
    ensures |r| == |ws|
  {
    seq(|ws|, i requires 0 <= i < |ws| => Title(ws[i]))
  }

  /** `clean_keywords`: the meta keywords, then the article keywords, each
      group without its empty entries and title-cased. */
  function CleanKeywords(meta: seq<string>, keywords: seq<string>): seq<string> {
    TitleAll(NonEmpty(meta)) + TitleAll(NonEmpty(keywords))
  }

  /** Default number of keywords a headline keeps. */
  const DefaultKeywordAmount: int := 5

  /** `get_clean_article_keywords(article, amount)`: the first `amount` cleaned
      keywords. */
  function CleanArticleKeywords(meta: seq<string>, keywords: seq<string>, amount: int): (r: seq<string>)
    ensures |r| <= |CleanKeywords(meta, keywords)|
  {
    Take(CleanKeywords(meta, keywords), amount)
  }

  /** The keyword filter keeps order: it works piecewise on a concatenation,
      and keeps a single keyword exactly when it is non-empty. */
  lemma {:induction false} NonEmptyStable(a: seq<string>, w: string, b: seq<string>)
    ensures NonEmpty(a + [w] + b) == NonEmpty(a) + (if w == "" then [] else [w]) + NonEmpty(b)
  {
    var s := a + [w] + b;
    if a == [] {
      assert s == [w] + b;
      assert s[0] == w && s[1..] == b;
    } else {
      NonEmptyStable(a[1..], w, b);
      assert s[0] == a[0] && s[1..] == a[1..] + [w] + b;
    }
  }

  /** The filter drops exactly the empty keywords. */
  lemma {:induction false} NonEmptyCount(ws: seq<string>)
    ensures |NonEmpty(ws)| == |ws| - multiset(ws)[""]
  {
    if ws != [] {
      NonEmptyCount(ws[1..]);
      assert ws == [ws[0]] + ws[1..];
      assert multiset(ws) == multiset{ws[0]} + multiset(ws[1..]);
    }
  }

  /** `x` is the title-case of a non-empty keyword of `ws`. */
  ghost predicate TitleOfSome(x: string, ws: seq<string>) {
    exists w :: w in ws && w != "" && x == Title(w)
  }

  /** Every cleaned keyword is non-empty and is the title-case of a
      non-empty input keyword; meta keywords come first; the count is the
      number of non-empty keywords in the two lists together. */
  lemma CleanKeywordsSpec(meta: seq<string>, keywords: seq<string>)
    ensures |CleanKeywords(meta, keywords)|
         == (|meta| - multiset(meta)[""]) + (|keywords| - multiset(keywords)[""])
    ensures CleanKeywords(meta, keywords) == CleanKeywords(meta, []) + CleanKeywords([], keywords)
    ensures forall i :: 0 <= i < |CleanKeywords(meta, keywords)| ==>
      CleanKeywords(meta, keywords)[i] != "" && TitleOfSome(CleanKeywords(meta, keywords)[i], meta + keywords)
  {
    NonEmptyCount(meta);
    NonEmptyCount(keywords);
    NonEmptyMembers(meta);
    NonEmptyMembers(keywords);
    var m, k := NonEmpty(meta), NonEmpty(keywords);
    var r := CleanKeywords(meta, keywords);
    assert NonEmpty([]) == [];
    assert TitleAll(m) + TitleAll([]) == TitleAll(m);
    assert TitleAll([]) + TitleAll(k) == TitleAll(k);
    forall i | 0 <= i < |r|
      ensures r[i] != "" && TitleOfSome(r[i], meta + keywords)
    {
      var w := if i < |m| then m[i] else k[i - |m|];
      assert w in m || w in k;
      assert w in meta + keywords;
      assert r[i] == Title(w);
      TitleSpec(w);
    }
  }

  /** `keywords[:amount]` is a prefix of the cleaned keywords: the first
      `min(amount, len)` of them, or all but the last `-amount` when the
      amount is negative. */
  lemma CleanArticleKeywordsPrefix(meta: seq<string>, keywords: seq<string>, amount: int)
    ensures var all := CleanKeywords(meta, keywords);
      CleanArticleKeywords(meta, keywords, amount) == all[..PrefixLength(|all|, amount)]
  {
  }

  /** With the default amount a headline keeps the first five cleaned
      keywords, or all of them when there are fewer. */
  lemma DefaultKeywordsFirstFive(meta: seq<string>, keywords: seq<string>)
    ensures var all := CleanKeywords(meta, keywords);
      CleanArticleKeywords(meta, keywords, DefaultKeywordAmount) == if |all| < 5 then all else all[..5]
  {
    CleanArticleKeywordsPrefix(meta, keywords, DefaultKeywordAmount);
  }

  // ----------------------------------------------------------- publishedAt

  /** The replacement `re.sub('[TZ]', ' ', ...)` makes at one character. */
  function SpaceForTZ(c: char): char {
    if c == 'T' || c == 'Z' then ' ' else c
  }

  /** `re.sub('[TZ]', ' ', s)`: the pattern matches single characters, so
      the text keeps its length and changes only where a `T` or `Z` stood. */
  function SpaceOutTZ(s: string): (r: string)
    ensures |r| == |s|
    ensures 'T' !in r && 'Z' !in r
    ensures '\n' in r ==> '\n' in s
  {
    seq(|s|, i requires 0 <= i < |s| => SpaceForTZ(s[i]))
  }

  /** How `parse_article` normalises `publishedAt`: cleaned, each `T`/`Z` of
      the timestamp turned into a space, then stripped. */
  function NormalizePublishedAt(raw: Option<string>): string {
    Strip(SpaceOutTZ(CleanString(Str(raw))))
  }

  /** The normalised timestamp holds no `T`, `Z` or line feed and has no
      whitespace at either end. */
  lemma NormalizePublishedAtSpec(raw: Option<string>)
    ensures var p := NormalizePublishedAt(raw);
      'T' !in p && 'Z' !in p && '\n' !in p && Trimmed(p)
  {
    var t := SpaceOutTZ(CleanString(Str(raw)));
    var p := NormalizePublishedAt(raw);
    StripKeeps(t, 'T');
    StripKeeps(t, 'Z');
    StripKeeps(t, '\n');
    var _, _ := StripSpec(t);
  }

  lemma CleanTimestamp(s: string)
    requires '<' !in s && '\n' !in s
    ensures CleanString(Str(Some(s))) == s
  {
    StripTagsNoOpen(s);
    RemoveNewlinesNoLineFeed(s);
  }

  lemma SpaceOutTZAppend(a: string, b: string)
    ensures SpaceOutTZ(a + b) == SpaceOutTZ(a) + SpaceOutTZ(b)
  {
    var l, r := SpaceOutTZ(a + b), SpaceOutTZ(a) + SpaceOutTZ(b);
    forall i | 0 <= i < |l|
      ensures l[i] == r[i]
    {
      if i < |a| {
        assert (a + b)[i] == a[i];
      } else {
        assert (a + b)[i] == b[i - |a|];
      }
    }
  }

  lemma SpaceOutTZKeeps(s: string)
    requires 'T' !in s && 'Z' !in s
    ensures SpaceOutTZ(s) == s
  {
  }

  lemma SpaceOutTimestamp(date: string, time: string)
    requires 'T' !in date && 'Z' !in date && 'T' !in time && 'Z' !in time
    ensures SpaceOutTZ(date + "T" + time + "Z") == date + " " + time + " "
  {
    SpaceOutTZAppend(date, "T");
    SpaceOutTZAppend(date + "T", time);
    SpaceOutTZAppend(date + "T" + time, "Z");
    SpaceOutTZKeeps(date);
    SpaceOutTZKeeps(time);
    assert SpaceOutTZ("T") == " " && SpaceOutTZ("Z") == " ";
  }

  lemma StripTimestamp(date: string, time: string)
    requires date != [] && time != [] && !IsSpace(date[0]) && !IsSpace(time[|time| - 1])
    ensures Strip(date + " " + time + " ") == date + " " + time
  {
    var u := date + " " + time;
    var t := u + " ";
    assert t[..|t| - 1] == u;
    assert StripLeft(t) == t;
    assert StripRight(t) == StripRight(u);
    assert StripRight(u) == u;
  }

  /** A UTC timestamp `<date>T<time>Z`, as NewsAPI sends it, comes out as
      `<date> <time>`. */
  lemma PublishedAtOfUtcTimestamp(date: string, time: string)
    requires date != [] && time != [] && !IsSpace(date[0]) && !IsSpace(time[|time| - 1])
    requires forall c :: c in date + time ==> c != 'T' && c != 'Z' && c != '<' && c != '\n'
    ensures NormalizePublishedAt(Some(date + "T" + time + "Z")) == date + " " + time
  {
    var s := date + "T" + time + "Z";
    assert forall c :: c in s ==> c in date + time || c == 'T' || c == 'Z';
    assert forall c :: c in date ==> c in date + time;
    assert forall c :: c in time ==> c in date + time;
    CleanTimestamp(s);
    SpaceOutTimestamp(date, time);
    StripTimestamp(date, time);
  }

  // -------------------------------------------------------------- Headline

  datatype Headline = Headline(
    url: string,
    title: string,
    author: string,
    publishedAt: string,
    imageUrl: Option<string>,
    description: string,
    keywords: seq<string>,
    truthScore: string)

  /** One NewsAPI article record; every field may be null. */
  datatype ApiArticle = ApiArticle(
    url: Option<string>,
    title: Option<string>,
    author: Option<string>,
    publishedAt: Option<string>,
    urlToImage: Option<string>,
    description: Option<string>)

  /** The keyword lists the page scraper extracted from the article page. */
  datatype PageKeywords = PageKeywords(metaKeywords: seq<string>, keywords: seq<string>)

  /** `parse_article`, with the truth score already formatted as text. */
  function ParseArticle(a: ApiArticle, page: PageKeywords, truthScore: string, amountKeywords: int): Headline {
    Headline(
      CleanString(Str(a.url)),
      CleanString(Str(a.title)),
      CleanString(Str(a.author)),
      NormalizePublishedAt(a.publishedAt),
      a.urlToImage,
      CleanString(Str(a.description)),
      CleanArticleKeywords(page.metaKeywords, page.keywords, amountKeywords),
      truthScore)
  }

  /** What a parsed headline guarantees: its text fields are single-line, its
      timestamp is free of `T`/`Z` and trimmed, its image URL is passed on as
      given, and it carries only non-empty keywords, at most `amountKeywords`
      of them. */
  lemma ParseArticleSpec(a: ApiArticle, page: PageKeywords, truthScore: string, amountKeywords: int)
    ensures var h := ParseArticle(a, page, truthScore, amountKeywords);
      && '\n' !in h.url && '\n' !in h.title && '\n' !in h.author && '\n' !in h.description
      && '\n' !in h.publishedAt && 'T' !in h.publishedAt && 'Z' !in h.publishedAt && Trimmed(h.publishedAt)
      && h.imageUrl == a.urlToImage
      && h.truthScore == truthScore
      && (amountKeywords >= 0 ==> |h.keywords| <= amountKeywords)
      && (forall i :: 0 <= i < |h.keywords| ==> h.keywords[i] != "")
  {
    NormalizePublishedAtSpec(a.publishedAt);
    CleanKeywordsSpec(page.metaKeywords, page.keywords);
  }

  // --------------------------------------------------------------- as_dict

  datatype JsonValue = JStr(s: string) | JList(items: seq<string>) | JNull

  function OptionalStr(x: Option<string>): JsonValue {
    match x
    case Some(s) => JStr(s)
    case None => JNull
  }

  const DictKeys: set<string> :=
    {"url", "title", "author", "publishedAt", "image", "description", "keywords", "truthScore"}

  /** `Headline.as_dict`: the headline's eight fields under their JSON names. */
  function AsDict(h: Headline): (d: map<string, JsonValue>)
    ensures d.Keys == DictKeys
  {
    map["url" := JStr(h.url), "title" := JStr(h.title), "author" := JStr(h.author),
        "publishedAt" := JStr(h.publishedAt), "image" := OptionalStr(h.imageUrl),
        "description" := JStr(h.description), "keywords" := JList(h.keywords),
        "truthScore" := JStr(h.truthScore)]
  }

  /** Reads a headline back from its dictionary; `None` unless all eight keys
      hold values of the right shape. */
  function FromDict(d: map<string, JsonValue>): Option<Headline> {
    if DictKeys <= d.Keys
       && d["url"].JStr? && d["title"].JStr? && d["author"].JStr? && d["publishedAt"].JStr?
       && !d["image"].JList? && d["description"].JStr? && d["keywords"].JList? && d["truthScore"].JStr?
    then
      Some(Headline(d["url"].s, d["title"].s, d["author"].s, d["publishedAt"].s,
                    if d["image"].JStr? then Some(d["image"].s) else None,
                    d["description"].s, d["keywords"].items, d["truthScore"].s))
    else None
  }

  /** `as_dict` loses nothing: every field is stored unchanged under its key. */
  lemma AsDictRoundTrip(h: Headline)
    ensures FromDict(AsDict(h)) == Some(h)
  {
  }
}
