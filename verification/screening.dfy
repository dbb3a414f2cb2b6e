/**
 * The screening gate: a pure, advisory classifier run when a post is handed
 * to moderation. The title, content and optional URL are glued into one
 * text, lower-cased, and checked against a fixed vocabulary of banned words
 * and a fixed list of link patterns. The verdict is a flag plus a display
 * string naming the matched reason categories in a fixed order.
 */
module Screening {
  import opened Common
  import opened Text

  /** The banned vocabulary, all lower-case, matched as substrings. */
  const BannedWords: seq<string> := [
    "спам", "реклама", "казино", "букмекер", "наркотики", "проститутки",
    "заработок", "деньги", "дешево", "бесплатно", "выигрыш", "лотерея",
    "инвестиции", "криптовалюта", "биткоин", "кредит", "ссуда", "раскрутка",
    "прайс", "цена", "скидка", "акция", "распродажа", "оптовая продажа",
    "мат", "хуй", "блять", "ебать", "сука", "пидор", "гондон", "шлюха"
  ]

  /* ---------------------------------------------------------------------
   * Link patterns: each of the source's regular expressions is either a
   * literal or a literal marker followed by one character of a class
   * (`[\w]+` and `[\d]+` match as soon as one such character follows).
   * ------------------------------------------------------------------- */

  datatype CharClass = WordChar | DigitChar

  datatype Pattern =
    | Literal(word: string)
    | Handle(marker: string, cls: CharClass)

  /** `\d`, restricted to the ASCII digits. */
  predicate IsDigit(c: char)
  {
    '0' <= c <= '9'
  }

  /** `\w`, restricted to ASCII letters, digits and underscore and the
      Cyrillic block without its sign and combining marks (U+0482-U+0489). */
  predicate IsWordChar(c: char)
  {
    IsDigit(c) || 'a' <= c <= 'z' || 'A' <= c <= 'Z' || c == '_'
    || '\U{0400}' <= c <= '\U{0481}' || '\U{048A}' <= c <= '\U{04FF}'
  }

  predicate InClass(c: char, cls: CharClass)
  {
    match cls
    case WordChar => IsWordChar(c)
    case DigitChar => IsDigit(c)
  }

  const SpamPatterns: seq<Pattern> := [
    Handle("@", WordChar),              // platform user handles
    Handle("t.me/", WordChar),          // short links
    Handle("telegram.me/", WordChar),
    Handle("wa.me/", DigitChar),        // messenger phone links
    Literal("whatsapp"), Literal("viber"), Literal("vk.com"), Literal("vkontakte")
  ]

  /** `p` matches the text at index `i` (the meaning of one `re.search` hit). */
  predicate MatchesAt(s: string, p: Pattern, i: int)
  {
    match p
    case Literal(w) => OccursAt(s, w, i)
    case Handle(m, cls) =>
      OccursAt(s, m, i) && i + |m| < |s| && InClass(s[i + |m|], cls)
  }

  lemma MatchesAtShift(s: string, p: Pattern, i: int)
    requires |s| > 0 && 0 <= i
    ensures MatchesAt(s[1..], p, i) <==> MatchesAt(s, p, i + 1)
  {
    match p
    case Literal(w) => OccursAtShift(s, w, i);
    case Handle(m, cls) => OccursAtShift(s, m, i);
  }

  /** `re.search(p, s) is not None`, scanning left to right. */
  function Search(s: string, p: Pattern): (r: bool)
    ensures r <==> exists i :: MatchesAt(s, p, i)
    decreases |s|
  {
    if MatchesAt(s, p, 0) then
      true
    else if |s| == 0 then
      assert forall i :: MatchesAt(s, p, i) ==> i == 0;
      false
    else
      var r := Search(s[1..], p);
      if r then
        var i :| MatchesAt(s[1..], p, i);
        MatchesAtShift(s, p, i);
        true
      else
        forall i | MatchesAt(s, p, i) ensures false {
          MatchesAtShift(s, p, i - 1);
        }
        false
  }

  /* ---------------------------------------------------------------------
   * The two checks
   * ------------------------------------------------------------------- */

  /** Some word of `ws` occurs in `t`. */
  function AnyOccurs(t: string, ws: seq<string>): (r: bool)
    ensures r <==> exists k :: 0 <= k < |ws| && Occurs(t, ws[k])
    decreases |ws|
  {
    if |ws| == 0 then false
    else if Contains(t, ws[0]) then true
    else
      var r := AnyOccurs(t, ws[1..]);
      assert forall k :: 1 <= k < |ws| ==> ws[1..][k - 1] == ws[k];
      r
  }

  /** Some pattern of `ps` matches somewhere in `t`. */
  function AnySearch(t: string, ps: seq<Pattern>): (r: bool)
    ensures r <==> exists k, i :: 0 <= k < |ps| && MatchesAt(t, ps[k], i)
    decreases |ps|
  {
    if |ps| == 0 then false
    else if Search(t, ps[0]) then true
    else
      var r := AnySearch(t, ps[1..]);
      assert forall k :: 1 <= k < |ps| ==> ps[1..][k - 1] == ps[k];
      r
  }

  /** Some banned word occurs in the (already lower-cased) text `t`. */
  ghost predicate HasBannedWord(t: string)
  {
    exists k :: 0 <= k < |BannedWords| && Occurs(t, BannedWords[k])
  }

  /** Some link pattern matches the (already lower-cased) text `t`. */
  ghost predicate HasSpamLink(t: string)
  {
    exists k, i :: 0 <= k < |SpamPatterns| && MatchesAt(t, SpamPatterns[k], i)
  }

  /** The text, once lower-cased, contains a banned word. */
  function ContainsBannedWords(text: string): (r: bool)
    ensures r <==> HasBannedWord(Lower(text))
  {
    AnyOccurs(Lower(text), BannedWords)
  }

  /** The text, once lower-cased, matches a link pattern. */
  function ContainsSpamLinks(text: string): (r: bool)
    ensures r <==> HasSpamLink(Lower(text))
  {
    AnySearch(Lower(text), SpamPatterns)
  }

  /* ---------------------------------------------------------------------
   * The verdict
   * ------------------------------------------------------------------- */

  datatype Reason = BannedWordsFound | SpamLinksFound
  {
    /** The category name shown on the moderation banner. */
    function Name(): string
    {
      match this
      case BannedWordsFound => "запрещённые слова"
      case SpamLinksFound => "подозрительные ссылки"
    }
  }

  /** The single text that is screened: title, content and URL (or nothing)
      separated by single spaces. */
  function ScreenedText(title: string, content: string, url: Option<string>): string
  {
    title + " " + content + " " + (if url.Some? then url.value else "")
  }

  /** The reasons list built from the two check results, banned words
      always listed before spam links. */
  function ReasonList(banned: bool, spam: bool): (rs: seq<Reason>)
    ensures BannedWordsFound in rs <==> banned
    ensures SpamLinksFound in rs <==> spam
    ensures |rs| <= 2
    ensures |rs| == 2 ==> rs == [BannedWordsFound, SpamLinksFound]
    ensures forall i, j :: 0 <= i < j < |rs| ==> rs[i] != rs[j]
  {
    (if banned then [BannedWordsFound] else []) + (if spam then [SpamLinksFound] else [])
  }

  /** The reasons found for one screened text. */
  function Reasons(text: string): seq<Reason>
  {
    ReasonList(ContainsBannedWords(text), ContainsSpamLinks(text))
  }

  function Names(rs: seq<Reason>): (ns: seq<string>)
    ensures |ns| == |rs|
    ensures forall i :: 0 <= i < |rs| ==> ns[i] == rs[i].Name()
    decreases |rs|
  {
    if |rs| == 0 then [] else [rs[0].Name()] + Names(rs[1..])
  }

  /** The flag and display string built from the two check results. */
  function Verdict(banned: bool, spam: bool): (r: (bool, string))
    ensures r.0 <==> banned || spam
    ensures r.0 <==> r.1 != ""
    ensures r.1 == Join(Names(ReasonList(banned, spam)), ", ")
  {
    var rs := ReasonList(banned, spam);
    var shown := Join(Names(rs), ", ");
    assert |rs| > 0 ==> shown != "" by {
      if |rs| > 0 {
        JoinNonEmpty(Names(rs), ", ", 0);
      }
    }
    (|rs| > 0, shown)
  }

  /** `is_suspicious_post`: the flag is set exactly when some check matched,
      and the reason string is empty exactly when the flag is clear. */
  function IsSuspiciousPost(title: string, content: string, url: Option<string>): (r: (bool, string))
    ensures r.0 <==> ContainsBannedWords(ScreenedText(title, content, url))
                     || ContainsSpamLinks(ScreenedText(title, content, url))
    ensures r.0 <==> r.1 != ""
    ensures r.1 == Join(Names(Reasons(ScreenedText(title, content, url))), ", ")
  {
    var text := ScreenedText(title, content, url);
    var banned := ContainsBannedWords(text);
    var spam := ContainsSpamLinks(text);
    var v := Verdict(banned, spam);
    assert v.0 <==> banned || spam;
    assert v.0 <==> v.1 != "";
    assert Reasons(text) == ReasonList(banned, spam);
    v
  }

  /* ---------------------------------------------------------------------
   * Properties
   * ------------------------------------------------------------------- */

  /** The display string when both checks match: banned words first. */
  lemma BothReasonsShown()
    ensures Join(Names(ReasonList(true, true)), ", ") == "запрещённые слова, подозрительные ссылки"
  {
    var ns := Names(ReasonList(true, true));
    var a, b := BannedWordsFound.Name(), SpamLinksFound.Name();
    assert ReasonList(true, true) == [BannedWordsFound, SpamLinksFound];
    assert ns == [a, b];
    assert Join(ns, ", ") == a + ", " + b by {
      assert ns[..1] == [a];
    }
    assert a + ", " + b == "запрещённые слова, подозрительные ссылки";
  }

  /** When both checks match, the post is flagged and the reason string
      names banned words before spam links. */
  lemma BothReasonsInOrder(title: string, content: string, url: Option<string>)
    requires var text := ScreenedText(title, content, url);
             ContainsBannedWords(text) && ContainsSpamLinks(text)
    ensures IsSuspiciousPost(title, content, url) == (true, "запрещённые слова, подозрительные ссылки")
  {
    assert Reasons(ScreenedText(title, content, url)) == ReasonList(true, true);
    BothReasonsShown();
  }

  /** Letter case never changes the verdict of either check. */
  lemma ChecksIgnoreCase(a: string, b: string)
    requires SameUpToCase(a, b)
    ensures ContainsBannedWords(a) == ContainsBannedWords(b)
    ensures ContainsSpamLinks(a) == ContainsSpamLinks(b)
  {
    SameUpToCaseLower(a, b);
  }

  /** Changing the letter case of title, content or URL does not change the
      verdict of the whole gate; a missing link screens like an empty one. */
  lemma VerdictIgnoresCase(title: string, content: string, url: Option<string>,
                           title': string, content': string, url': Option<string>)
    requires SameUpToCase(title, title') && SameUpToCase(content, content')
    requires SameUpToCase(if url.Some? then url.value else "", if url'.Some? then url'.value else "")
    ensures IsSuspiciousPost(title, content, url) == IsSuspiciousPost(title', content', url')
  {
    var u := if url.Some? then url.value else "";
    var u' := if url'.Some? then url'.value else "";
    var t := ScreenedText(title, content, url);
    var t' := ScreenedText(title', content', url');
    assert SameUpToCase(t, t') by {
      assert t == title + " " + content + " " + u;
      assert t' == title' + " " + content' + " " + u';
      forall i | 0 <= i < |t| ensures LowerChar(t[i]) == LowerChar(t'[i]) {
        if i < |title| {
          assert t[i] == title[i] && t'[i] == title'[i];
        } else if i == |title| {
        } else if i < |title| + 1 + |content| {
          assert t[i] == content[i - |title| - 1] && t'[i] == content'[i - |title| - 1];
        } else if i == |title| + 1 + |content| {
        } else {
          var j := i - |title| - 2 - |content|;
          assert t[i] == u[j] && t'[i] == u'[j];
        }
      }
    }
    ChecksIgnoreCase(t, t');
  }

  /** A banned word that appears only in the URL still flags the post. */
  lemma BannedWordInUrlFlags(title: string, content: string, url: string, k: int)
    requires 0 <= k < |BannedWords| && Occurs(Lower(url), BannedWords[k])
    ensures IsSuspiciousPost(title, content, Some(url)).0
    ensures BannedWordsFound in Reasons(ScreenedText(title, content, Some(url)))
  {
    var prefix := title + " " + content + " ";
    assert ScreenedText(title, content, Some(url)) == prefix + url;
    LowerConcat(prefix, url);
    OccursInConcat(Lower(prefix), Lower(url), BannedWords[k]);
  }

  /** A banned word written in any mixture of letter cases flags the text:
      any `u` that lower-cases to a banned word counts as that word. */
  lemma BannedWordInAnyCaseFlags(text: string, u: string, k: int)
    requires 0 <= k < |BannedWords| && Lower(u) == BannedWords[k]
    requires Occurs(text, u)
    ensures ContainsBannedWords(text)
  {
    var i :| OccursAt(text, u, i);
    LowerSlice(text, i, i + |u|);
    assert OccursAt(Lower(text), BannedWords[k], i);
  }
}
