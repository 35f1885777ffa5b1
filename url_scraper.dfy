/**
 * What the page importer does with text once it is extracted from a page: whitespace
 * cleaning, the choice of the main content, the length checks of the basic mode, and the
 * paragraph-packing summary of long content.
 */
module UrlScraper {
  import opened Wrappers
  import opened Strings

  // ---------------------------------------------------------------------------------------
  // clean_text

  /** The characters of `s` that are not whitespace, in order. */
  function NonWs(s: string): (r: string)
    ensures |r| <= |s|
    ensures forall k :: 0 <= k < |r| ==> !IsWs(r[k])
  {
    if s == [] then [] else (if IsWs(s[0]) then [] else [s[0]]) + NonWs(s[1..])
  }

  lemma {:induction false} NonWsAppend(a: string, b: string)
    ensures NonWs(a + b) == NonWs(a) + NonWs(b)
  {
    if a != [] {
      var head := if IsWs(a[0]) then [] else [a[0]];
      assert (a + b)[0] == a[0];
      assert (a + b)[1..] == a[1..] + b;
      NonWsAppend(a[1..], b);
      assert NonWs(a + b) == head + (NonWs(a[1..]) + NonWs(b));
      assert NonWs(a) == head + NonWs(a[1..]);
    } else {
      assert a + b == b;
    }
  }

  lemma {:induction false} NonWsOfBlank(s: string)
    requires forall k :: 0 <= k < |s| ==> IsWs(s[k])
    ensures NonWs(s) == []
  {
    if s != [] {
      NonWsOfBlank(s[1..]);
    }
  }

  /** Every whitespace character is a space and no two of them are adjacent. */
  predicate Collapsed(s: string) {
    && (forall k :: 0 <= k < |s| && IsWs(s[k]) ==> s[k] == ' ')
    && (forall k :: 0 <= k < |s| - 1 ==> !IsWs(s[k]) || !IsWs(s[k + 1]))
  }

  /** `re.sub(r'\s+', ' ', s)`: every maximal run of whitespace becomes one space. */
  function Collapse(s: string): (r: string)
    ensures |r| <= |s|
    ensures r == [] <==> s == []
    ensures r != [] ==> (IsWs(r[0]) <==> IsWs(s[0]))
    ensures Collapsed(r)
    decreases |s|
  {
    if s == [] then []
    else if IsWs(s[0]) then
      var rest := s[LeadingWs(s)..];
      var tail := Collapse(rest);
      assert tail != [] ==> !IsWs(tail[0]);
      [' '] + tail
    else
      var tail := Collapse(s[1..]);
      [s[0]] + tail
  }

  /** Collapsing keeps the non-whitespace characters and their order. */
  lemma {:induction false} CollapseKeepsNonWs(s: string)
    ensures NonWs(Collapse(s)) == NonWs(s)
    decreases |s|
  {
    if s != [] {
      if IsWs(s[0]) {
        var n := LeadingWs(s);
        CollapseKeepsNonWs(s[n..]);
        assert s == s[..n] + s[n..];
        NonWsAppend(s[..n], s[n..]);
        NonWsOfBlank(s[..n]);
        NonWsAppend([' '], Collapse(s[n..]));
      } else {
        CollapseKeepsNonWs(s[1..]);
        NonWsAppend([s[0]], Collapse(s[1..]));
      }
    }
  }

  /** A collapsed string collapses to itself. */
  lemma {:induction false} CollapseCollapsed(s: string)
    requires Collapsed(s)
    ensures Collapse(s) == s
    decreases |s|
  {
    if s != [] {
      assert Collapsed(s[1..]) by {
        assert forall k :: 0 <= k < |s| - 1 ==> s[1..][k] == s[k + 1];
      }
      if IsWs(s[0]) {
        assert LeadingWs(s) == 1 by {
          if |s| > 1 {
            assert !IsWs(s[1]);
          }
        }
      }
      CollapseCollapsed(s[1..]);
    }
  }

  /** Stripping keeps a collapsed string collapsed. */
  lemma StripKeepsCollapsed(s: string)
    requires Collapsed(s)
    ensures Collapsed(Strip(s))
  {
    var r := Strip(s);
    StripIsSlice(s);
    var (i, j) := StripBounds(s);
    assert forall k :: 0 <= k < |r| ==> r[k] == s[i + k];
  }

  /** Stripping keeps the non-whitespace characters. */
  lemma {:induction false} StripKeepsNonWs(s: string)
    ensures NonWs(Strip(s)) == NonWs(s)
    decreases |s|
  {
    if s != [] {
      if IsWs(s[0]) {
        StripKeepsNonWs(s[1..]);
      } else if IsWs(s[|s| - 1]) {
        var init := s[..|s| - 1];
        StripKeepsNonWs(init);
        assert s == init + [s[|s| - 1]];
        NonWsAppend(init, [s[|s| - 1]]);
      }
    }
  }

  /** `clean_text`: whitespace runs become single spaces and the ends are stripped. */
  function CleanText(text: string): (r: string)
    ensures text == "" ==> r == ""
    ensures |r| <= |text|
  {
    if text == "" then "" else Strip(Collapse(text))
  }

  /** Clean text has no whitespace at its ends, only single spaces inside, and the same
    * non-whitespace characters as the raw text, in the same order. */
  lemma CleanTextIsClean(text: string)
    ensures IsStripped(CleanText(text)) && Collapsed(CleanText(text))
    ensures NonWs(CleanText(text)) == NonWs(text)
  {
    if text != "" {
      var c := Collapse(text);
      CollapseKeepsNonWs(text);
      StripKeepsCollapsed(c);
      StripKeepsNonWs(c);
    }
  }

  /** Cleaning clean text changes nothing. */
  lemma CleanTextIdempotent(text: string)
    ensures CleanText(CleanText(text)) == CleanText(text)
  {
    var r := CleanText(text);
    CleanTextIsClean(text);
    if r != "" {
      CollapseCollapsed(r);
      StripStripped(r);
    }
  }

  /** Leading whitespace adds no words. */
  lemma {:induction false} WordsSkipWs(s: string, n: nat)
    requires n <= |s| && forall k :: 0 <= k < n ==> IsWs(s[k])
    ensures Words(s) == Words(s[n..])
    decreases n
  {
    if n > 0 {
      assert s[1..][n - 1..] == s[n..];
      WordsSkipWs(s[1..], n - 1);
    }
  }

  /** A single word is its own only word. */
  lemma WordsOfWord(w: string)
    requires IsWord(w)
    ensures Words(w) == [w]
  {
    assert WordLen(w) == |w|;
    assert w[..|w|] == w;
  }

  /** Collapsing keeps a leading non-whitespace character. */
  lemma CollapseCons(c: char, rest: string)
    requires !IsWs(c)
    ensures Collapse([c] + rest) == [c] + Collapse(rest)
  {
    assert ([c] + rest)[1..] == rest;
  }

  /** Collapsing leaves a leading run of non-whitespace characters in place. */
  lemma {:induction false} CollapseAfterWord(w: string, rest: string)
    requires forall k :: 0 <= k < |w| ==> !IsWs(w[k])
    ensures Collapse(w + rest) == w + Collapse(rest)
  {
    if w == [] {
      assert w + rest == rest;
    } else {
      var t := w[1..];
      CollapseAfterWord(t, rest);
      ConsSplit(w, rest);
      CollapseCons(w[0], t + rest);
      ConsJoin(w, Collapse(rest));
    }
  }

  lemma ConsSplit(w: string, rest: string)
    requires w != []
    ensures w + rest == [w[0]] + (w[1..] + rest)
  {
  }

  lemma ConsJoin(w: string, c: string)
    requires w != []
    ensures [w[0]] + (w[1..] + c) == w + c
  {
  }

  /** Collapsing whitespace keeps the words. */
  lemma {:induction false} WordsOfCollapse(s: string)
    ensures Words(Collapse(s)) == Words(s)
    decreases |s|
  {
    if s != [] && IsWs(s[0]) {
      var n := LeadingWs(s);
      var c := Collapse(s[n..]);
      assert Collapse(s) == [' '] + c;
      assert ([' '] + c)[1..] == c;
      WordsSkipWs(s, n);
      WordsOfCollapse(s[n..]);
    } else if s != [] {
      var m := WordLen(s);
      var w, rest := s[..m], s[m..];
      assert s == w + rest;
      assert Words(s) == [w] + Words(rest);
      CollapseAfterWord(w, rest);
      WordsOfCollapse(rest);
      WordsOfWord(w);
      WordsAfterWord(w, Collapse(rest));
    }
  }

  /** A word followed by nothing or by whitespace is the first word. */
  lemma WordsAfterWord(w: string, c: string)
    requires IsWord(w) && (c == [] || c[0] == ' ')
    ensures Words(w + c) == [w] + Words(c)
  {
    WordsOfWord(w);
    if c == [] {
      assert w + c == w;
    } else {
      var y := c[1..];
      assert c == [' '] + y;
      assert w + c == w + [' '] + y;
      WordsAppend(w, ' ', y);
      assert Words(c) == Words(y);
    }
  }

  /** Stripping keeps the words. */
  lemma {:induction false} WordsOfStrip(s: string)
    ensures Words(Strip(s)) == Words(s)
    decreases |s|
  {
    if s != [] {
      if IsWs(s[0]) {
        WordsOfStrip(s[1..]);
      } else if IsWs(s[|s| - 1]) {
        var init := s[..|s| - 1];
        WordsOfStrip(init);
        assert init + [s[|s| - 1]] + [] == s;
        WordsAppend(init, s[|s| - 1], []);
      }
    }
  }

  /** A suffix of clean text that starts with a non-whitespace character is clean. */
  lemma CleanSuffix(c: string, i: nat)
    requires IsStripped(c) && Collapsed(c) && i < |c| && !IsWs(c[i])
    ensures IsStripped(c[i..]) && Collapsed(c[i..])
  {
    var t := c[i..];
    assert forall k :: 0 <= k < |t| ==> t[k] == c[i + k];
  }

  /** Clean text is its words joined by single spaces. */
  lemma {:induction false} JoinWordsOfClean(c: string)
    requires IsStripped(c) && Collapsed(c)
    ensures Join(Words(c), " ") == c
    decreases |c|
  {
    if c != [] {
      var n := WordLen(c);
      var w := c[..n];
      if n == |c| {
        WordsOfWholeWord(c);
      } else {
        CleanWordEnd(c, n);
        SplitAround(c, n);
        var rest := c[n + 1..];
        WordsBeforeSpace(c, n);
        CleanSuffix(c, n + 1);
        JoinWordsOfClean(rest);
        JoinCons(w, Words(rest), " ");
      }
    }
  }

  /** A non-empty text with no whitespace is one word. */
  lemma WordsOfWholeWord(c: string)
    requires c != [] && WordLen(c) == |c|
    ensures Words(c) == [c]
  {
    assert c[..|c|] == c;
    assert c[|c|..] == [];
  }

  /** In clean text, the first word is followed by one space and then a non-whitespace
    * character; the last two requirements are what `Collapsed` says at the word's end. */
  lemma CleanWordEnd(c: string, n: nat)
    requires IsStripped(c) && c != [] && n == WordLen(c) && n < |c|
    requires IsWs(c[n]) ==> c[n] == ' '
    requires n + 1 < |c| ==> !IsWs(c[n]) || !IsWs(c[n + 1])
    ensures c[n] == ' ' && n + 1 < |c| && !IsWs(c[n + 1])
  {
  }

  /** A text is what comes before a space, the space, and what comes after it. */
  lemma SplitAround(c: string, n: nat)
    requires n < |c| && c[n] == ' '
    ensures c == c[..n] + " " + c[n + 1..]
  {
    assert c[..n + 1] == c[..n] + [c[n]];
  }

  /** A word ended by a space: the words are that word, then the words after the space. */
  lemma WordsBeforeSpace(c: string, n: nat)
    requires c != [] && !IsWs(c[0]) && n == WordLen(c) && n + 1 < |c| && c[n] == ' ' && !IsWs(c[n + 1])
    ensures Words(c) == [c[..n]] + Words(c[n + 1..]) && Words(c[n + 1..]) != []
  {
    assert c[n..][1..] == c[n + 1..];
  }

  /** `clean_text` keeps exactly the words of the raw text, each separated by one space. */
  lemma CleanTextWords(text: string)
    ensures CleanText(text) == Join(Words(text), " ")
  {
    if text != "" {
      CleanTextIsClean(text);
      var c := Collapse(text);
      WordsOfCollapse(text);
      WordsOfStrip(c);
      JoinWordsOfClean(Strip(c));
    }
  }

  /** The words of a text are the pieces of its clean form between single spaces. */
  lemma WordsOfCleanText(text: string)
    ensures CleanText(text) == "" <==> Words(text) == []
    ensures CleanText(text) != "" ==> Split(CleanText(text), ' ') == Words(text)
  {
    CleanTextWords(text);
    var ws := Words(text);
    if ws != [] {
      forall i | 0 <= i < |ws|
        ensures ' ' !in ws[i]
      {
        assert IsWord(ws[i]);
      }
      SplitJoin(ws, ' ');
      assert Join(ws, " ") != "" by {
        if |ws| > 1 {
          JoinCons(ws[0], ws[1..], " ");
          assert ws == [ws[0]] + ws[1..];
        }
      }
    }
  }

  // ---------------------------------------------------------------------------------------
  // The basic mode's checks on extracted text

  /** The cap on imported content. */
  const MaxContentLength: nat := 30000
  /** The shortest content the basic mode accepts. */
  const MinContentLength: nat := 50
  /** The cap on an imported title. */
  const MaxTitleLength: nat := 200
  /** A selector's text is taken at once when it is longer than this. */
  const LongEnough: nat := 100

  const TruncatedMarker: string := "\n[truncated]"
  const UnsupportedScheme: string := "Only HTTP/HTTPS supported"
  const NoMeaningfulContent: string := "No meaningful content found. Try Advanced mode for JS-heavy sites."

  /** The page as the HTML parser hands it over: the title element's text (`None` when the
    * page has no title element, `""` when the element holds no string), the text of each content selector's element in selector
    * order (`None` when the selector matches nothing), and the body's text, if any. */
  datatype ParsedPage = ParsedPage(title: Option<string>, selected: seq<Option<string>>, body: Option<string>)

  /** A successful basic import. */
  datatype Imported = Imported(title: string, content: string)

  /** A matched element's text, cleaned. */
  function CleanFound(found: Option<string>): (r: Option<string>)
    ensures r.Some? <==> found.Some?
  {
    if found.Some? then Some(CleanText(found.value)) else None
  }

  /** Each matched element's text, cleaned. */
  function Cleaned(selected: seq<Option<string>>): (r: seq<Option<string>>)
    ensures |r| == |selected|
  {
    if selected == [] then []
    else Cleaned(selected[..|selected| - 1]) + [CleanFound(selected[|selected| - 1])]
  }

  /** Entry `k` of the cleaned texts is the cleaned text of selector `k`'s element. */
  lemma {:induction false} CleanedAt(selected: seq<Option<string>>, k: nat)
    requires k < |selected|
    ensures Cleaned(selected)[k] == CleanFound(selected[k])
  {
    if k < |selected| - 1 {
      CleanedAt(selected[..|selected| - 1], k);
    }
  }

  /** A matched element whose cleaned text is longer than 100 characters. */
  predicate IsLong(cleaned: Option<string>) {
    cleaned.Some? && |cleaned.value| > LongEnough
  }

  /** The first selector whose cleaned text is longer than 100 characters. */
  function FirstLong(cleaned: seq<Option<string>>): (r: Option<nat>)
    ensures r.Some? ==> r.value < |cleaned| && IsLong(cleaned[r.value])
    ensures r.Some? ==> forall k :: 0 <= k < r.value ==> !IsLong(cleaned[k])
    ensures r.None? ==> forall k :: 0 <= k < |cleaned| ==> !IsLong(cleaned[k])
  {
    if cleaned == [] then None
    else
      var r := FirstLong(cleaned[..|cleaned| - 1]);
      if r.Some? then r
      else if IsLong(cleaned[|cleaned| - 1]) then Some(|cleaned| - 1)
      else None
  }

  /** The last selector that matched an element. */
  function LastFound(cleaned: seq<Option<string>>): (r: Option<nat>)
    ensures r.Some? ==> r.value < |cleaned| && cleaned[r.value].Some?
    ensures r.Some? ==> forall k :: r.value < k < |cleaned| ==> cleaned[k].None?
    ensures r.None? ==> forall k :: 0 <= k < |cleaned| ==> cleaned[k].None?
  {
    if cleaned == [] then None
    else if cleaned[|cleaned| - 1].Some? then Some(|cleaned| - 1)
    else LastFound(cleaned[..|cleaned| - 1])
  }

  /** The content the selectors give: the first cleaned text longer than 100 characters,
    * else the last one found, else nothing. */
  function SelectorContent(selected: seq<Option<string>>): string {
    var c := Cleaned(selected);
    match FirstLong(c)
    case Some(k) => c[k].value
    case None =>
      match LastFound(c)
      case Some(k) => c[k].value
      case None => ""
  }

  /** The content chosen from a page: the selectors' content, or the body's when that is empty. */
  function PageContent(page: ParsedPage): string {
    var c := SelectorContent(page.selected);
    if c == "" && page.body.Some? then CleanText(page.body.value) else c
  }

  /** The chosen content is clean text. */
  lemma PageContentIsClean(page: ParsedPage)
    ensures IsStripped(PageContent(page)) && Collapsed(PageContent(page))
  {
    var c := Cleaned(page.selected);
    var first, last := FirstLong(c), LastFound(c);
    if first.Some? {
      CleanedAt(page.selected, first.value);
      CleanTextIsClean(page.selected[first.value].value);
    } else if last.Some? {
      CleanedAt(page.selected, last.value);
      CleanTextIsClean(page.selected[last.value].value);
    }
    if page.body.Some? {
      CleanTextIsClean(page.body.value);
    }
  }

  /** A long text with no long text before it is the first long one. */
  lemma FirstLongAt(cleaned: seq<Option<string>>, i: nat)
    requires i < |cleaned| && IsLong(cleaned[i])
    requires forall k :: 0 <= k < i ==> !IsLong(cleaned[k])
    ensures FirstLong(cleaned) == Some(i)
  {
  }

  /** One more selector is the last found exactly when it matched. */
  lemma LastFoundSnoc(cleaned: seq<Option<string>>, i: nat)
    requires i < |cleaned|
    ensures LastFound(cleaned[..i + 1]) == if cleaned[i].Some? then Some(i) else LastFound(cleaned[..i])
  {
    assert cleaned[..i + 1][..i] == cleaned[..i];
  }

  /** The selector loop of `scrape_url_basic`: each matched element's text is cleaned, and the
    * loop stops at the first longer than 100 characters; the body is the fallback. */
  method SelectContent(page: ParsedPage) returns (content: string)
    ensures content == PageContent(page)
  {
    ghost var c := Cleaned(page.selected);
    content := "";
    ghost var last: Option<nat> := None;
    ghost var first: Option<nat> := None;
    var i := 0;
    while i < |page.selected|
      invariant i <= |page.selected|
      invariant forall k :: 0 <= k < i ==> !IsLong(c[k])
      invariant last == LastFound(c[..i])
      invariant content == if last.Some? then c[last.value].value else ""
    {
      CleanedAt(page.selected, i);
      LastFoundSnoc(c, i);
      if page.selected[i].Some? {
        content := CleanText(page.selected[i].value);
        last := Some(i);
        if |content| > LongEnough {
          FirstLongAt(c, i);
          first := Some(i);
          break;
        }
      }
      i := i + 1;
    }
    if first.None? {
      assert c[..i] == c;
      assert FirstLong(c).None?;
    }
    assert content == SelectorContent(page.selected);
    if content == "" && page.body.Some? {
      content := CleanText(page.body.value);
    }
  }

  /** What the length checks make of the chosen content: too short fails, too long is cut to
    * 30000 characters and marked. */
  function CapContent(content: string): (r: Result<string>)
    ensures r.Err? <==> |content| < MinContentLength
    ensures r.Err? ==> r.error == NoMeaningfulContent
    ensures r.Ok? ==> MinContentLength <= |r.value| <= MaxContentLength + |TruncatedMarker|
    ensures r.Ok? && |content| <= MaxContentLength ==> r.value == content
    ensures r.Ok? && |content| > MaxContentLength ==>
      |r.value| == MaxContentLength + |TruncatedMarker|
      && r.value[..MaxContentLength] == content[..MaxContentLength] && r.value[MaxContentLength..] == TruncatedMarker
  {
    if |content| < MinContentLength then Err(NoMeaningfulContent)
    else if |content| > MaxContentLength then Ok(content[..MaxContentLength] + TruncatedMarker)
    else Ok(content)
  }

  /** The imported title: the cleaned title element's text, or `Imported`, cut to 200 characters. */
  function PageTitle(page: ParsedPage): (r: string)
    ensures |r| <= MaxTitleLength
    ensures page.title.None? ==> r == "Imported"
    ensures page.title.Some? ==> r <= CleanText(page.title.value)
    ensures page.title.Some? && |CleanText(page.title.value)| <= MaxTitleLength ==> r == CleanText(page.title.value)
  {
    var t := if page.title.Some? then CleanText(page.title.value) else "Imported";
    Take(t, MaxTitleLength)
  }

  /** `scrape_url_basic` once the page is fetched and parsed (`page`); the scheme is
    * checked first, before any fetch. */
  method ScrapeBasic(scheme: string, page: ParsedPage) returns (res: Result<Imported>)
    ensures scheme != "http" && scheme != "https" ==> res == Err(UnsupportedScheme)
    ensures (scheme == "http" || scheme == "https") ==>
      match CapContent(PageContent(page))
      case Err(e) => res == Err(e)
      case Ok(c) => res == Ok(Imported(PageTitle(page), c))
  {
    if scheme != "http" && scheme != "https" {
      return Err(UnsupportedScheme);
    }
    var title := PageTitle(page);
    var content := SelectContent(page);
    if |content| < MinContentLength {
      return Err(NoMeaningfulContent);
    }
    if |content| > MaxContentLength {
      content := content[..MaxContentLength] + TruncatedMarker;
    }
    res := Ok(Imported(title, content));
  }

  /** A successful import carries clean content of 50 to 30000 characters, or the first
    * 30000 characters of clean content and the truncation marker. */
  lemma ImportedContentIsClean(page: ParsedPage, c: string)
    requires CapContent(PageContent(page)) == Ok(c)
    ensures MinContentLength <= |PageContent(page)|
    ensures |c| <= MaxContentLength ==> IsStripped(c) && Collapsed(c)
    ensures |c| > MaxContentLength ==> c[..MaxContentLength] == PageContent(page)[..MaxContentLength]
  {
    PageContentIsClean(page);
  }

  // ---------------------------------------------------------------------------------------
  // summarize_content

  /** The length a summary aims at. */
  const SummaryLength: nat := 2000
  /** A cut paragraph is added only when more than this many characters are left. */
  const MinRemaining: int := 100

  /** The lines of `lines` that are not blank, each stripped. */
  function NonBlank(lines: seq<string>): (r: seq<string>)
    ensures |r| <= |lines|
    ensures forall k :: 0 <= k < |r| ==> r[k] != "" && IsStripped(r[k])
  {
    if lines == [] then []
    else
      var p := Strip(lines[|lines| - 1]);
      NonBlank(lines[..|lines| - 1]) + if p != "" then [p] else []
  }

  /** One more line adds its stripped text when that is not blank. */
  lemma NonBlankSnoc(lines: seq<string>, line: string)
    ensures NonBlank(lines + [line])
         == NonBlank(lines) + if Strip(line) != "" then [Strip(line)] else []
  {
    assert (lines + [line])[..|lines|] == lines;
  }

  /** Keeping non-blank lines works line by line, in order. */
  lemma {:induction false} NonBlankAppend(a: seq<string>, b: seq<string>)
    ensures NonBlank(a + b) == NonBlank(a) + NonBlank(b)
    decreases |b|
  {
    if b == [] {
      assert a + b == a;
    } else {
      var b', line := b[..|b| - 1], b[|b| - 1];
      assert b == b' + [line];
      assert a + b == (a + b') + [line];
      NonBlankAppend(a, b');
      NonBlankSnoc(a + b', line);
      NonBlankSnoc(b', line);
    }
  }

  /** A paragraph is exactly the stripped text of some non-blank line. */
  lemma {:induction false} NonBlankMembers(lines: seq<string>, x: string)
    ensures x in NonBlank(lines)
        <==> exists i :: 0 <= i < |lines| && Strip(lines[i]) == x && x != ""
  {
    if lines != [] {
      var init, line := lines[..|lines| - 1], lines[|lines| - 1];
      assert lines == init + [line];
      NonBlankMembers(init, x);
      NonBlankSnoc(init, line);
      LineSnoc(init, line, x);
    }
  }

  /** Some line of `init + [line]` strips to `x` iff some line of `init` does or `line` does. */
  lemma LineSnoc(init: seq<string>, line: string, x: string)
    ensures (exists i :: 0 <= i < |init + [line]| && Strip((init + [line])[i]) == x && x != "")
        <==> (exists i :: 0 <= i < |init| && Strip(init[i]) == x && x != "") || (Strip(line) == x && x != "")
  {
    var lines := init + [line];
    if exists i :: 0 <= i < |init| && Strip(init[i]) == x && x != "" {
      var i :| 0 <= i < |init| && Strip(init[i]) == x && x != "";
      assert lines[i] == init[i];
    }
    if Strip(line) == x && x != "" {
      assert lines[|init|] == line;
    }
    if exists i :: 0 <= i < |lines| && Strip(lines[i]) == x && x != "" {
      var i :| 0 <= i < |lines| && Strip(lines[i]) == x && x != "";
      if i < |init| {
        assert init[i] == lines[i];
      }
    }
  }

  /** The paragraphs of `content`: its stripped lines that are not blank. */
  function Paragraphs(content: string): (r: seq<string>)
    ensures forall k :: 0 <= k < |r| ==> r[k] != "" && IsStripped(r[k])
  {
    NonBlank(Split(content, '\n'))
  }

  /** The running total of whole paragraphs: each counts its length and one more. */
  function Cost(ps: seq<string>): nat {
    if ps == [] then 0 else Cost(ps[..|ps| - 1]) + |ps[|ps| - 1]| + 1
  }

  lemma CostSnoc(ps: seq<string>, p: string)
    ensures Cost(ps + [p]) == Cost(ps) + |p| + 1
  {
    assert (ps + [p])[..|ps|] == ps;
  }

  /** Paragraph `m` still fits after the ones before it. */
  predicate Fits(ps: seq<string>, m: nat)
    requires m < |ps|
  {
    Cost(ps[..m]) + |ps[m]| <= SummaryLength
  }

  /** How many whole paragraphs, from `m` on, are taken after the first `m`. */
  function WholeFrom(ps: seq<string>, m: nat): (k: nat)
    requires m <= |ps|
    ensures m <= k <= |ps|
    ensures forall j :: m <= j < k ==> Fits(ps, j)
    ensures k < |ps| ==> !Fits(ps, k)
    decreases |ps| - m
  {
    if m == |ps| || !Fits(ps, m) then m else WholeFrom(ps, m + 1)
  }

  /** The number of whole paragraphs a summary takes: every one of them fits after those
    * before it, and the next one, if any, does not. */
  function WholeCount(ps: seq<string>): (k: nat)
    ensures k <= |ps|
    ensures forall j :: 0 <= j < k ==> Fits(ps, j)
    ensures k < |ps| ==> !Fits(ps, k)
  {
    WholeFrom(ps, 0)
  }

  /** The paragraphs a summary keeps: the whole ones, then the start of the first one that did
    * not fit, with `...`, when more than 100 characters are left for it. */
  function Packed(ps: seq<string>): (r: seq<string>)
    ensures var k := WholeCount(ps);
      && ps[..k] <= r
      && (k < |ps| && SummaryLength - Cost(ps[..k]) > MinRemaining ==>
            var remaining := SummaryLength - Cost(ps[..k]);
            remaining < |ps[k]| && r == ps[..k] + [ps[k][..remaining] + "..."])
      && (k == |ps| || SummaryLength - Cost(ps[..k]) <= MinRemaining ==> r == ps[..k])
  {
    var k := WholeCount(ps);
    var remaining := SummaryLength as int - Cost(ps[..k]);
    if k < |ps| && remaining > MinRemaining then ps[..k] + [ps[k][..remaining] + "..."] else ps[..k]
  }

  /** Some paragraph is always kept: the first one fits whole, or else it is cut with 2000
    * characters left for it. So the second "nothing selected" fallback is never taken. */
  lemma PackedNotEmpty(ps: seq<string>)
    requires ps != []
    ensures Packed(ps) != []
  {
    if WholeCount(ps) == 0 {
      assert ps[..0] == [];
    }
  }

  /** The note that ends a summary shorter than its content. */
  function TruncationNote(from: nat, to: nat): string {
    "\n\n[Content truncated from " + Decimal(from) + " to " + Decimal(to) + " characters]"
  }

  /** The joined paragraphs, with the note when the content is longer than them. */
  function WithNote(content: string, joined: string): (r: string)
    ensures |content| > |joined| ==> r == joined + TruncationNote(|content|, |joined|)
    ensures |content| <= |joined| ==> r == joined
  {
    if |content| > |joined| then joined + TruncationNote(|content|, |joined|) else joined
  }

  /** What `summarize_content` returns for `content`: short content as it is, long content as
    * its packed paragraphs joined by blank lines, with the note when the content is longer than
    * them, or its first 2000 characters when it has no paragraph. */
  function Summarized(content: string): string {
    if |content| <= SummaryLength then content
    else
      var ps := Paragraphs(content);
      if ps == [] then content[..SummaryLength] + TruncatedMarker
      else WithNote(content, Join(Packed(ps), "\n\n"))
  }

  /** A long summary opens with its first paragraph, whole when it fits and cut to 2000
    * characters otherwise. */
  lemma SummaryLeadsWithFirstParagraph(content: string)
    requires |content| > SummaryLength && Paragraphs(content) != []
    ensures Take(Paragraphs(content)[0], SummaryLength) <= Summarized(content)
  {
    var ps := Paragraphs(content);
    var packed := Packed(ps);
    if WholeCount(ps) == 0 {
      assert ps[..0] == [];
      assert !Fits(ps, 0);
      assert packed == [ps[0][..SummaryLength] + "..."];
    } else {
      assert packed[0] == ps[..WholeCount(ps)][0];
      assert Fits(ps, 0);
      assert ps[..0] == [];
    }
    JoinFirst(packed, "\n\n");
  }

  /** The summary as it should be: the note is added whenever a paragraph was dropped or cut,
    * as well as whenever the content is longer than the summary. */
  function SummarizedCorrected(content: string): string {
    if |content| <= SummaryLength then content
    else
      var ps := Paragraphs(content);
      if ps == [] then content[..SummaryLength] + TruncatedMarker
      else
        var joined := Join(Packed(ps), "\n\n");
        if WholeCount(ps) < |ps| || |content| > |joined| then joined + TruncationNote(|content|, |joined|)
        else joined
  }

  /** A corrected summary without the note keeps every paragraph of its content whole. */
  lemma CorrectedSummaryNotesEveryLoss(content: string)
    requires |content| > SummaryLength && Paragraphs(content) != []
    ensures var ps := Paragraphs(content);
      SummarizedCorrected(content) == Join(Packed(ps), "\n\n") ==> Packed(ps) == ps
  {
    var ps := Paragraphs(content);
    var joined := Join(Packed(ps), "\n\n");
    if WholeCount(ps) < |ps| || |content| > |joined| {
      assert |joined + TruncationNote(|content|, |joined|)| > |joined|;
    } else {
      assert ps[..|ps|] == ps;
    }
  }

  /** As written, a dropped paragraph goes unnoted when the blank lines that join the kept ones
    * make up for it: the content below has 2001 characters and four paragraphs, the last one is
    * dropped, and the summary of the other three also has 2001 characters, so no note is added. */
  lemma SummaryDropsParagraphSilently()
    ensures var content := seq(1995, i => 'x') + "\na\na\nb";
      var kept := [seq(1995, i => 'x'), "a", "a"];
      && Paragraphs(content) == kept + ["b"]
      && Summarized(content) == Join(kept, "\n\n")
      && |Summarized(content)| == |content| == 2001
      && SummarizedCorrected(content) == Join(kept, "\n\n") + TruncationNote(2001, 2001)
  {
    var x := seq(1995, i => 'x');
    var content := x + "\na\na\nb";
    var kept := [x, "a", "a"];
    var ps := kept + ["b"];
    DroppedExampleParagraphs(x, content, ps);
    DroppedExampleCosts(x, ps);
    assert WholeCount(ps) == 3;
    assert ps[..3] == kept;
    assert Packed(ps) == kept;
    JoinCons(x, ["a", "a"], "\n\n");
    JoinCons("a", ["a"], "\n\n");
  }

  /** The example's content splits into its four paragraphs. */
  lemma DroppedExampleParagraphs(x: string, content: string, ps: seq<string>)
    requires x == seq(1995, i => 'x') && content == x + "\na\na\nb" && ps == [x, "a", "a", "b"]
    ensures Paragraphs(content) == ps
  {
    DroppedExampleLines(x, content, ps);
    DroppedExampleNonBlank(x, ps);
  }

  lemma DroppedExampleLines(x: string, content: string, ps: seq<string>)
    requires x == seq(1995, i => 'x') && content == x + "\na\na\nb" && ps == [x, "a", "a", "b"]
    ensures Split(content, '\n') == ps
  {
    JoinCons(x, ["a", "a", "b"], "\n");
    JoinCons("a", ["a", "b"], "\n");
    JoinCons("a", ["b"], "\n");
    assert Join(ps, "\n") == content;
    forall i | 0 <= i < |ps|
      ensures '\n' !in ps[i]
    {
      if i == 0 {
        forall k | 0 <= k < |x| ensures x[k] != '\n' { }
      }
    }
    SplitJoin(ps, '\n');
  }

  lemma DroppedExampleNonBlank(x: string, ps: seq<string>)
    requires |x| == 1995 && x[0] == 'x' && x[1994] == 'x' && ps == [x, "a", "a", "b"]
    ensures NonBlank(ps) == ps
  {
    assert ps[..1][..0] == [] && ps[..2][..1] == ps[..1] && ps[..3][..2] == ps[..2] && ps[..4][..3] == ps[..3];
    StripStripped(x);
    StripStripped("a");
    StripStripped("b");
    assert NonBlank(ps[..1]) == [x];
    assert NonBlank(ps[..2]) == [x, "a"];
    assert NonBlank(ps[..3]) == [x, "a", "a"];
    assert ps[..4] == ps;
  }

  /** The first three paragraphs of the example fit and leave no room for the fourth. */
  lemma DroppedExampleCosts(x: string, ps: seq<string>)
    requires |x| == 1995 && ps == [x, "a", "a", "b"]
    ensures Fits(ps, 0) && Fits(ps, 1) && Fits(ps, 2) && !Fits(ps, 3)
    ensures Cost(ps[..3]) == SummaryLength
  {
    assert ps[..0] == [];
    assert ps[..1] == [] + [x];
    assert ps[..2] == ps[..1] + ["a"];
    assert ps[..3] == ps[..2] + ["a"];
    CostSnoc([], x);
    CostSnoc(ps[..1], "a");
    CostSnoc(ps[..2], "a");
  }

  /** `summarize_content` (its `title` argument is not used). */
  method SummarizeContent(content: string, title: string) returns (summary: string)
    ensures summary == Summarized(content)
  {
    if content == "" {
      return "";
    }
    if |content| <= SummaryLength {
      return content;
    }
    var paragraphs := Paragraphs(content);
    if paragraphs == [] {
      return content[..SummaryLength] + TruncatedMarker;
    }
    var parts: seq<string> := [];
    var total: int := 0;
    var i := 0;
    while i < |paragraphs|
      invariant i <= |paragraphs|
      invariant parts == paragraphs[..i]
      invariant total == Cost(paragraphs[..i])
      invariant forall j :: 0 <= j < i ==> Fits(paragraphs, j)
    {
      var para := paragraphs[i];
      if total + |para| > SummaryLength {
        assert !Fits(paragraphs, i);
        assert WholeCount(paragraphs) == i;
        var remaining := SummaryLength - total;
        if remaining > MinRemaining {
          parts := parts + [para[..remaining] + "..."];
        }
        break;
      }
      assert paragraphs[..i + 1] == paragraphs[..i] + [para];
      CostSnoc(paragraphs[..i], para);
      parts := parts + [para];
      total := total + |para| + 1;
      i := i + 1;
    }
    if i == |paragraphs| {
      assert WholeCount(paragraphs) == i;
    }
    assert parts == Packed(paragraphs);
    PackedNotEmpty(paragraphs);
    var result := Join(parts, "\n\n");
    if |content| > |result| {
      result := result + TruncationNote(|content|, |result|);
    }
    return result;
  }
}
