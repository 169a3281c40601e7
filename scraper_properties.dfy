/** What `scrape_test_series` and `_generate_html` promise, proved about the model in Scraper. */
module ScraperProperties {
  import opened Options
  import opened Strings
  import opened Numerals
  import opened Scraper

  /** At most three entries, never more than the qualifying cards, and one file per entry. */
  lemma ScrapeBounded(elements: seq<Card>, minutes: nat, template: string)
    ensures var o := Scrape(Loaded(elements), minutes, template).outcome;
      o.Scraped? && |o.results| <= MaxTests && |o.results| <= |Select(elements)|
      && |o.written| == |o.results|
  {
  }

  /**
   * A loaded page without qualifying cards yields an empty list, not an error:
   * the early `return []`. (A page with no card of either class never gets
   * here: the wait times out first, a `LoadFailed`.)
   */
  lemma ScrapeEmptyPage(elements: seq<Card>, minutes: nat, template: string)
    requires Select(elements) == []
    ensures Scrape(Loaded(elements), minutes, template) == ScrapeRun(Scraped([], []), Quit)
  {
    assert Results(Candidates(elements)) == [];
    assert Files(Candidates(elements), template, minutes) == [];
  }

  /** A page past the wait whose cards of either class are all `free` yields an empty list. */
  lemma ScrapeOnlyFreeCards(elements: seq<Card>, minutes: nat, template: string)
    requires WaitFinds(elements)
    requires forall i :: 0 <= i < |elements| && HasCardClass(elements[i]) ==> FreeClass in elements[i].classes
    ensures Select(elements) == []
    ensures Scrape(Loaded(elements), minutes, template) == ScrapeRun(Scraped([], []), Quit)
  {
    SelectNone(elements);
    ScrapeEmptyPage(elements, minutes, template);
  }

  /** When no card fails, a card's position among the kept ones is its position in the list. */
  lemma {:induction false} NoFailuresKeepAll(cards: seq<Card>)
    requires forall i :: 0 <= i < |cards| ==> !cards[i].fails
    ensures |Kept(cards)| == |cards|
    ensures forall j :: 0 <= j < |cards| ==> Kept(cards)[j] == j
  {
    KeptSpec(cards);
    NoFailuresCount(cards);
    forall j | 0 <= j < |cards| ensures Kept(cards)[j] == j {
      NoFailuresCount(cards[..Kept(cards)[j]]);
      KeptPosition(cards, j);
    }
  }

  lemma {:induction false} NoFailuresCount(cards: seq<Card>)
    requires forall i :: 0 <= i < |cards| ==> !cards[i].fails
    ensures CountFailing(cards) == 0
    decreases |cards|
  {
    if cards != [] {
      NoFailuresCount(cards[..|cards| - 1]);
    }
  }

  /**
   * When no card raises, the entries are those of the first three qualifying
   * cards, every one of them, in document order.
   */
  lemma ScrapeAllCards(elements: seq<Card>, minutes: nat, template: string)
    requires forall i :: 0 <= i < |Candidates(elements)| ==> !Candidates(elements)[i].fails
    ensures var cards, o := Candidates(elements), Scrape(Loaded(elements), minutes, template).outcome;
      o.Scraped?
      && |o.results| == (if |Select(elements)| <= MaxTests then |Select(elements)| else MaxTests)
      && forall j :: 0 <= j < |o.results| ==> o.results[j] == MockFor(Select(elements)[j], j)
  {
    NoFailuresKeepAll(Candidates(elements));
  }

  /**
   * Every entry comes from a qualifying (so never a `free`) card of the page, at
   * that card's position `Kept(cards)[j]` in the capped list; these positions
   * increase, so entries keep document order; and every card that does not raise
   * has its entry, so a failing card does not stop the later ones.
   */
  lemma ScrapeFollowsCards(elements: seq<Card>, minutes: nat, template: string)
    ensures var cards, o := Candidates(elements), Scrape(Loaded(elements), minutes, template).outcome;
      var kept := Kept(cards);
      o.Scraped? && |o.results| == |kept|
      && (forall j :: 0 <= j < |kept| ==>
            kept[j] < |cards| && cards[kept[j]] in elements && Qualifies(cards[kept[j]])
            && FreeClass !in cards[kept[j]].classes
            && o.results[j] == MockFor(cards[kept[j]], kept[j])
            && o.written[j] == FileFor(cards[kept[j]], kept[j], template, minutes))
      && (forall a, b :: 0 <= a < b < |kept| ==> kept[a] < kept[b])
      && (forall i :: 0 <= i < |cards| && !cards[i].fails ==> i in kept)
  {
    var cards := Candidates(elements);
    KeptSpec(cards);
    forall j | 0 <= j < |Kept(cards)| ensures cards[Kept(cards)[j]] in elements && Qualifies(cards[Kept(cards)[j]]) {
      assert cards[Kept(cards)[j]] == Select(elements)[Kept(cards)[j]];
    }
  }

  /**
   * An entry whose card has `data-test-id` takes that value verbatim; one whose
   * card has none is named `mock_<i>`, where `i` counts the entries before it
   * plus the cards skipped before it. Either way the entry's file is
   * `templates/mock_test_<id>.html`.
   */
  lemma ScrapeIds(elements: seq<Card>, minutes: nat, template: string, j: nat)
    requires j < |Scrape(Loaded(elements), minutes, template).outcome.results|
    ensures var cards, o := Candidates(elements), Scrape(Loaded(elements), minutes, template).outcome;
      var k := Kept(cards)[j];
      var m := o.results[j];
      m.htmlFile == OutputPrefix + m.id + OutputSuffix
      && (cards[k].testId.Some? ==> m.id == cards[k].testId.value)
      && (cards[k].testId.None? ==> m.id == FallbackIdPrefix + Decimal(j + CountFailing(cards[..k])))
  {
    KeptPosition(Candidates(elements), j);
  }

  /** Two entries whose cards have no `data-test-id` never share an id or a file. */
  lemma FallbackIdsDistinct(elements: seq<Card>, minutes: nat, template: string, a: nat, b: nat)
    requires var o := Scrape(Loaded(elements), minutes, template).outcome;
      a < b < |o.results|
    requires var cards := Candidates(elements);
      cards[Kept(cards)[a]].testId.None? && cards[Kept(cards)[b]].testId.None?
    ensures var o := Scrape(Loaded(elements), minutes, template).outcome;
      o.results[a].id != o.results[b].id && o.results[a].htmlFile != o.results[b].htmlFile
  {
    var cards := Candidates(elements);
    var o := Scrape(Loaded(elements), minutes, template).outcome;
    KeptSpec(cards);
    var ka, kb := Kept(cards)[a], Kept(cards)[b];
    if o.results[a].htmlFile == o.results[b].htmlFile {
      OutputFileInjective(o.results[a].id, o.results[b].id);
    }
    if o.results[a].id == o.results[b].id {
      assert Decimal(ka) == o.results[a].id[|FallbackIdPrefix|..];
      assert Decimal(kb) == o.results[b].id[|FallbackIdPrefix|..];
      DecimalInjective(ka, kb);
    }
  }

  /**
   * After the scrape, every entry's `html_file` exists; when the entries' ids are
   * all different, each entry's file holds the page rendered for its own card,
   * with its own title and markup and the chosen minutes.
   */
  lemma ScrapeFilesHoldRenders(elements: seq<Card>, minutes: nat, template: string, j: nat)
    requires j < |Scrape(Loaded(elements), minutes, template).outcome.results|
    ensures var o := Scrape(Loaded(elements), minutes, template).outcome;
      FileAt(o.written, o.results[j].htmlFile).Some?
    ensures var cards, o := Candidates(elements), Scrape(Loaded(elements), minutes, template).outcome;
      (forall a, b :: 0 <= a < b < |o.results| ==> o.results[a].id != o.results[b].id) ==>
        FileAt(o.written, o.results[j].htmlFile)
          == Some(Render(template, o.results[j].title, cards[Kept(cards)[j]].markup, minutes))
  {
    var o := Scrape(Loaded(elements), minutes, template).outcome;
    FileAtWritten(o.written, j);
    if forall a, b :: 0 <= a < b < |o.results| ==> o.results[a].id != o.results[b].id {
      forall k | j < k < |o.written| ensures o.written[k].path != o.written[j].path {
        if o.written[k].path == o.written[j].path {
          OutputFileInjective(o.results[j].id, o.results[k].id);
        }
      }
    }
  }

  /**
   * An error from the browser is passed on as it is. The session is closed by
   * the `finally`, except when `driver.get` raises: that call comes before the
   * `try`, so the session is left open.
   */
  lemma ScrapeErrorsAndSession(browser: Browser, minutes: nat, template: string)
    ensures var run := Scrape(browser, minutes, template);
      (run.outcome.Raised? <==> !browser.Loaded?)
      && (run.outcome.Raised? ==> run.outcome.error == browser.error)
      && (run.session == LeftOpen <==> browser.NavigationFailed?)
      && (run.session == Quit <==> browser.Loaded? || browser.LoadFailed?)
  {
  }

  /** The minutes numeral shares no character with the timer placeholder. */
  lemma TokenHasNoDigits(minutes: nat)
    ensures Disjoint(Decimal(minutes), TimerToken)
  {
    var d := Decimal(minutes);
    forall i | 0 <= i < |d| ensures d[i] !in TimerToken {
      assert IsDigit(d[i]);
    }
  }

  /** No `{{timer_minutes}}` placeholder survives rendering, whatever the title and content hold. */
  lemma RenderClearsTimer(template: string, title: string, content: string, minutes: nat)
    ensures !Contains(Render(template, title, content, minutes), TimerToken)
  {
    var html := ReplaceAll(ReplaceAll(template, TitleToken, title), ContentToken, content);
    TokenHasNoDigits(minutes);
    ReplaceAllRemoves(html, TimerToken, Decimal(minutes));
  }

  /** A template with none of the three placeholders is written unchanged. */
  lemma RenderWithoutTokens(template: string, title: string, content: string, minutes: nat)
    requires !Contains(template, TitleToken) && !Contains(template, ContentToken) && !Contains(template, TimerToken)
    ensures Render(template, title, content, minutes) == template
  {
    ReplaceAllAbsent(template, TitleToken, title);
    ReplaceAllAbsent(template, ContentToken, content);
    ReplaceAllAbsent(template, TimerToken, Decimal(minutes));
  }

  /** A `{{…}}` placeholder: it opens with `{{`, closes with `}` and holds no other `{{`. */
  predicate Placeholder(x: string) {
    |x| >= 3 && x[0] == '{' && x[1] == '{' && x[|x| - 1] == '}'
    && forall i :: 1 <= i < |x| - 1 ==> x[i] != '{' || x[i + 1] != '{'
  }

  /** `t` and `p` differ at some position both have, so neither is a prefix of the other. */
  predicate Diverge(t: string, p: string) {
    exists d :: 0 <= d < |t| && d < |p| && t[d] != p[d]
  }

  /** Occurrences of two diverging placeholders never overlap. */
  lemma PlaceholdersApart(s: string, t: string, k: int, p: string, j: int)
    requires Placeholder(t) && Placeholder(p) && Diverge(t, p)
    requires OccursAt(s, t, k) && OccursAt(s, p, j)
    ensures j + |p| <= k || k + |t| <= j
  {
    assert forall i :: k <= i < k + |t| ==> s[i] == s[k..k + |t|][i - k];
    assert forall i :: j <= i < j + |p| ==> s[i] == s[j..j + |p|][i - j];
    assert forall d :: 0 <= d < |t| ==> s[k + d] == t[d];
    assert forall d :: 0 <= d < |p| ==> s[j + d] == p[d];
    assert s[k + 1] == t[1] && s[j + 1] == p[1];
  }

  /** The three placeholders of the template are placeholders, and the timer's diverges from the others. */
  lemma TokensArePlaceholders()
    ensures Placeholder(TitleToken) && Placeholder(ContentToken) && Placeholder(TimerToken)
    ensures Diverge(TimerToken, TitleToken) && Diverge(TimerToken, ContentToken)
  {
    assert TimerToken[3] != TitleToken[3];
    assert TimerToken[3] != ContentToken[3];
  }

  /** A pass over the title or content placeholder keeps every timer placeholder, whatever it inserts. */
  lemma TimerSurvives(s: string, pat: string, rep: string)
    requires pat == TitleToken || pat == ContentToken
    requires Contains(s, TimerToken)
    ensures Contains(ReplaceAll(s, pat, rep), TimerToken)
  {
    TokensArePlaceholders();
    ContainsIff(s, TimerToken);
    var k :| OccursAt(s, TimerToken, k);
    forall j | OccursAt(s, pat, j) ensures j + |pat| <= k || k + |TimerToken| <= j {
      PlaceholdersApart(s, TimerToken, k, pat, j);
    }
    ReplaceAllKeeps(s, pat, rep, TimerToken, k);
  }

  /**
   * A template holding the timer placeholder shows the minutes: the title and
   * content passes leave that placeholder in place, whatever the title and
   * markup hold, and the last pass writes the numeral there.
   */
  lemma RenderShowsMinutes(template: string, title: string, content: string, minutes: nat)
    requires Contains(template, TimerToken)
    ensures Contains(Render(template, title, content, minutes), Decimal(minutes))
  {
    var titled := ReplaceAll(template, TitleToken, title);
    TimerSurvives(template, TitleToken, title);
    TimerSurvives(titled, ContentToken, content);
    ReplaceAllFound(ReplaceAll(titled, ContentToken, content), TimerToken, Decimal(minutes));
  }

  /** A pass over the title placeholder keeps every content placeholder, whatever it inserts. */
  lemma ContentSurvivesTitle(s: string, title: string)
    requires Contains(s, ContentToken)
    ensures Contains(ReplaceAll(s, TitleToken, title), ContentToken)
  {
    TokensArePlaceholders();
    assert ContentToken[7] != TitleToken[7];
    ContainsIff(s, ContentToken);
    var k :| OccursAt(s, ContentToken, k);
    forall j | OccursAt(s, TitleToken, j) ensures j + |TitleToken| <= k || k + |ContentToken| <= j {
      PlaceholdersApart(s, ContentToken, k, TitleToken, j);
    }
    ReplaceAllKeeps(s, TitleToken, title, ContentToken, k);
  }

  /**
   * A pass over a placeholder keeps an inserted text that does not contain it
   * and whose end characters are not in it.
   */
  lemma InsertedSurvives(s: string, x: string, pat: string, rep: string)
    requires pat != [] && x != [] && x[0] !in pat && x[|x| - 1] !in pat && !Contains(x, pat)
    requires Contains(s, x)
    ensures Contains(ReplaceAll(s, pat, rep), x)
  {
    ContainsIff(s, x);
    var k :| OccursAt(s, x, k);
    forall j | OccursAt(s, pat, j) ensures j + |pat| <= k || k + |x| <= j {
      NoStraddle(s, x, k, pat, j);
    }
    ReplaceAllKeeps(s, pat, rep, x, k);
  }

  /**
   * A template holding the content placeholder shows the card's markup, unless
   * the markup itself holds the timer placeholder, or begins or ends with one
   * of its characters, so that the last pass could rewrite part of it.
   */
  lemma RenderShowsContent(template: string, title: string, content: string, minutes: nat)
    requires Contains(template, ContentToken)
    requires content != [] && content[0] !in TimerToken && content[|content| - 1] !in TimerToken
    requires !Contains(content, TimerToken)
    ensures Contains(Render(template, title, content, minutes), content)
  {
    var titled := ReplaceAll(template, TitleToken, title);
    ContentSurvivesTitle(template, title);
    ReplaceAllFound(titled, ContentToken, content);
    InsertedSurvives(ReplaceAll(titled, ContentToken, content), content, TimerToken, Decimal(minutes));
  }

  /**
   * A template holding the title placeholder shows the title, unless the title
   * holds the content or timer placeholder, or begins or ends with one of their
   * characters, so that a later pass could rewrite part of it.
   */
  lemma RenderShowsTitle(template: string, title: string, content: string, minutes: nat)
    requires Contains(template, TitleToken)
    requires title != [] && title[0] !in ContentToken && title[|title| - 1] !in ContentToken
    requires title[0] !in TimerToken && title[|title| - 1] !in TimerToken
    requires !Contains(title, ContentToken) && !Contains(title, TimerToken)
    ensures Contains(Render(template, title, content, minutes), title)
  {
    var titled := ReplaceAll(template, TitleToken, title);
    ReplaceAllFound(template, TitleToken, title);
    InsertedSurvives(titled, title, ContentToken, content);
    InsertedSurvives(ReplaceAll(titled, ContentToken, content), title, TimerToken, Decimal(minutes));
  }

  /**
   * A pass over a placeholder keeps an inserted text that has no brace and
   * does not lie inside the placeholder: an occurrence of the placeholder
   * opens and closes with a brace, so it cannot reach into the text.
   */
  lemma BraceFreeSurvives(s: string, x: string, pat: string, rep: string)
    requires Placeholder(pat) && '{' !in x && '}' !in x && !Contains(pat, x)
    requires Contains(s, x)
    ensures Contains(ReplaceAll(s, pat, rep), x)
  {
    ContainsIff(s, x);
    var k :| OccursAt(s, x, k);
    forall j | OccursAt(s, pat, j) ensures j + |pat| <= k || k + |x| <= j {
      NoStraddleAround(s, x, k, pat, j);
    }
    ReplaceAllKeeps(s, pat, rep, x, k);
  }

  /**
   * A template holding the title placeholder shows every title without braces
   * that does not lie inside the content or timer placeholder.
   */
  lemma RenderShowsBraceFreeTitle(template: string, title: string, content: string, minutes: nat)
    requires Contains(template, TitleToken)
    requires '{' !in title && '}' !in title
    requires !Contains(ContentToken, title) && !Contains(TimerToken, title)
    ensures Contains(Render(template, title, content, minutes), title)
  {
    TokensArePlaceholders();
    var titled := ReplaceAll(template, TitleToken, title);
    ReplaceAllFound(template, TitleToken, title);
    BraceFreeSurvives(titled, title, ContentToken, content);
    BraceFreeSurvives(ReplaceAll(titled, ContentToken, content), title, TimerToken, Decimal(minutes));
  }

  /** `Mock Test` has no brace, and its first character is in neither the content nor the timer placeholder. */
  lemma DefaultTitleApart()
    ensures '{' !in DefaultTitle && '}' !in DefaultTitle
    ensures DefaultTitle[0] !in ContentToken && DefaultTitle[0] !in TimerToken
  {
  }

  /** The fallback title `Mock Test` always reaches a template that holds the title placeholder. */
  lemma RenderShowsDefaultTitle(template: string, content: string, minutes: nat)
    requires Contains(template, TitleToken)
    ensures Contains(Render(template, DefaultTitle, content, minutes), DefaultTitle)
  {
    DefaultTitleApart();
    NotContainedFirst(ContentToken, DefaultTitle);
    NotContainedFirst(TimerToken, DefaultTitle);
    RenderShowsBraceFreeTitle(template, DefaultTitle, content, minutes);
  }

  /** Replacing a whole string that is the pattern gives the replacement. */
  lemma ReplaceWhole(pat: string, rep: string)
    requires pat != []
    ensures ReplaceAll(pat, pat, rep) == rep
  {
    assert pat[..|pat|] == pat;
    assert pat[|pat|..] == [];
  }

  /**
   * The passes run in order: a title that itself is the content placeholder
   * receives the card's markup, and the minutes are then put into that markup.
   */
  lemma RenderTitleBeforeContent(content: string, minutes: nat)
    ensures Render(TitleToken, ContentToken, content, minutes)
      == ReplaceAll(content, TimerToken, Decimal(minutes))
  {
    ReplaceWhole(TitleToken, ContentToken);
    ReplaceWhole(ContentToken, content);
  }

  /** The content placeholder does not contain the title placeholder. */
  lemma ContentTokenLacksTitle()
    ensures !Contains(ContentToken, TitleToken)
  {
    forall k | 0 <= k <= |ContentToken| - |TitleToken| ensures !OccursAt(ContentToken, TitleToken, k) {
      if k == 0 {
        assert ContentToken[k..k + |TitleToken|][7] != TitleToken[7];
      } else {
        assert ContentToken[k..k + |TitleToken|][1] != TitleToken[1];
      }
    }
    NotContained(ContentToken, TitleToken);
  }

  /** Markup that holds the title placeholder keeps it: the title pass has already run. */
  lemma RenderContentAfterTitle(title: string, minutes: nat)
    ensures Render(ContentToken, title, TitleToken, minutes) == TitleToken
  {
    ContentTokenLacksTitle();
    ReplaceAllAbsent(ContentToken, TitleToken, title);
    ReplaceWhole(ContentToken, TitleToken);
    if Contains(TitleToken, TimerToken) {
      ContainsLength(TitleToken, TimerToken);
    }
    ReplaceAllAbsent(TitleToken, TimerToken, Decimal(minutes));
  }
}
