/**
 * `TestBookScraper` (testbook_scraper.py): which cards of a loaded page become
 * mock tests, the id, title and file name each one gets, and the page rendered
 * for it from the template. The browser is reduced to what it yields for a URL,
 * the HTML parser to the elements and fields the selectors pick out, and the
 * file system to the sequence of files written.
 */
module Scraper {
  import opened Options
  import opened Strings
  import opened Numerals

  /** Only the first three qualifying cards are processed. */
  const MaxTests := 3
  const SeriesCardClass := "test-series-card"
  const CardClass := "testCard"
  const FreeClass := "free"
  const DefaultTitle := "Mock Test"
  const FallbackIdPrefix := "mock_"
  const OutputPrefix := "templates/mock_test_"
  const OutputSuffix := ".html"
  const TitleToken := "{{test_title}}"
  const ContentToken := "{{test_content}}"
  const TimerToken := "{{timer_minutes}}"

  /**
   * One element of the loaded page as the selectors see it: its classes, its
   * `data-test-id` attribute, the text pieces of the first element inside it
   * that the title selector matches, its serialised markup (`str(card)`), and
   * whether processing it raises.
   */
  datatype Card = Card(
    classes: set<string>,
    testId: Option<string>,
    titleText: Option<seq<string>>,
    markup: string,
    fails: bool)

  /** One entry of the returned list: the dictionary with `id`, `title` and `html_file`. */
  datatype Mock = Mock(id: string, title: string, htmlFile: string)

  /** A file written by the renderer. */
  datatype HtmlFile = HtmlFile(path: string, content: string)

  /** What the browser yields for the requested URL. */
  datatype Browser =
    | StartFailed(error: string)       // constructing the Chrome driver raises
    | NavigationFailed(error: string)  // `driver.get(url)` raises
    | LoadFailed(error: string)        // the 20-second wait times out, or scrolling or reading the page raises
    | Loaded(elements: seq<Card>)      // the wait succeeded: the final page's elements, in document order

  /** The browser session after a scrape. */
  datatype Session = NotStarted | LeftOpen | Quit

  datatype ScrapeOutcome =
    | Scraped(results: seq<Mock>, written: seq<HtmlFile>)
    | Raised(error: string)

  datatype ScrapeRun = ScrapeRun(outcome: ScrapeOutcome, session: Session)

  /** Matches `.test-series-card:not(.free), .testCard:not(.free)`. */
  predicate Qualifies(c: Card) {
    (SeriesCardClass in c.classes || CardClass in c.classes) && FreeClass !in c.classes
  }

  /**
   * The condition the 20-second wait waits for: some element with either card
   * class, `free` or not. A page on which it never holds is a `LoadFailed`.
   */
  predicate WaitFinds(elements: seq<Card>) {
    exists i :: 0 <= i < |elements| && HasCardClass(elements[i])
  }

  /** Matches `.test-series-card, .testCard`. */
  predicate HasCardClass(c: Card) {
    SeriesCardClass in c.classes || CardClass in c.classes
  }

  /** `soup.select(...)`: the qualifying elements in document order. */
  function Select(elements: seq<Card>): (cards: seq<Card>)
    ensures |cards| <= |elements|
    ensures forall i :: 0 <= i < |cards| ==> Qualifies(cards[i]) && cards[i] in elements
    ensures forall i :: 0 <= i < |elements| && Qualifies(elements[i]) ==> elements[i] in cards
  {
    if elements == [] then []
    else (if Qualifies(elements[0]) then [elements[0]] else []) + Select(elements[1..])
  }

  /** Nothing is selected from elements none of which qualifies. */
  lemma {:induction false} SelectNone(elements: seq<Card>)
    requires forall i :: 0 <= i < |elements| ==> !Qualifies(elements[i])
    ensures Select(elements) == []
  {
    if elements != [] {
      SelectNone(elements[1..]);
    }
  }

  /** Selection keeps document order: selecting from a concatenation concatenates the selections. */
  lemma {:induction false} SelectAppend(a: seq<Card>, b: seq<Card>)
    ensures Select(a + b) == Select(a) + Select(b)
  {
    if a == [] {
      assert a + b == b;
    } else {
      assert (a + b)[1..] == a[1..] + b;
      SelectAppend(a[1..], b);
    }
  }

  /** `test_cards[:3]`. */
  function Capped(cards: seq<Card>): (r: seq<Card>)
    ensures |r| == if |cards| <= MaxTests then |cards| else MaxTests
    ensures r == cards[..|r|]
  {
    if |cards| <= MaxTests then cards else cards[..MaxTests]
  }

  /** The cards the loop goes through: the first three qualifying ones. */
  function Candidates(elements: seq<Card>): seq<Card> {
    Capped(Select(elements))
  }

  /** Positions, in increasing order, of the cards whose processing does not raise. */
  function Kept(cards: seq<Card>): (k: seq<nat>)
    ensures |k| <= |cards|
    ensures forall j :: 0 <= j < |k| ==> k[j] < |cards| && !cards[k[j]].fails
    decreases |cards|
  {
    if cards == [] then []
    else
      var n := |cards| - 1;
      Kept(cards[..n]) + (if cards[n].fails then [] else [n])
  }

  /** The number of cards whose processing raises. */
  function CountFailing(cards: seq<Card>): nat
    decreases |cards|
  {
    if cards == [] then 0
    else CountFailing(cards[..|cards| - 1]) + (if cards[|cards| - 1].fails then 1 else 0)
  }

  /** The kept positions increase strictly. */
  lemma {:induction false} KeptIncreasing(cards: seq<Card>)
    ensures forall a, b :: 0 <= a < b < |Kept(cards)| ==> Kept(cards)[a] < Kept(cards)[b]
    decreases |cards|
  {
    if cards != [] {
      var n := |cards| - 1;
      var prev := Kept(cards[..n]);
      KeptIncreasing(cards[..n]);
      var k := Kept(cards);
      assert k == prev + (if cards[n].fails then [] else [n]);
      forall a, b | 0 <= a < b < |k| ensures k[a] < k[b] {
        assert k[a] == prev[a];
      }
    }
  }

  /** Every card that does not fail has its position kept. */
  lemma {:induction false} KeptComplete(cards: seq<Card>)
    ensures forall i :: 0 <= i < |cards| && !cards[i].fails ==> i in Kept(cards)
    decreases |cards|
  {
    if cards != [] {
      var n := |cards| - 1;
      var prev := Kept(cards[..n]);
      KeptComplete(cards[..n]);
      var k := Kept(cards);
      assert k == prev + (if cards[n].fails then [] else [n]);
      forall i | 0 <= i < |cards| && !cards[i].fails ensures i in k {
        if i < n {
          assert cards[..n][i] == cards[i];
          assert i in prev;
        } else {
          assert k[|k| - 1] == n;
        }
      }
    }
  }

  /** As many positions are dropped as cards fail. */
  lemma {:induction false} KeptCount(cards: seq<Card>)
    ensures |Kept(cards)| + CountFailing(cards) == |cards|
    decreases |cards|
  {
    if cards != [] {
      KeptCount(cards[..|cards| - 1]);
    }
  }

  /**
   * `Kept` lists exactly the positions of the cards that do not fail, each once
   * and in increasing order, and is as much shorter than the list as cards fail.
   */
  lemma {:induction false} KeptSpec(cards: seq<Card>)
    ensures forall a, b :: 0 <= a < b < |Kept(cards)| ==> Kept(cards)[a] < Kept(cards)[b]
    ensures forall i :: 0 <= i < |cards| && !cards[i].fails ==> i in Kept(cards)
    ensures |Kept(cards)| + CountFailing(cards) == |cards|
  {
    KeptIncreasing(cards);
    KeptComplete(cards);
    KeptCount(cards);
  }

  /** The kept positions below `i` are those of the first `i` cards, and they come first. */
  lemma {:induction false} KeptPrefix(cards: seq<Card>, i: nat)
    requires i <= |cards|
    ensures |Kept(cards[..i])| <= |Kept(cards)|
    ensures Kept(cards[..i]) == Kept(cards)[..|Kept(cards[..i])|]
    ensures forall j :: |Kept(cards[..i])| <= j < |Kept(cards)| ==> Kept(cards)[j] >= i
    decreases |cards| - i
  {
    if i < |cards| {
      var n := |cards| - 1;
      assert cards[..n][..i] == cards[..i];
      KeptPrefix(cards[..n], i);
    } else {
      assert cards[..i] == cards;
    }
  }

  /**
   * A kept card's position is its place among the kept cards plus the number of
   * failing cards before it: a card that raises still uses up its position.
   */
  lemma KeptPosition(cards: seq<Card>, j: nat)
    requires j < |Kept(cards)|
    ensures Kept(cards)[j] == j + CountFailing(cards[..Kept(cards)[j]])
  {
    var k := Kept(cards);
    var p := k[j];
    KeptIncreasing(cards);
    KeptPrefix(cards, p + 1);
    var a := Kept(cards[..p + 1]);
    assert cards[..p + 1][..p] == cards[..p];
    assert a == Kept(cards[..p]) + [p];
    assert k[|a| - 1] == p;
    assert |a| - 1 == j;
    KeptCount(cards[..p]);
  }

  /** `card.get('data-test-id', f"mock_{i}")`. */
  function CardId(c: Card, i: nat): string {
    match c.testId
    case Some(v) => v
    case None => FallbackIdPrefix + Decimal(i)
  }

  /** `f"templates/mock_test_{test_id}.html"`. */
  function OutputFile(id: string): string {
    OutputPrefix + id + OutputSuffix
  }

  /** Different ids give different output files. */
  lemma OutputFileInjective(a: string, b: string)
    requires OutputFile(a) == OutputFile(b)
    ensures a == b
  {
    var fa, fb := OutputFile(a), OutputFile(b);
    assert a == fa[|OutputPrefix|..|fa| - |OutputSuffix|];
    assert b == fb[|OutputPrefix|..|fb| - |OutputSuffix|];
  }

  /** `get_text(strip=True)`: every text piece stripped, then all of them concatenated. */
  function StrippedText(pieces: seq<string>): (r: string)
    ensures r == [] || (!IsSpace(r[0]) && !IsSpace(r[|r| - 1]))
  {
    if pieces == [] then []
    else
      StripSpec(pieces[0]);
      Strip(pieces[0]) + StrippedText(pieces[1..])
  }

  /** The text pieces strip to nothing exactly when every piece is whitespace. */
  lemma {:induction false} StrippedTextEmpty(pieces: seq<string>)
    ensures StrippedText(pieces) == [] <==> forall k :: 0 <= k < |pieces| ==> AllSpace(pieces[k])
  {
    if pieces != [] {
      StripEmptyIff(pieces[0]);
      StrippedTextEmpty(pieces[1..]);
      assert forall k :: 1 <= k < |pieces| ==> pieces[k] == pieces[1..][k - 1];
    }
  }

  /** `_get_test_title`: the stripped text of the title element, or "Mock Test" when there is none. */
  function Title(c: Card): string {
    match c.titleText
    case Some(pieces) => StrippedText(pieces)
    case None => DefaultTitle
  }

  /**
   * A title never begins or ends with whitespace, and it is empty exactly when
   * the card has a title element whose text is all whitespace (the fallback
   * applies only when there is no title element).
   */
  lemma TitleSpec(c: Card)
    ensures Title(c) == [] || (!IsSpace(Title(c)[0]) && !IsSpace(Title(c)[|Title(c)| - 1]))
    ensures Title(c) == [] <==> c.titleText.Some? && forall k :: 0 <= k < |c.titleText.value| ==> AllSpace(c.titleText.value[k])
  {
    if c.titleText.Some? {
      StrippedTextEmpty(c.titleText.value);
    }
  }

  /** The result entry for the card at position `i` of the processed list. */
  function MockFor(c: Card, i: nat): Mock {
    var id := CardId(c, i);
    Mock(id, Title(c), OutputFile(id))
  }

  /** `_generate_html`'s three substitutions, in order: title, then content, then minutes. */
  function Render(template: string, title: string, content: string, minutes: nat): string {
    var html := ReplaceAll(template, TitleToken, title);
    var html := ReplaceAll(html, ContentToken, content);
    ReplaceAll(html, TimerToken, Decimal(minutes))
  }

  /** The file written for the card at position `i`. */
  function FileFor(c: Card, i: nat, template: string, minutes: nat): HtmlFile {
    var m := MockFor(c, i);
    HtmlFile(m.htmlFile, Render(template, m.title, c.markup, minutes))
  }

  /** What a file holds after the writes: the content of the last write to its path. */
  function FileAt(written: seq<HtmlFile>, path: string): Option<string> {
    if written == [] then None
    else if written[|written| - 1].path == path then Some(written[|written| - 1].content)
    else FileAt(written[..|written| - 1], path)
  }

  /** A written path holds some content; a write not followed by another to the same path is what it holds. */
  lemma {:induction false} FileAtWritten(written: seq<HtmlFile>, j: nat)
    requires j < |written|
    ensures FileAt(written, written[j].path).Some?
    ensures (forall k :: j < k < |written| ==> written[k].path != written[j].path)
      ==> FileAt(written, written[j].path) == Some(written[j].content)
  {
    var n := |written| - 1;
    if j < n && written[n].path != written[j].path {
      FileAtWritten(written[..n], j);
      forall k | j < k < n ensures written[..n][k].path == written[k].path { }
    }
  }

  /** The entries the loop returns for `cards`: one per card that does not raise, at its position. */
  function Results(cards: seq<Card>): seq<Mock> {
    var kept := Kept(cards);
    seq(|kept|, j requires 0 <= j < |kept| => MockFor(cards[kept[j]], kept[j]))
  }

  /** The files the loop writes for `cards`, in the same order as `Results`. */
  function Files(cards: seq<Card>, template: string, minutes: nat): seq<HtmlFile> {
    var kept := Kept(cards);
    seq(|kept|, j requires 0 <= j < |kept| => FileFor(cards[kept[j]], kept[j], template, minutes))
  }

  /** One more card adds its entry and file at the end, or nothing when it raises. */
  lemma ResultsStep(cards: seq<Card>, i: nat, template: string, minutes: nat)
    requires i < |cards|
    ensures Results(cards[..i + 1]) ==
      Results(cards[..i]) + (if cards[i].fails then [] else [MockFor(cards[i], i)])
    ensures Files(cards[..i + 1], template, minutes) ==
      Files(cards[..i], template, minutes) + (if cards[i].fails then [] else [FileFor(cards[i], i, template, minutes)])
  {
    var s := cards[..i + 1];
    assert s[..i] == cards[..i];
    assert Kept(s) == Kept(cards[..i]) + (if cards[i].fails then [] else [i]);
  }

  /**
   * `scrape_test_series(url, timer_minutes)` followed by `driver.quit()` in its
   * `finally`: the entries and files for the first three qualifying cards that do
   * not raise, in order, each keeping its position in the capped list.
   */
  function Scrape(browser: Browser, minutes: nat, template: string): ScrapeRun {
    match browser
    case StartFailed(e) => ScrapeRun(Raised(e), NotStarted)
    case NavigationFailed(e) => ScrapeRun(Raised(e), LeftOpen)
    case LoadFailed(e) => ScrapeRun(Raised(e), Quit)
    case Loaded(elements) =>
      var cards := Candidates(elements);
      ScrapeRun(Scraped(Results(cards), Files(cards, template, minutes)), Quit)
  }

  /** The `for` loop of `scrape_test_series`: one entry and one file per card that does not raise. */
  method ProcessCards(cards: seq<Card>, minutes: nat, template: string)
    returns (results: seq<Mock>, written: seq<HtmlFile>)
    ensures results == Results(cards)
    ensures written == Files(cards, template, minutes)
  {
    results, written := [], [];
    for i := 0 to |cards|
      invariant results == Results(cards[..i])
      invariant written == Files(cards[..i], template, minutes)
    {
      ResultsStep(cards, i, template, minutes);
      var card := cards[i];
      if !card.fails {
        var testId := CardId(card, i);
        var testTitle := Title(card);
        var filename := OutputFile(testId);
        written := written + [HtmlFile(filename, Render(template, testTitle, card.markup, minutes))];
        results := results + [Mock(testId, testTitle, filename)];
      }
    }
    assert cards[..|cards|] == cards;
  }

  /** `scrape_test_series`, from the browser's outcome to the returned list or the raised error. */
  method ScrapeTestSeries(browser: Browser, minutes: nat, template: string) returns (run: ScrapeRun)
    ensures run == Scrape(browser, minutes, template)
  {
    match browser {
      case StartFailed(e) =>
        run := ScrapeRun(Raised(e), NotStarted);
      case NavigationFailed(e) =>
        run := ScrapeRun(Raised(e), LeftOpen);
      case LoadFailed(e) =>
        run := ScrapeRun(Raised(e), Quit);
      case Loaded(elements) =>
        var testCards := Select(elements);
        if testCards == [] {
          assert Results(Candidates(elements)) == [];
          assert Files(Candidates(elements), template, minutes) == [];
          run := ScrapeRun(Scraped([], []), Quit);
          return;
        }
        var results, written := ProcessCards(Capped(testCards), minutes, template);
        run := ScrapeRun(Scraped(results, written), Quit);
    }
  }
}
