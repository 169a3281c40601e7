/**
 * The Telegram handlers of main.py, `start`, `handle_url` and `handle_timer`.
 * A handler's effect on the chat is the list of replies it sends, in order; the
 * scraper it calls is the model in Scraper.
 */
module Bot {
  import opened Options
  import opened Strings
  import opened Fields
  import opened Numerals
  import opened Scraper
  import opened ScraperProperties

  /** `ADMIN_CHAT_ID` as read from the environment; `None` when it is not set. */
  datatype Config = Config(adminChatId: Option<string>)

  /** An inline keyboard button: its text and its callback payload. */
  datatype Button = Button(name: string, data: string)

  /** What a handler sends back. */
  datatype Reply =
    | Text(text: string)                          // `reply_text` or `send_message`
    | Menu(prompt: string, buttons: seq<Button>)  // `reply_text` with a one-column inline keyboard
    | AnswerQuery                                 // `query.answer()`
    | Status(text: string)                        // `query.edit_message_text`
    | Document(filename: string, caption: string, content: string)  // `send_document`

  /** The duration and URL carried by a menu payload. */
  datatype TimerChoice = TimerChoice(minutes: nat, url: string)

  const UrlPrefix := "https://testbook.com/"
  const SeriesMarker := "/test-series"
  const PayloadPrefix := "timer_"
  const Separator := '_'
  const Durations: seq<nat> := [30, 60, 90, 120]
  const UnauthorizedText := "Unauthorized access."
  /** `https://testbook.com/ssc-cgl/test-series`, the example in the welcome message. */
  const ExampleUrl := UrlPrefix + "ssc-cgl" + SeriesMarker
  const WelcomeHead := "📚 TestBook Mock Test Scraper Bot\n\nSend me a TestBook test series URL (e.g., "
  const WelcomeTail := ")\n\nI'll extract mock tests and send them in HTML format with timer functionality."
  const WelcomeText := WelcomeHead + ExampleUrl + WelcomeTail
  const InvalidUrlText := "Please send a valid TestBook test series URL."
  const DurationPrompt := "⏱ Please select test duration:"
  const NoMocksText := "❌ No mock tests found on this page. Try a different URL."
  const ErrorPrefix := "❌ Error scraping mock tests: "

  /** `str(chat_id) == ADMIN_CHAT_ID`; never true when the variable is unset. */
  predicate IsAdmin(config: Config, chatId: int) {
    config.adminChatId == Some(IntToString(chatId))
  }

  /** The admin check lets through one chat at most. */
  lemma AdminIsOneChat(config: Config, a: int, b: int)
    requires IsAdmin(config, a) && IsAdmin(config, b)
    ensures a == b
  {
    IntToStringInjective(a, b);
  }

  /** The shape check of `handle_url`. */
  predicate IsTestSeriesUrl(url: string) {
    StartsWith(url, UrlPrefix) && Contains(url, SeriesMarker)
  }

  /** The welcome message shows the example URL, right after its head. */
  lemma WelcomeShowsExample()
    ensures Contains(WelcomeText, ExampleUrl)
  {
    ContainsMiddle(WelcomeHead, ExampleUrl, WelcomeTail);
  }

  /** The example URL over plain `http://`. */
  const PlainExampleUrl := "http" + ExampleUrl[5..]

  /** The example URL of the welcome message passes the check; the same over plain http does not. */
  lemma ExampleUrls()
    ensures Contains(WelcomeText, ExampleUrl)
    ensures IsTestSeriesUrl(ExampleUrl)
    ensures !IsTestSeriesUrl(PlainExampleUrl)
  {
    var plain := PlainExampleUrl;
    WelcomeShowsExample();
    var front := UrlPrefix + "ssc-cgl";
    assert ExampleUrl[..|UrlPrefix|] == UrlPrefix;
    assert ExampleUrl[|front|..] == SeriesMarker;
    ContainedAt(ExampleUrl, SeriesMarker, |front|);
    var prefix := UrlPrefix;
    assert prefix[4] == 's' && prefix[5] == ':';
    assert plain[4] == ExampleUrl[5] == prefix[5];
    assert plain[..|prefix|][4] != prefix[4];
  }

  /** `f"timer_{m}_{url}"`. */
  function TimerPayload(minutes: nat, url: string): string {
    PayloadPrefix + Decimal(minutes) + [Separator] + url
  }

  /** The four buttons of the duration menu, as `handle_url` writes them out. */
  function MenuButtons(url: string): seq<Button> {
    [ Button("30 mins", "timer_30_" + url),
      Button("60 mins", "timer_60_" + url),
      Button("90 mins", "timer_90_" + url),
      Button("120 mins", "timer_120_" + url) ]
  }

  /** The callback routing pattern `^timer_` of the dispatcher. */
  predicate RoutesToTimer(data: string) {
    StartsWith(data, PayloadPrefix)
  }

  /**
   * `handle_timer`'s decoding: split on `_`, `int(data[1])` and `'_'.join(data[2:])`;
   * `None` where Python raises (no second field, or one that is not a numeral).
   */
  function DecodePayload(data: string): Option<TimerChoice> {
    var fields := Split(data, Separator);
    if |fields| < 2 then None
    else
      match ParseNat(fields[1])
      case None => None
      case Some(m) => Some(TimerChoice(m, Join(fields[2..], Separator)))
  }

  /**
   * Decoding a payload gives back its minutes and exactly its URL, also when the
   * URL itself contains `_`: the URL's pieces are joined again with `_`.
   */
  lemma {:induction false} DecodeTimerPayload(minutes: nat, url: string)
    ensures DecodePayload(TimerPayload(minutes, url)) == Some(TimerChoice(minutes, url))
  {
    var d := Decimal(minutes);
    forall i | 0 <= i < |d| ensures d[i] != Separator {
      assert IsDigit(d[i]);
    }
    assert TimerPayload(minutes, url) == "timer" + [Separator] + (d + [Separator] + url);
    SplitField("timer", d + [Separator] + url, Separator);
    SplitField(d, url, Separator);
    var fields := Split(TimerPayload(minutes, url), Separator);
    assert fields == ["timer", d] + Split(url, Separator);
    assert fields[2..] == Split(url, Separator);
    JoinSplit(url, Separator);
    ParseDecimal(minutes);
  }

  /** The numerals of the four durations. */
  lemma DurationNumerals()
    ensures Decimal(30) == "30" && Decimal(60) == "60" && Decimal(90) == "90" && Decimal(120) == "120"
  {
    assert Decimal(3) == "3" && Decimal(6) == "6" && Decimal(9) == "9" && Decimal(1) == "1";
    assert Decimal(12) == Decimal(1) + [DigitChar(2)];
  }

  /** The button labels and payloads `handle_url` spells out are those of the four durations. */
  lemma MenuSpelling(url: string)
    ensures |MenuButtons(url)| == 4
    ensures forall i :: 0 <= i < 4 ==>
      MenuButtons(url)[i].name == Decimal(Durations[i]) + " mins"
      && MenuButtons(url)[i].data == TimerPayload(Durations[i], url)
  {
    DurationNumerals();
    assert "timer_30_" == PayloadPrefix + "30" + [Separator];
    assert "timer_60_" == PayloadPrefix + "60" + [Separator];
    assert "timer_90_" == PayloadPrefix + "90" + [Separator];
    assert "timer_120_" == PayloadPrefix + "120" + [Separator];
  }

  /**
   * The menu has exactly four buttons, for 30, 60, 90 and 120 minutes in that
   * order; each payload is `timer_<m>_<url>`, is routed to `handle_timer`, and
   * decodes to its own duration and the URL.
   */
  lemma MenuPayloads(url: string)
    ensures |MenuButtons(url)| == |Durations| == 4
    ensures forall i :: 0 <= i < 4 ==>
      var b := MenuButtons(url)[i];
      b.name == Decimal(Durations[i]) + " mins"
      && b.data == TimerPayload(Durations[i], url)
      && RoutesToTimer(b.data)
      && DecodePayload(b.data) == Some(TimerChoice(Durations[i], url))
  {
    MenuSpelling(url);
    forall i | 0 <= i < 4
      ensures RoutesToTimer(TimerPayload(Durations[i], url))
      ensures DecodePayload(TimerPayload(Durations[i], url)) == Some(TimerChoice(Durations[i], url))
    {
      DecodeTimerPayload(Durations[i], url);
      assert TimerPayload(Durations[i], url)[..|PayloadPrefix|] == PayloadPrefix;
    }
  }

  /** `start`: the welcome text for the admin, "Unauthorized access." for anyone else. */
  function Start(config: Config, chatId: int): (replies: seq<Reply>)
    ensures |replies| == 1
    ensures replies[0] == Text(UnauthorizedText) <==> !IsAdmin(config, chatId)
    ensures IsAdmin(config, chatId) ==> replies == [Text(WelcomeText)]
  {
    if !IsAdmin(config, chatId) then [Text(UnauthorizedText)] else [Text(WelcomeText)]
  }

  /** The reply is a single duration menu. */
  predicate ShowsMenu(replies: seq<Reply>) {
    |replies| == 1 && replies[0].Menu?
  }

  /**
   * `handle_url`: silence for anyone but the admin; for the admin the validation
   * message when the URL is not a test-series URL, and otherwise the duration
   * menu, whose every payload decodes back to that URL.
   */
  function HandleUrl(config: Config, chatId: int, text: string): (replies: seq<Reply>)
    ensures replies == [] <==> !IsAdmin(config, chatId)
    ensures ShowsMenu(replies) <==> IsAdmin(config, chatId) && IsTestSeriesUrl(text)
    ensures IsAdmin(config, chatId) && !IsTestSeriesUrl(text) ==> replies == [Text(InvalidUrlText)]
    ensures ShowsMenu(replies) ==>
      replies[0].prompt == DurationPrompt && replies[0].buttons == MenuButtons(text)
      && |replies[0].buttons| == 4
      && forall i :: 0 <= i < 4 ==>
        RoutesToTimer(replies[0].buttons[i].data)
        && DecodePayload(replies[0].buttons[i].data) == Some(TimerChoice(Durations[i], text))
  {
    if !IsAdmin(config, chatId) then []
    else if !IsTestSeriesUrl(text) then [Text(InvalidUrlText)]
    else
      MenuPayloads(text);
      [Menu(DurationPrompt, MenuButtons(text))]
  }

  /** `f"⏳ Scraping mock tests from {url} with {minutes} minute timer..."`. */
  function StatusText(choice: TimerChoice): string {
    "⏳ Scraping mock tests from " + choice.url + " with " + Decimal(choice.minutes) + " minute timer..."
  }

  /** `f"🧠 {title}\n⏱ Timer: {minutes} minutes"`. */
  function Caption(title: string, minutes: nat): string {
    "🧠 " + title + "\n⏱ Timer: " + Decimal(minutes) + " minutes"
  }

  /** `f"mock_test_{id}.html"`. */
  function DocumentName(id: string): string {
    "mock_test_" + id + ".html"
  }

  /** The caption shows the mock's title and the chosen minutes. */
  lemma CaptionShows(title: string, minutes: nat)
    ensures Contains(Caption(title, minutes), title)
    ensures Contains(Caption(title, minutes), Decimal(minutes))
  {
    var c := Caption(title, minutes);
    var d := Decimal(minutes);
    assert OccursAt(c, title, 2);
    assert OccursAt(c, d, |title| + 12);
    ContainsIff(c, title);
    ContainsIff(c, d);
  }

  /** The written path is `templates/` followed by the document's name. */
  lemma OutputFileIsFolderAndName(id: string)
    ensures OutputFile(id) == "templates/" + DocumentName(id)
  {
  }

  /** `str(e)` of the error `open` raises for a missing file. */
  function MissingFileError(path: string): string {
    "[Errno 2] No such file or directory: '" + path + "'"
  }

  /** The document `send_document` sends for a mock whose file holds `content`. */
  function DocumentFor(mock: Mock, content: string, minutes: nat): Reply {
    Document(DocumentName(mock.id), Caption(mock.title, minutes), content)
  }

  /** The position of the first mock whose file is missing, or the number of mocks when none is. */
  function FirstMissing(mocks: seq<Mock>, written: seq<HtmlFile>): (f: nat)
    ensures f <= |mocks|
    ensures forall j :: 0 <= j < f ==> FileAt(written, mocks[j].htmlFile).Some?
    ensures f < |mocks| ==> FileAt(written, mocks[f].htmlFile).None?
  {
    if mocks == [] || FileAt(written, mocks[0].htmlFile).None? then 0
    else 1 + FirstMissing(mocks[1..], written)
  }

  /**
   * The loop over `mocks` in `handle_timer`: one document per mock, in order,
   * until a file cannot be opened; that error ends the loop with the error message.
   */
  function Deliveries(mocks: seq<Mock>, written: seq<HtmlFile>, minutes: nat): seq<Reply> {
    var f := FirstMissing(mocks, written);
    seq(f, j requires 0 <= j < f => DocumentFor(mocks[j], FileAt(written, mocks[j].htmlFile).value, minutes))
      + (if f < |mocks| then [Text(ErrorPrefix + MissingFileError(mocks[f].htmlFile))] else [])
  }

  /** What the bot sends once the scrape has returned or raised. */
  function OutcomeReplies(outcome: ScrapeOutcome, minutes: nat): seq<Reply> {
    match outcome
    case Raised(e) => [Text(ErrorPrefix + e)]
    case Scraped(results, written) =>
      if results == [] then [Text(NoMocksText)] else Deliveries(results, written, minutes)
  }

  /**
   * `handle_timer`: the query is answered first; a chat other than the admin's
   * gets nothing more, and so does a payload that does not decode, because
   * decoding raises before the `try`; otherwise the prompt becomes the status
   * line, the scrape runs, and its outcome is reported.
   */
  function TimerReplies(config: Config, chatId: int, data: string, browser: Browser, template: string): seq<Reply> {
    if !IsAdmin(config, chatId) then [AnswerQuery]
    else
      match DecodePayload(data)
      case None => [AnswerQuery]
      case Some(choice) =>
        [AnswerQuery, Status(StatusText(choice))]
          + OutcomeReplies(Scrape(browser, choice.minutes, template).outcome, choice.minutes)
  }

  /** The document loop of `handle_timer`. */
  method SendDocuments(mocks: seq<Mock>, written: seq<HtmlFile>, minutes: nat) returns (replies: seq<Reply>)
    ensures replies == Deliveries(mocks, written, minutes)
  {
    replies := [];
    var k := 0;
    while k < |mocks|
      invariant k <= FirstMissing(mocks, written)
      invariant replies == seq(k, j requires 0 <= j < k =>
        DocumentFor(mocks[j], FileAt(written, mocks[j].htmlFile).value, minutes))
    {
      var mock := mocks[k];
      match FileAt(written, mock.htmlFile) {
        case None =>
          replies := replies + [Text(ErrorPrefix + MissingFileError(mock.htmlFile))];
          return;
        case Some(content) =>
          replies := replies + [DocumentFor(mock, content, minutes)];
          k := k + 1;
      }
    }
  }

  /** `handle_timer`; `scraped` tells whether the scraper was started. */
  method HandleTimer(config: Config, chatId: int, data: string, browser: Browser, template: string)
    returns (replies: seq<Reply>, scraped: bool)
    ensures replies == TimerReplies(config, chatId, data, browser, template)
    ensures scraped <==> IsAdmin(config, chatId) && DecodePayload(data).Some?
  {
    replies, scraped := [AnswerQuery], false;
    if !IsAdmin(config, chatId) {
      return;
    }
    var choice := DecodePayload(data);
    if choice.None? {
      return;
    }
    var minutes := choice.value.minutes;
    scraped := true;
    var run := ScrapeTestSeries(browser, minutes, template);
    var report := ReportOutcome(run.outcome, minutes);
    replies := [AnswerQuery, Status(StatusText(choice.value))] + report;
  }

  /** The `try` body of `handle_timer` after the scrape: the no-mocks message, the documents, or the error. */
  method ReportOutcome(outcome: ScrapeOutcome, minutes: nat) returns (replies: seq<Reply>)
    ensures replies == OutcomeReplies(outcome, minutes)
  {
    match outcome {
      case Raised(e) =>
        replies := [Text(ErrorPrefix + e)];
      case Scraped(mocks, written) =>
        if mocks == [] {
          replies := [Text(NoMocksText)];
        } else {
          replies := SendDocuments(mocks, written, minutes);
        }
    }
  }

  /** Anyone but the admin only has the query answered: no status line, no scrape, no document. */
  lemma TimerIgnoresOthers(config: Config, chatId: int, data: string, browser: Browser, template: string)
    requires !IsAdmin(config, chatId)
    ensures TimerReplies(config, chatId, data, browser, template) == [AnswerQuery]
  {
  }

  /** When every mock's file exists, the loop sends one document per mock and no error. */
  lemma DeliveriesAllDocuments(mocks: seq<Mock>, written: seq<HtmlFile>, minutes: nat)
    requires forall k :: 0 <= k < |mocks| ==> FileAt(written, mocks[k].htmlFile).Some?
    ensures |Deliveries(mocks, written, minutes)| == |mocks|
    ensures forall k :: 0 <= k < |mocks| ==>
      Deliveries(mocks, written, minutes)[k] == DocumentFor(mocks[k], FileAt(written, mocks[k].htmlFile).value, minutes)
  {
    assert FirstMissing(mocks, written) == |mocks|;
  }

  /** Every entry of a scrape has its file, so the document loop never meets a missing file. */
  lemma ScrapedFilesExist(browser: Browser, minutes: nat, template: string)
    requires Scrape(browser, minutes, template).outcome.Scraped?
    ensures var o := Scrape(browser, minutes, template).outcome;
      forall k :: 0 <= k < |o.results| ==> FileAt(o.written, o.results[k].htmlFile).Some?
  {
    var o := Scrape(browser, minutes, template).outcome;
    forall k | 0 <= k < |o.results| ensures FileAt(o.written, o.results[k].htmlFile).Some? {
      ScrapeFilesHoldRenders(browser.elements, minutes, template, k);
    }
  }

  /**
   * For the admin and a payload that decodes, the query is answered, the prompt
   * shows the URL and the decoded minutes, and then exactly one of: the error
   * text of a failed scrape, the "no mock tests" message, or one document per
   * entry in order, named `mock_test_<id>.html`, captioned with the entry's title
   * and the minutes, and holding the file the scrape wrote at the entry's `html_file`.
   */
  lemma TimerOutcomes(config: Config, chatId: int, data: string, browser: Browser, template: string)
    requires IsAdmin(config, chatId) && DecodePayload(data).Some?
    ensures var choice := DecodePayload(data).value;
      var o := Scrape(browser, choice.minutes, template).outcome;
      var replies := TimerReplies(config, chatId, data, browser, template);
      |replies| >= 3 && replies[..2] == [AnswerQuery, Status(StatusText(choice))]
      && (o.Raised? ==> replies[2..] == [Text(ErrorPrefix + o.error)])
      && (o.Scraped? && o.results == [] ==> replies[2..] == [Text(NoMocksText)])
      && (o.Scraped? && o.results != [] ==>
            |replies| == 2 + |o.results|
            && forall k :: 0 <= k < |o.results| ==>
                 replies[2 + k].Document?
                 && replies[2 + k].filename == DocumentName(o.results[k].id)
                 && replies[2 + k].caption == Caption(o.results[k].title, choice.minutes)
                 && FileAt(o.written, o.results[k].htmlFile) == Some(replies[2 + k].content))
  {
    var choice := DecodePayload(data).value;
    var o := Scrape(browser, choice.minutes, template).outcome;
    var head := [AnswerQuery, Status(StatusText(choice))];
    var replies := TimerReplies(config, chatId, data, browser, template);
    assert replies == head + OutcomeReplies(o, choice.minutes);
    assert replies[..2] == head;
    assert replies[2..] == OutcomeReplies(o, choice.minutes);
    if o.Scraped? && o.results != [] {
      ScrapedFilesExist(browser, choice.minutes, template);
      DeliveriesAllDocuments(o.results, o.written, choice.minutes);
    }
  }

  /**
   * When the entries' ids are all different, the document for each entry holds
   * the page rendered for that entry's own card, title and the chosen minutes.
   */
  lemma TimerDocumentsHoldOwnPages(config: Config, chatId: int, data: string, elements: seq<Card>, template: string, k: nat)
    requires IsAdmin(config, chatId) && DecodePayload(data).Some?
    requires var o := Scrape(Loaded(elements), DecodePayload(data).value.minutes, template).outcome;
      k < |o.results| && forall a, b :: 0 <= a < b < |o.results| ==> o.results[a].id != o.results[b].id
    ensures var minutes := DecodePayload(data).value.minutes;
      var o := Scrape(Loaded(elements), minutes, template).outcome;
      var cards := Candidates(elements);
      var replies := TimerReplies(config, chatId, data, Loaded(elements), template);
      2 + k < |replies| && replies[2 + k]
        == Document(DocumentName(o.results[k].id), Caption(o.results[k].title, minutes),
                    Render(template, o.results[k].title, cards[Kept(cards)[k]].markup, minutes))
  {
    var minutes := DecodePayload(data).value.minutes;
    var o := Scrape(Loaded(elements), minutes, template).outcome;
    var cards := Candidates(elements);
    var r := TimerReplies(config, chatId, data, Loaded(elements), template);
    TimerOutcomes(config, chatId, data, Loaded(elements), template);
    var d := r[2 + k];
    assert d.Document? && d.filename == DocumentName(o.results[k].id) && d.caption == Caption(o.results[k].title, minutes);
    assert FileAt(o.written, o.results[k].htmlFile) == Some(d.content);
    ScrapeFilesHoldRenders(elements, minutes, template, k);
    assert d.content == Render(template, o.results[k].title, cards[Kept(cards)[k]].markup, minutes);
  }
}
