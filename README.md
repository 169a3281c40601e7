# Mockbot core in Dafny

Mockbot is a personal Telegram bot. It takes a TestBook test-series URL from its
admin and offers a menu of four durations. It then scrapes the page for up to
three paid mock-test cards, renders each card into a timed HTML page from a
template, and sends the pages back as documents. This project models the
logic that remains once the browser, the HTML parser, the file system and the
Telegram API are abstracted away:

- **Scraper** (`testbook_scraper.py`). `Select` picks the qualifying cards of a
  loaded page: class `test-series-card` or `testCard`, and not `free`.
  `Capped` keeps the first three. The loop `ProcessCards` skips every card whose
  processing raises. It gives each remaining card an id (its `data-test-id`, else
  `mock_<position>`) and a title (the stripped title text, else `Mock Test`).
  It also builds the output file name and writes the page that `Render` produces
  with three replace-all passes over the template. `ScrapeTestSeries` adds the
  browser's possible failures and what happens to the browser session.
- **Bot** (`main.py`). It covers the admin check, the URL shape check, the
  duration menu and its `timer_<m>_<url>` callback payloads, and decoding those
  payloads by splitting on `_`. `HandleTimer` decides what is sent back: nothing
  more than the query answer, an error text, a "no mock tests" message, or
  one document per mock.
- **Strings, Fields, Numerals**. These are the Python built-ins the two files
  rely on: `str.startswith`, `in`, `str.replace`, `str.strip`, `str.split`,
  `str.join`, `str()` of integers and `int()` of digit strings.

The browser is reduced to what it yields for a URL (`Scraper.Browser`): a
start failure, a navigation failure, a load failure (the 20-second wait timing
out, scrolling or reading the page raising), or, once the wait has found a
card, the page's elements in document order. A page element is an abstract `Card`: its classes, its optional
`data-test-id`, the text pieces of its first title element if one matches, its
markup, and whether processing it raises. The template is a string parameter.
The files written are returned as a sequence, in writing order. `FileAt` gives
what a path holds afterwards. The admin chat id from the environment is a
`Bot.Config`. What a handler sends is a list of `Bot.Reply` values.

Facts about the code that the model keeps:

- Cards are picked by one union selector, `.test-series-card:not(.free), .testCard:not(.free)`,
  and at most the first 3 are processed.
- The callback payload is `timer_<m>_<url>`. Decoding splits it on `_`, reads
  the second field as the minutes, and rejoins every field from the third on
  with `_`, so a URL containing `_` comes back intact (`Bot.DecodeTimerPayload`).
- `driver.get(url)` runs before the `try` whose `finally` calls
  `driver.quit()`. A navigation failure therefore leaves the browser session
  open (`ScraperProperties.ScrapeErrorsAndSession`).
- Each handler treats a sender other than the admin in its own way:
  - `start` replies "Unauthorized access.";
  - `handle_url` replies nothing;
  - `handle_timer` answers the query and then does nothing.
- Decoding the payload happens before the `try` of `handle_timer`, so a
  payload that does not decode produces only the query answer.
- The caption is `🧠 <title>\n⏱ Timer: <m> minutes`.

## Model

| member | source | states |
|---|---|---|
| Strings.StartsWith | main.py:28 | `url.startswith(p)`: `p` is the first `|p|` characters of `url` |
| Strings.Contains | main.py:28 | `t in s`, a left-to-right scan; `ContainsIff` proves it equals the existence of an occurrence |
| Strings.ReplaceAll | testbook_scraper.py:80-82 | `str.replace`: scanning from the left, each occurrence that does not overlap an earlier replaced one is replaced; its properties are the `ReplaceAll…` lemmas |
| Strings.ContainsIff | main.py:28 | the left-to-right scan behind `t in s` succeeds exactly when `t` occurs at some position of `s` |
| Strings.ReplaceAllAbsent | testbook_scraper.py:80-82 | `replace` of a pattern that does not occur returns the string unchanged |
| Strings.ReplaceAllFound | testbook_scraper.py:80-82 | when the pattern occurs, the replacement occurs in the result |
| Strings.ReplaceAllRemoves | testbook_scraper.py:82 | with a non-empty replacement that shares no character with the pattern, no occurrence of the pattern survives, including occurrences newly formed across replacement boundaries |
| Strings.NoStraddleAround | testbook_scraper.py:80-82 | an occurrence of a pattern whose end characters are not in a string, and which does not contain it, cannot overlap an occurrence of that string |
| Strings.NoStraddle | testbook_scraper.py:80-82 | an occurrence of a pattern cannot overlap an occurrence of a string that does not contain the pattern and whose end characters are not in it |
| Strings.ReplaceAllKeeps | testbook_scraper.py:80-82 | an occurrence of another string that no occurrence of the pattern overlaps survives the replacement |
| Strings.IsSpace | testbook_scraper.py:64 | the characters Python's `str.isspace` accepts, which `strip` drops |
| Strings.Strip | testbook_scraper.py:64 | `str.strip()` as `rstrip` after `lstrip`; `StripSpec`, `StripEmptyIff` and `StripIdempotent` give its properties |
| Strings.TrimLeft | testbook_scraper.py:64 | `lstrip` returns a suffix of the input, drops only whitespace, and does not begin with whitespace |
| Strings.TrimRight | testbook_scraper.py:64 | `rstrip` returns a prefix of the input, drops only whitespace, and does not end with whitespace |
| Strings.StripSpec | testbook_scraper.py:64 | `strip` returns the slice between a whitespace-only head and tail, and that slice begins and ends with non-whitespace |
| Strings.StripEmptyIff | testbook_scraper.py:64 | a string strips to nothing exactly when it is all whitespace |
| Strings.StripIdempotent | testbook_scraper.py:64 | stripping twice gives the same as stripping once |
| Numerals.IntToString | main.py:13 | `str(chat_id)` for any integer, a `-` before negatives; `IntToStringInjective` proves it injective |
| Numerals.ParseNat | main.py:50 | `int()` of a digit string, `None` for anything else; `ParseDecimal` proves it inverts `Decimal` |
| Numerals.Decimal | testbook_scraper.py:43 | `str(n)` is a non-empty ASCII digit string with no leading zero unless `n` is 0 |
| Numerals.ParseDecimal | main.py:50 | `int(str(n)) == n` |
| Numerals.DecimalInjective | testbook_scraper.py:43 | different positions give different `mock_<i>` numerals |
| Numerals.IntToStringInjective | main.py:13 | different chat ids have different `str` forms, negative ids included |
| Fields.Join | main.py:51 | `'_'.join(parts)`; `JoinSplit` and `SplitJoin` prove it inverse to `Split` |
| Fields.Split | main.py:49 | `split('_')` yields at least one piece, and no piece holds the separator |
| Fields.JoinSplit | main.py:49-51 | `'_'.join(s.split('_')) == s` for every string |
| Fields.SplitJoin | main.py:49-51 | splitting a join of separator-free pieces returns those pieces |
| Fields.SplitField | main.py:49-51 | a separator-free field followed by `_` is split off as the first piece and the rest is split alone |
| Scraper.Qualifies | testbook_scraper.py:35 | the union selector: class `test-series-card` or `testCard`, and not class `free`; `Select` keeps exactly these cards |
| Scraper.Select | testbook_scraper.py:35 | every selected card qualifies and is on the page, and every qualifying card of the page is selected |
| Scraper.SelectAppend | testbook_scraper.py:35 | selection keeps document order: selecting from a concatenation concatenates the selections |
| Scraper.Candidates | testbook_scraper.py:35-41 | the cards the loop visits: the first three qualifying ones, in document order |
| Scraper.Capped | testbook_scraper.py:41 | `test_cards[:3]` is the prefix of length min(3, number of cards) |
| Scraper.Kept | testbook_scraper.py:41-56 | the positions processed without an exception are within the list and belong to cards that do not fail |
| Scraper.KeptSpec | testbook_scraper.py:41-56 | those positions increase strictly, include every card that does not fail, and number the cards minus the failing ones |
| Scraper.KeptPosition | testbook_scraper.py:41-43 | a kept card's index is its place among kept cards plus the failing cards before it, so skipped cards use up their index |
| Scraper.CountFailing | testbook_scraper.py:54-56 | the number of cards whose processing raises; `KeptSpec` proves it is what the loop skips |
| Scraper.CardId | testbook_scraper.py:43 | `card.get('data-test-id', f"mock_{i}")`; `ScrapeIds` and `FallbackIdsDistinct` state what it gives the entries |
| Scraper.OutputFile | testbook_scraper.py:46 | `f"templates/mock_test_{test_id}.html"`; `OutputFileInjective` proves it injective |
| Scraper.OutputFileInjective | testbook_scraper.py:46 | different ids give different `templates/mock_test_<id>.html` paths |
| Scraper.StrippedText | testbook_scraper.py:64 | `get_text(strip=True)` neither begins nor ends with whitespace |
| Scraper.TitleSpec | testbook_scraper.py:62-64 | a title never has surrounding whitespace, and it is empty exactly when a title element exists whose text is all whitespace; "Mock Test" applies only when there is no title element |
| Scraper.Title | testbook_scraper.py:62-64 | the stripped text of the first title element, or "Mock Test" when there is none; `TitleSpec` states its shape |
| Scraper.MockFor | testbook_scraper.py:43-53 | the result entry for the card at index `i`: its id, title and output file |
| Scraper.Render | testbook_scraper.py:80-82 | the three replace passes in the order title, content, timer; `RenderShowsTitle`, `RenderShowsBraceFreeTitle`, `RenderShowsDefaultTitle`, `RenderShowsContent` and `RenderShowsMinutes` state what reaches the output |
| Scraper.FileFor | testbook_scraper.py:46-47 | the file written for the card at index `i`: its output path and the rendered page |
| Scraper.FileAt | testbook_scraper.py:84-86 | what a path holds after the writes: the content of its last write, `None` when never written |
| Scraper.FileAtWritten | testbook_scraper.py:84-86 | every written path holds some content afterwards; a write that is not followed by another write to the same path is what the path holds |
| Scraper.ResultsStep | testbook_scraper.py:41-56 | processing one more card appends its entry and file, or nothing when it raises |
| Scraper.ProcessCards | testbook_scraper.py:40-58 | the loop returns exactly the entries and files of the cards that do not raise, in order, each built at its own position |
| Scraper.Results | testbook_scraper.py:41-53 | the `results` list: one entry per card that does not raise, at its own index; `ProcessCards` computes it |
| Scraper.Files | testbook_scraper.py:46-53 | the files the loop writes, in order, one per card that does not raise |
| Scraper.Scrape | testbook_scraper.py:24-60 | the outcome of `scrape_test_series` and the session left behind; `ScrapeTestSeries` computes it and the `ScraperProperties` lemmas state its properties |
| Scraper.ScrapeTestSeries | testbook_scraper.py:24-60 | the method computes `Scrape`: the browser's error, or the entries and files of the first three qualifying cards, and the session state left behind |
| ScraperProperties.ScrapeBounded | testbook_scraper.py:41 | at most 3 entries, never more than the qualifying cards, and one file per entry |
| ScraperProperties.ScrapeEmptyPage | testbook_scraper.py:37-38 | a loaded page (one past the wait) with no qualifying card yields an empty list and no error, and the session is quit |
| Scraper.WaitFinds | testbook_scraper.py:28-30 | the wait's condition: some element has class `test-series-card` or `testCard`, `free` or not; `ScrapeOnlyFreeCards` uses it |
| ScraperProperties.ScrapeOnlyFreeCards | testbook_scraper.py:28-38 | a page past the wait whose cards of either class are all `free` selects nothing and yields an empty list, with the session quit |
| ScraperProperties.ScrapeAllCards | testbook_scraper.py:41-53 | when no card raises, there are exactly min(3, qualifying) entries, the j-th built from the j-th qualifying card at index j |
| ScraperProperties.ScrapeFollowsCards | testbook_scraper.py:35-56 | each entry and file comes from a qualifying, non-`free` card of the page at its capped position; positions increase (document order); every non-failing card has its entry, so later cards are still processed after a failure |
| ScraperProperties.ScrapeIds | testbook_scraper.py:41-46 | the id is `data-test-id` verbatim, else `mock_<i>` with `i` the entry's place plus the skipped cards before it; the file is `templates/mock_test_<id>.html` |
| ScraperProperties.FallbackIdsDistinct | testbook_scraper.py:43-46 | two entries whose cards lack `data-test-id` never share an id or a file |
| ScraperProperties.ScrapeFilesHoldRenders | testbook_scraper.py:46-53 | every entry's `html_file` exists; with distinct ids it holds the page rendered from that entry's own title, markup and minutes |
| ScraperProperties.ScrapeErrorsAndSession | testbook_scraper.py:24-60 | browser errors propagate unchanged; the session is not started when the driver's constructor raised, left open when `driver.get` raised, and quit otherwise |
| ScraperProperties.RenderClearsTimer | testbook_scraper.py:82 | no `{{timer_minutes}}` survives rendering, whatever the title and content hold |
| ScraperProperties.RenderWithoutTokens | testbook_scraper.py:80-82 | a template holding none of the three placeholders is written unchanged |
| ScraperProperties.RenderShowsMinutes | testbook_scraper.py:80-82 | every template holding `{{timer_minutes}}` shows the minutes numeral, whatever the title and markup hold: the title and content passes cannot touch the timer placeholder |
| ScraperProperties.PlaceholdersApart | testbook_scraper.py:80-82 | occurrences of two `{{…}}` placeholders that differ at a common position never overlap, in any string |
| ScraperProperties.RenderShowsTitle | testbook_scraper.py:80-82 | a template holding `{{test_title}}` shows every non-empty title that holds neither later placeholder and neither begins nor ends with one of their characters |
| ScraperProperties.RenderShowsBraceFreeTitle | testbook_scraper.py:80-82 | a template holding `{{test_title}}` shows every title without `{` or `}` that does not lie inside `{{test_content}}` or `{{timer_minutes}}` |
| ScraperProperties.RenderShowsDefaultTitle | testbook_scraper.py:80-82 | the fallback title `Mock Test` always reaches a template holding `{{test_title}}` |
| ScraperProperties.BraceFreeSurvives | testbook_scraper.py:81-82 | a later pass keeps an inserted text without braces that does not lie inside its placeholder |
| ScraperProperties.RenderShowsContent | testbook_scraper.py:80-82 | a template holding `{{test_content}}` shows the card's markup, unless the markup holds the timer placeholder or begins or ends with one of its characters |
| ScraperProperties.ContentSurvivesTitle | testbook_scraper.py:80-81 | the title pass keeps every `{{test_content}}` of its input, whatever the title is |
| ScraperProperties.InsertedSurvives | testbook_scraper.py:81-82 | a later pass keeps an inserted text that does not hold its placeholder and whose end characters are not in it |
| ScraperProperties.TimerSurvives | testbook_scraper.py:80-81 | the title pass and the content pass keep every `{{timer_minutes}}` of their input, whatever they insert |
| ScraperProperties.RenderTitleBeforeContent | testbook_scraper.py:80-81 | the title pass runs first: a title that is the content placeholder ends up replaced by the markup |
| ScraperProperties.RenderContentAfterTitle | testbook_scraper.py:80-81 | markup holding the title placeholder keeps it, because the title pass has already run |
| Bot.IsAdmin | main.py:13 | `str(chat_id) == ADMIN_CHAT_ID`, false when the variable is unset; `AdminIsOneChat` proves at most one chat passes |
| Bot.IsTestSeriesUrl | main.py:28 | starts with `https://testbook.com/` and contains `/test-series`; `HandleUrl` and `ExampleUrls` state its use |
| Bot.AdminIsOneChat | main.py:13 | the admin check lets through at most one chat id |
| Bot.ExampleUrls | main.py:19-28 | the URL that the welcome text shows as an example is contained in that text and passes the check; its plain-`http://` form (`PlainExampleUrl`) does not |
| Bot.DecodeTimerPayload | main.py:49-51 | decoding `timer_<m>_<url>` yields `m` and exactly `url`, even when `url` contains `_` |
| Bot.TimerPayload | main.py:35-38 | `f"timer_{m}_{url}"` |
| Bot.MenuButtons | main.py:34-39 | the four buttons as `handle_url` writes them out; `MenuPayloads` proves they are the durations' payloads |
| Bot.RoutesToTimer | main.py:89 | the dispatcher pattern `^timer_` |
| Bot.DecodePayload | main.py:49-51 | split on `_`, `int` of the second field, the rest rejoined with `_`; `None` when the split is too short or the field is not a numeral |
| Bot.MenuPayloads | main.py:34-39 | exactly four buttons for 30, 60, 90, 120 minutes in that order; each payload is `timer_<m>_<url>`, matches `^timer_`, and decodes to its own minutes and the URL |
| Bot.Start | main.py:12-21 | one reply: "Unauthorized access." exactly when the chat is not the admin's, and the welcome text for the admin |
| Bot.HandleUrl | main.py:23-40 | no reply for non-admins; for the admin, the menu reply exactly when the URL starts with `https://testbook.com/` and contains `/test-series`, else the validation message; the menu is the four written-out buttons, and every payload routes to the timer handler and decodes back to the URL |
| Bot.CaptionShows | main.py:72 | the caption contains the mock's title and the minutes |
| Bot.StatusText | main.py:53 | the status line naming the URL and the minutes |
| Bot.Caption | main.py:72 | `f"🧠 {title}\n⏱ Timer: {minutes} minutes"` |
| Bot.DocumentName | main.py:71 | `f"mock_test_{id}.html"` |
| Bot.DocumentFor | main.py:68-73 | one `send_document` call: name, caption and the file's content |
| Bot.MissingFileError | main.py:67 | the text of the `FileNotFoundError` that `open` raises for a path |
| Bot.OutputFileIsFolderAndName | main.py:71 | the written path is `templates/` followed by the document name, for every id |
| Bot.FirstMissing | main.py:66-67 | the first mock whose file cannot be opened; every mock before it has its file |
| Bot.SendDocuments | main.py:66-78 | the document loop sends one document per mock in order until a file cannot be opened, which ends it with the error message |
| Bot.Deliveries | main.py:66-78 | the replies of the document loop: a document per mock up to the first missing file, then the error text if one is missing |
| Bot.OutcomeReplies | main.py:57-78 | what follows the scrape: the error text, the no-mocks message, or the document loop's replies |
| Bot.TimerReplies | main.py:42-78 | everything `handle_timer` sends, in order; `HandleTimer` computes it and the `Timer…` lemmas state its cases |
| Bot.DeliveriesAllDocuments | main.py:66-73 | when every file exists, the loop sends exactly one document per mock and no error |
| Bot.ScrapedFilesExist | main.py:67 | after a scrape, every entry's file can be opened |
| Bot.ReportOutcome | main.py:59-78 | after the scrape, the method sends the error text when the scrape raised, the "no mock tests" message when it found nothing, else the document loop's replies |
| Bot.HandleTimer | main.py:42-78 | the handler computes `TimerReplies`, and it starts the scraper exactly when the chat is the admin's and the payload decodes |
| Bot.TimerIgnoresOthers | main.py:44-47 | a non-admin gets only the query answer: no status, no scrape, no document |
| Bot.TimerOutcomes | main.py:53-78 | after the answer and the status line: one error message, or one "no mock tests" message, or one document per entry in order with name `mock_test_<id>.html`, a caption from the title and minutes, and the entry's file as content |
| Bot.TimerDocumentsHoldOwnPages | main.py:66-73 | with distinct ids, the k-th document is the page rendered for the k-th entry's own card |

## Left out

- Selenium: the Chrome options, `ChromeDriverManager`, `driver.get`, the 20-second `WebDriverWait`, `page_source` and `driver.quit()` are browser I/O. `Browser` stands for their outcomes and `Session` for the session left behind.
- `_scroll_page` depends on live page height, sleeps and has no iteration bound. Its only effect in the model is that the final page is what `Loaded` carries; a failure inside it is a `LoadFailed`.
- BeautifulSoup parsing and CSS selector evaluation. `Card` carries what the selectors and `get` extract, and `titleText` is the text pieces of the element `select_one` finds.
- `_generate_html` reads the template and writes files: the template is a parameter and the writes are the `written` sequence. `os.makedirs` is not modelled. A missing template makes every card raise, which the `fails` flag covers. A card that raises after a partial write is modelled as writing nothing.
- The Telegram API (`reply_text`, `send_message`, `send_document`, `edit_message_text`, `query.answer`), `Updater` polling, handler registration and the `error` handler, which only prints. `send_document` raising mid-loop (network) is not modelled. A file that cannot be opened is, with the `FileNotFoundError` text.
- Bot.MissingFileError: the path is always written between single quotes as given. Python formats it with `repr`, which picks double quotes for a path holding `'` and escapes backslashes and non-printable characters; ids come verbatim from `data-test-id`, so such paths can occur, and their error text is not modelled.
- The wait's condition: `WaitFinds` states it, but `Loaded`'s elements are not tied to it. The wait looks at the page as first loaded, before `_scroll_page`; the model carries only the page after scrolling. A page on which the wait times out is a `LoadFailed`.
- Bot.HandleUrl: Telegram refuses an inline button whose callback data is longer than 64 bytes. `timer_120_` takes 10 of them, so for a URL of more than 54 UTF-8 bytes `reply_text` raises, `handle_url` has no `try`, and the admin sees nothing. The model still returns the menu reply, because Telegram's limit is outside the program.
- Environment reads (`load_dotenv`, `os.getenv`) become the `Config` parameter.
- `print` logging of skipped cards.
- Numerals.ParseNat: accepts only non-empty ASCII digit strings. Python's `int()` also accepts surrounding whitespace, a sign and non-ASCII digits; menu payloads never carry those.
- Strings.IsSpace: lists the characters Python's `str.isspace` accepts; no other Unicode property is modelled.
- Concurrency: each handler is modelled as one call running alone.
