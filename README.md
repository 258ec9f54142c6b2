# Phone and contact scraper: a Dafny model

This project models the crawl-and-extract engine of a website scraper for Chinese mobile
numbers and contact names, and the per-URL task history of its web front end.

- `PhoneScraper` (phone_scraper.py) does a breadth-first crawl of one site. From each
  page's text it extracts mobile numbers and contact names and keeps a first-occurrence
  ledger, so each number and contact is reported only on the first page it appears.
- `SimplePhoneScraper` (simple_scraper.py) is a trimmed copy for one fixed site. It caps
  the link depth with a level bound and collects phone numbers only.
- The front end (core/web_app.py) keeps two dictionaries:
  - a history record per URL and day, which decides whether an earlier task can be reused;
  - a registry of running tasks.

  It also parses the page limit a client asks for.

Modules:

- `Maybe`: `Option` and `Result`.
- `Text`: character classes, `str.strip`, `str.find`, lower-casing.
- `Dedup`: `list(set(...))` and the first-occurrence ledger.
- `Sanitizer`: `clean_text`.
- `Phones`: the phone regexes, their left-to-right scan, the separator clean-up and the
  filename test.
- `PhoneFindings`: the two kinds of input the phone patterns as written miss, and the
  corrected pattern list that finds them.
- `Contacts`: the contact regexes and the validator.
- `Url`: `urllib.parse.urlsplit` as in CPython 3.12, as far as the code relies on it: the
  scheme, the network location (the authority component of section 3.2 of RFC 3986), and
  the `ValueError`s for unbalanced or invalid brackets and for characters whose NFKC form
  is a delimiter.
- `Web`: the fetched page.
- `PhoneScraper` and `SimpleScraper`: a class each, holding the crawl state and the
  crawl loop.
- `WebApp`: the task and history registries, `check_url_history`, `terminate_old_task`
  and the page-limit parse.

How the source's code is modelled:

- Pure code is written as functions. Each regex is a character-level matcher, and
  `re.findall` is a non-overlapping scan.
- Loops over patterns, matches and links are methods with loop invariants, proved
  against those functions.
- State updated in place is class fields, changed by methods with `modifies` clauses:
  - the visited set, the ledger sets and the result lists;
  - the level map and its key order, and the progress events;
  - the two registries.
- The network and the HTML parser are an oracle: a function from URL to an optional
  `Page`, which holds the raw HTML, `get_text()`, the title and the absolute links.
- Each crawl loop is specified by a function on a value of its state (`Crawl`,
  `CrawlState`): `Next` is one turn of the `while` loop and `Run` the whole loop. The
  methods are proved to leave their fields equal to these, and the crawl's properties
  are proved as lemmas about `Next` and `Run`.
  - What the crawl makes of a fetched page (its title, numbers, contacts and the outcome
    of the link loop) is a `Yield`. The ghost parameter `site` gives each URL's yield,
    and `Serves` ties it to the fetch oracle.
  - `urljoin` raising in the link loop is not caught by the crawl. It is the `aborted`
    flag: the loop ends there and the final `done` event and statistics are skipped.
- Four more inputs are parameters:
  - the day of `get_url_hash`;
  - `time.time()`;
  - `os.path.exists` in the output directory;
  - `DEFAULT_MAX_PAGES`.
- Both crawls extract with the phone pattern list as written. The corrected list is in
  `PhoneFindings` (see Findings).

## Model

| member | source | states |
|---|---|---|
| Text.Strip | phone_scraper.py:154 | the result has no whitespace at either end and is a slice of the input with only whitespace cut from both ends |
| Text.StripTrimmed | phone_scraper.py:71 | stripping text with no whitespace at either end changes nothing |
| Text.Find | phone_scraper.py:109-111 | `str.find`: the index of the first occurrence; None exactly when the pattern does not occur |
| Sanitizer.Whitelist | phone_scraper.py:69 | every kept character is in the class CJK, ASCII letter, digit, whitespace, `：:()（）` |
| Sanitizer.CollapseShape | phone_scraper.py:71 | after `re.sub(r'\s+', ' ', s)` every whitespace is a plain space, no two are adjacent, every other character comes from the input, and the result is empty only for empty input |
| Sanitizer.CollapseKeepsNonSpace | phone_scraper.py:71 | collapsing whitespace keeps the non-whitespace characters, in order |
| Sanitizer.StripKeepsNonSpace | phone_scraper.py:71 | stripping keeps the non-whitespace characters, in order |
| Sanitizer.CleanTextShape | phone_scraper.py:63-72 | `clean_text` gives "" for empty input; otherwise only whitelisted characters, no whitespace at either end, and single plain spaces only |
| Sanitizer.CleanTextKeepsVisible | phone_scraper.py:68-71 | the non-space content of the result is exactly the whitelisted non-space characters of the input, in order |
| Sanitizer.WhitelistFixed | phone_scraper.py:69 | a whitelisted string passes the filter unchanged |
| Sanitizer.CollapseFixed | phone_scraper.py:71 | a string whose whitespace is already single plain spaces passes the collapse unchanged |
| Sanitizer.CleanTextIdempotent | phone_scraper.py:63-72 | cleaning cleaned text changes nothing |
| Url.SplitOfPlainUrl | phone_scraper.py:77 | `scheme://host rest`, with no `/`, `?` or `#` in the host, splits into the lower-cased scheme, the host and the rest when the host passes the splitter's bracket and NFKC checks, and raises otherwise |
| Url.ValidHttpUrlAccepts | core/web_app.py:35-40 | every `http` or `https` URL in any letter case with a non-empty host that passes the splitter's bracket and NFKC checks is accepted |
| Url.ValidHttpUrlShape | core/web_app.py:35-40 | conversely, every accepted URL is such a URL once the characters the splitter discards are removed |
| Url.UnbalancedBracketRaises | core/web_app.py:36-40 | a host with `[` but no `]`, or the reverse, makes the splitter raise, so the URL is rejected |
| Url.NfkcDelimiterRaises | core/web_app.py:36-40 | a host holding a character whose NFKC form contains `/`, `?`, `#`, `@` or `:` makes the splitter raise, so the URL is rejected |
| Url.HttpUrlSplit | phone_scraper.py:77 | an `http://` URL with a plainly written host splits into that host and rest exactly when the host passes the bracket and NFKC checks, and raises otherwise |
| Url.BracketedHost | phone_scraper.py:77 | a host in brackets, with no `@` and no further bracket, is accepted exactly when the text inside is an IPv6 or IPvFuture address without an NFKC delimiter |
| Url.FullwidthSolidusRaises | phone_scraper.py:77 | `http://a／b` (a fullwidth solidus) is refused |
| Url.BracketedNameRaises | phone_scraper.py:77 | `http://[abc]/`, a bracketed host that is no IP address, is refused |
| Url.Ipv6LoopbackAccepted | phone_scraper.py:77 | `http://[::1]/` splits into its bracketed host and the path |
| Url.SameSiteOfPlainUrl | phone_scraper.py:74-80 | `is_valid_url` on a plainly written URL is true exactly for an `http` or `https` scheme in any letter case and the start URL's host, and false when the splitter refuses the host |
| Url.SameSiteShape | phone_scraper.py:74-80 | conversely, an accepted URL is, once the discarded characters are removed, `http://` or `https://`, the start URL's host and a rest |
| Url.SchoolHostOfPlainUrl | simple_scraper.py:174-176 | on a plainly written URL the host test raises exactly when the splitter refuses the host, and is otherwise true exactly for the host `www.schdri.com` |
| Phones.MatchAt | phone_scraper.py:86-90 | a match at `i` is a non-empty span of the text that starts at or after `i` |
| Phones.MatchShape | phone_scraper.py:86-90 | a match is: no digit before it, the literal prefix, `\s*`, then `1[3-9]` and the digit groups, with the returned span starting at the number when it is captured |
| Phones.GroupsClean | phone_scraper.py:89-90 | the digit groups of a match and their separators clean to exactly as many digits as the groups add up to |
| Phones.MatchClean | phone_scraper.py:86-98 | a cleaned match has the cleaned prefix's length (0 when only the number is captured) plus 2 plus the group sizes, and its number starts with `1` |
| Phones.FindAllCleanLength | phone_scraper.py:95-98 | the same holds for every string `re.findall` returns for a pattern |
| Phones.CleanPhoneConcat | phone_scraper.py:98 | `re.sub(r'[\s\+\-]', '', ...)` distributes over concatenation |
| Phones.AbsentIsNotFilename | phone_scraper.py:109-111 | a phone that does not occur in the text is never taken for a filename part |
| Phones.FilenamePartAtFirstOccurrence | phone_scraper.py:113-131 | at the first occurrence, the phone is a filename part exactly when the window from 10 before to 21 after holds a listed extension (lower-cased) or both neighbours are digits |
| Phones.Kept | phone_scraper.py:96-102 | every kept string has 11 characters, starts with `1` and is not a filename part |
| Phones.KeptMembers | phone_scraper.py:96-102 | a number is kept exactly when it passes those checks and some match cleans to it |
| Phones.KeepPhones | phone_scraper.py:96-102 | the loop over one pattern's matches appends exactly the kept numbers, in match order |
| Phones.Candidates | phone_scraper.py:93-102 | every collected number passes the checks |
| Phones.CandidatesInclude | phone_scraper.py:94-102 | a number that any one pattern keeps is collected |
| Phones.ExtractPhoneNumbers | phone_scraper.py:82-104 | the result has no duplicates; every number has 11 characters, starts with `1` and is not a filename part; and it holds exactly the numbers the patterns collect |
| Phones.CandidatesAsWritten | phone_scraper.py:85-94 | the pattern list as written collects, in order, what each of its five patterns keeps |
| Phones.NeverElevenKeepsNothing | phone_scraper.py:99 | a pattern whose matches never clean to 11 characters contributes nothing |
| Phones.AsWrittenOnlyPlainCounts | phone_scraper.py:85-102 | as written, the `+86` and `86` patterns clean to 13 characters and the separated ones to 12, so only the plain pattern can contribute a number |
| Phones.FixedPatternsClean11 | phone_scraper.py:85-99 | every match of the corrected patterns cleans to 11 characters starting with `1` |
| PhoneFindings.CountryCodeExample | phone_scraper.py:87 | `+8613800138000` has the country-code shape, and its number is `13800138000` |
| PhoneFindings.CountryCodePlainFindsNothing | phone_scraper.py:86 | in `+86` directly followed by a number, the plain pattern finds nothing: the `6` blocks the look-behind |
| PhoneFindings.CountryCodeMissedAsWritten | phone_scraper.py:85-104 | as written, such a text yields no phone number at all |
| PhoneFindings.CountryShapeMatches | phone_scraper.py:87 | the corrected `+86` pattern matches it, returning the eleven digits after the code |
| PhoneFindings.CountryNumberNotFilename | phone_scraper.py:106-131 | that number is not taken for a filename part |
| PhoneFindings.CountryCodeFoundWhenFixed | phone_scraper.py:82-104 | with the corrected list the eleven digits are returned |
| PhoneFindings.SpacedExample | phone_scraper.py:89 | `138 0013 8000` has the 3-4-4 shape |
| PhoneFindings.SpacedPlainFindsNothing | phone_scraper.py:86 | in a 3-4-4 number the plain pattern finds nothing |
| PhoneFindings.SpacedMissedAsWritten | phone_scraper.py:85-104 | as written, a 3-4-4 number yields no phone number at all |
| PhoneFindings.SpacedShapeMatches | phone_scraper.py:89 | the corrected spaced pattern matches the whole 3-4-4 number |
| PhoneFindings.SpacedCleans | phone_scraper.py:98 | the 3-4-4 number cleans to its eleven digits |
| PhoneFindings.SpacedNotFilename | phone_scraper.py:106-111 | those digits do not occur in the text, so they are not a filename part |
| PhoneFindings.SpacedFoundWhenFixed | phone_scraper.py:82-104 | with the corrected list the eleven digits are returned |
| Contacts.ValidContactCharacterization | phone_scraper.py:160-186 | a contact is valid exactly when it has 2 to 20 characters, a CJK or ASCII letter, and is not e-mail-shaped; the other rejection rules follow from these |
| Contacts.NameCharExcludesNumericShapes | phone_scraper.py:170-176 | a string with a letter never fully matches the digits-only, mobile, landline or no-letter shape |
| Contacts.NoNewlineNoAnchorSlack | phone_scraper.py:178-180 | without a final newline, `^...$` matches exactly the shape itself |
| Contacts.AcceptsName | phone_scraper.py:160-186 | `张三` is accepted |
| Contacts.RejectsPhoneNumber | phone_scraper.py:173 | `13800138000` is rejected |
| Contacts.RejectsEmail | phone_scraper.py:172 | `li@abc.cn` is rejected although it has letters |
| Contacts.ContactPatternsWellFormed | phone_scraper.py:136-148 | every keyword is non-empty and every capture takes at least one character |
| Contacts.CaptureLength | phone_scraper.py:138 | the greedy `[^\n\r]{1,n}` takes at most `n` characters, none a line break, stopping only at `n`, the end or a line break |
| Contacts.Tail | phone_scraper.py:138-147 | what follows a keyword captures a non-empty span after it |
| Contacts.KeywordEnd | phone_scraper.py:138-144 | the alternation of keywords ends after its start |
| Contacts.ContactMatchAt | phone_scraper.py:136-148 | a match at `i` returns a non-empty group after `i` |
| Contacts.CapturesAreShortLines | phone_scraper.py:138-147 | every group `re.findall` returns is 1 to `maxLen` characters without a line break |
| Contacts.StripKeepsNoLineBreak | phone_scraper.py:154 | stripping keeps a single line a single line and never lengthens it |
| Contacts.KeptContacts | phone_scraper.py:153-156 | every kept contact is stripped and valid |
| Contacts.KeepContacts | phone_scraper.py:153-156 | the loop over one pattern's matches appends exactly the stripped valid captures, in order |
| Contacts.ContactCandidates | phone_scraper.py:150-156 | every collected contact is stripped and valid |
| Contacts.ContactCandidatesInclude | phone_scraper.py:151-156 | a contact any one pattern keeps is collected |
| Contacts.CollectContacts | phone_scraper.py:150-156 | the loop over the patterns collects exactly the candidates |
| Contacts.ExtractContacts | phone_scraper.py:133-158 | the result has no duplicates and every contact is stripped and valid |
| Contacts.ContactsAreSingleLines | phone_scraper.py:150-158 | a returned contact never spans a line and has 2 to 20 characters |
| Contacts.FindsLabelledName | phone_scraper.py:138 | `联系人：张三` yields the contact `张三` |
| Dedup.Distinct | phone_scraper.py:104 | `list(set(xs))` has no duplicates, is no longer than `xs`, and holds exactly the elements of `xs` |
| Dedup.Admit | phone_scraper.py:228-232 | the admitted items are exactly the items not already seen, each once |
| Dedup.AdmitGrowsSeenByExactly | phone_scraper.py:228-238 | the seen set grows by exactly the admitted items, which were not in it before |
| Dedup.AdmitNew | phone_scraper.py:228-232 | the first-occurrence loop returns the admitted items and the grown set, one larger per admitted item |
| Dedup.DistinctCard | phone_scraper.py:104 | a duplicate-free list has as many elements as its set |
| Dedup.ExactStep | phone_scraper.py:227-256 | appending what a page admits keeps the list of all reported items exact for the grown seen set |
| PhoneScraper.SameSiteLinks | phone_scraper.py:201-211 | the kept links are exactly the page's links on the start URL's host with an HTTP(S) scheme |
| PhoneScraper.SomeLinkAt | phone_scraper.py:204-206 | a list has a link satisfying a test exactly when one of its positions holds one |
| PhoneScraper.LinkScan | phone_scraper.py:201-211 | `find_all_links` raises exactly when some link's `urljoin` raises, and otherwise returns the same-site links in page order |
| PhoneScraper.LinkScanRaises | phone_scraper.py:204-206 | the scan raises exactly when some position holds a link the splitter refuses |
| PhoneScraper.LinkScanAt | phone_scraper.py:204-209 | scanning one more link raises if the prefix raised or the link is refused, and otherwise appends the link when it is same-site |
| PhoneScraper.LinkScanNext | phone_scraper.py:204-209 | one turn of the link loop: a refused link makes the whole scan raise; otherwise the prefix result grows by the link exactly when it is same-site |
| PhoneScraper.Enqueue | phone_scraper.py:345-348 | the queue only grows at its end, never holds a URL twice, and gains exactly the links that are neither visited nor queued |
| PhoneScraper.RecordKept | phone_scraper.py:245-256 | a page adds a record exactly when it brought a new number or contact, and the ledger stays exact |
| PhoneScraper.Growth | phone_scraper.py:335-341 | a `page_result` count is the number of items the page added to a ledger set |
| PhoneScraper.RecordForKeeps | phone_scraper.py:227-256 | appending the record a page adds keeps the ledger exact for the grown seen sets |
| PhoneScraper.SiteYieldsServe | phone_scraper.py:322-334 | extraction applied to the fetched pages is a faithful view of the site: a URL yields something exactly when its fetch succeeds, and then the page's title, numbers, contacts and link outcome |
| PhoneScraper.ServesSameSite | phone_scraper.py:201-211 | in such a view every link a page would queue is one `is_valid_url` accepts |
| PhoneScraper.ExtractedShape | phone_scraper.py:331-342 | extraction and its `page_result` event leave the queue, the count and the visited set alone, grow each ledger set by the page's items (by exactly the number admitted), and only append events |
| PhoneScraper.ExtractedLedger | phone_scraper.py:227-256 | extraction keeps the ledger exact |
| PhoneScraper.LinkedShape | phone_scraper.py:345-360 | the link loop and the `progress` event change only the queue, the events and the abort flag: the crawl aborts exactly when a link raised, and otherwise the queue gains exactly the kept links neither visited nor queued and stays duplicate-free |
| PhoneScraper.VisitCounts | phone_scraper.py:327-334 | a visit adds the URL to the visited set, counts it, and adds what the page yields to the ledger sets |
| PhoneScraper.VisitQueue | phone_scraper.py:345-348 | a visit keeps the queue duplicate-free and queues only links the page kept |
| PhoneScraper.VisitEvents | phone_scraper.py:337-360 | a visit only appends events, and none without a callback |
| PhoneScraper.VisitLedger | phone_scraper.py:227-256 | a visit keeps the ledger exact |
| PhoneScraper.NextShape | phone_scraper.py:304-329 | a turn either takes nothing (the queue shrinks, count and sets stay) or takes the head: unvisited, below both limits and fetched, it is visited, counted and its items join the ledger sets; the crawl stops only at a limit, with the count unchanged |
| PhoneScraper.NextVisits | phone_scraper.py:304-329 | a turn leaves the visited set and the count alone, or adds the unvisited, fetched head to the one and counts it in the other |
| PhoneScraper.NextLedger | phone_scraper.py:227-256 | a turn keeps the ledger exact |
| PhoneScraper.NextQueue | phone_scraper.py:345-348 | a turn keeps the queue duplicate-free and, when pages keep only same-site links, queues only same-site URLs |
| PhoneScraper.NextEvents | phone_scraper.py:320-360 | a turn only appends events, and none without a callback |
| PhoneScraper.NextDecreases | phone_scraper.py:301-317 | a turn lowers the room left below the 10000-page cap or shortens the queue, so the loop terminates |
| PhoneScraper.RunHalts | phone_scraper.py:303-317 | the loop ends on an empty queue, on an abort, or stopped at a limit it has reached |
| PhoneScraper.RunBounds | phone_scraper.py:306-317 | the page count never drops and never passes the safety cap or the requested limit |
| PhoneScraper.RunVisits | phone_scraper.py:303-329 | each counted page is a newly visited URL whose fetch succeeded: the visited set grows by exactly the count |
| PhoneScraper.RunInScope | phone_scraper.py:345-348 | when pages keep only same-site links, every newly visited URL is the start URL or one `is_valid_url` accepts |
| PhoneScraper.RunLedger | phone_scraper.py:227-256 | the ledger stays exact over a whole crawl |
| PhoneScraper.NextCollects | phone_scraper.py:334 | one turn adds to the ledger sets exactly what the newly visited page yields |
| PhoneScraper.RunCollects | phone_scraper.py:303-362 | the ledger sets end as their start plus the union of what the newly visited pages yield |
| PhoneScraper.RunEvents | phone_scraper.py:303-362 | a crawl only appends events, and none without a callback |
| PhoneScraper.RunFromStart | phone_scraper.py:269-362 | a crawl from the start URL halts at an empty queue, an abort or a limit; counts at most the limit and 10000 pages, each a newly visited, fetched, in-scope URL; ends with the ledger sets holding exactly what those pages yield; and keeps the ledger exact |
| PhoneScraper.Scraper.constructor | phone_scraper.py:34-48 | a fresh scraper has empty ledgers and the start URL's host as its domain |
| PhoneScraper.Scraper.SetReporting | phone_scraper.py:47-48 | setting the progress callback turns reporting on or off |
| PhoneScraper.Scraper.Report | phone_scraper.py:50-61 | an event is recorded when a callback is set and nothing happens otherwise; a failing callback does not reach the crawl |
| PhoneScraper.Scraper.FindAllLinks | phone_scraper.py:201-211 | the link loop returns what `LinkScan` describes: the raise, or the same-site links in page order |
| PhoneScraper.Scraper.Findings | phone_scraper.py:219-225 | a page's numbers and contacts are the extractors' results |
| PhoneScraper.Scraper.ExtractPageInfo | phone_scraper.py:213-256 | without a page nothing changes; otherwise each ledger set grows by the page's items, and a record listing exactly the new ones is appended when there is one |
| PhoneScraper.Scraper.Ingest | phone_scraper.py:227-256 | the ledger loops grow the seen sets by exactly the new items and append the page's record |
| PhoneScraper.Scraper.RecordPage | phone_scraper.py:331-342 | the new state is `Extracted`: extraction followed by a `page_result` event counting the new numbers and contacts |
| PhoneScraper.Scraper.ProcessPage | phone_scraper.py:331-360 | the new state, queue and abort flag are `Linked` after `Extracted`, with the page's own link outcome |
| PhoneScraper.Scraper.Take | phone_scraper.py:327-360 | the new state after a fetched page is `Visit` of the old state with the page's yield |
| PhoneScraper.Scraper.Attempt | phone_scraper.py:319-360 | after `page_start` the head is fetched: the new state is the popped state when the fetch fails and its `Visit` otherwise |
| PhoneScraper.Scraper.Step | phone_scraper.py:304-360 | the new state, stop flag and abort flag are exactly one `Next` turn of the old state |
| PhoneScraper.Scraper.Drain | phone_scraper.py:301-362 | the loop's final state is `Run` of the state with only the start URL queued; hence it ends at an empty queue, an abort or a limit, within both caps, with each counted page a newly visited, fetched, in-scope URL and the ledger sets grown by exactly what they yield |
| PhoneScraper.Scraper.ReadSiteTitle | phone_scraper.py:288-298 | the site title is the cleaned start-page title when there is one (and is then reported); otherwise it is unchanged |
| PhoneScraper.Scraper.Open | phone_scraper.py:286-298 | the events before the loop are `start`, then `site_title` when the start page has a title |
| PhoneScraper.Scraper.CrawlWebsite | phone_scraper.py:265-370 | every field `crawl_website` changes equals `Run` from the start URL after the opening events, with `done` appended unless a link aborted the crawl; the ledger sets hold exactly what the visited pages yield; events begin with `start` and, without an abort, end with `done` |
| SimpleScraper.ResultKept | simple_scraper.py:227-249 | a page adds a result exactly when it brought a new number, and the ledger stays exact |
| SimpleScraper.Sift | simple_scraper.py:170-176 | the kept links are exactly the links whose host test is true; the call fails as soon as one test raises |
| SimpleScraper.SchoolLinks | simple_scraper.py:162-178 | `find_links` keeps exactly the links on `www.schdri.com`, and fails when the splitter raises on one link |
| SimpleScraper.SchoolLinksOnHost | simple_scraper.py:174-176 | every kept link splits with host `www.schdri.com` |
| SimpleScraper.EnqueueAt | simple_scraper.py:263-267 | the queue only grows at its end, gains exactly the unvisited, unqueued links, all at the given level, and stays duplicate-free when it was |
| SimpleScraper.Census | simple_scraper.py:284-286 | `level_stats` has a key for exactly the levels that occur |
| SimpleScraper.CensusCounts | simple_scraper.py:284-286 | each level's count is its number of occurrences |
| SimpleScraper.LevelKeys | simple_scraper.py:289 | the levels listed once each, exactly those that occur |
| SimpleScraper.CensusTotal | simple_scraper.py:284-290 | the counts add up to the number of pages |
| SimpleScraper.StatsCountEveryPage | simple_scraper.py:284-290 | after a crawl, the level statistics count every crawled page once |
| SimpleScraper.CountLevels | simple_scraper.py:284-286 | the `level_stats` loop computes the census |
| SimpleScraper.SiteYieldsServe | simple_scraper.py:215-267 | extraction applied to the fetched pages is a faithful view of the site: a URL yields something exactly when its fetch gives a non-empty document, and then its title, numbers and link outcome |
| SimpleScraper.ServesSchool | simple_scraper.py:162-178 | in such a view every link a page would queue is on `www.schdri.com` |
| SimpleScraper.VisitCounts | simple_scraper.py:220-249 | a visit marks the page at its level (last in key order), counts it, adds its numbers to the ledger set and appends the result `ResultFor` gives |
| SimpleScraper.VisitQueue | simple_scraper.py:263-267 | below `max_level` a visit queues the kept links one level deeper or aborts when `find_links` raised; at `max_level` the queue stays |
| SimpleScraper.NextShape | simple_scraper.py:203-249 | a turn either only pops the head or visits it: an unvisited URL at a level up to `max_level` that yields a page is marked, counted and recorded |
| SimpleScraper.NextQueueShape | simple_scraper.py:203-267 | a visiting turn queues the kept links one level deeper after the rest of the queue below `max_level`, and aborts exactly when they raised |
| SimpleScraper.NextTally | simple_scraper.py:227-249 | a turn keeps the ledger exact |
| SimpleScraper.NextLevelled | simple_scraper.py:220-221 | a turn keeps `page_levels` keyed by exactly the visited pages, each once in key order |
| SimpleScraper.NextSound | simple_scraper.py:203-267 | a turn keeps both of those invariants |
| SimpleScraper.NextQueue | simple_scraper.py:263-267 | a turn keeps the queue duplicate-free and, when pages keep only school links, every queued pair in scope at a level from 0 to the cap |
| SimpleScraper.NextVisits | simple_scraper.py:203-222 | a turn leaves the visited set, the count and the levels alone, or adds the unvisited, fetched head at a level up to `max_level`; earlier levels stay |
| SimpleScraper.NextDecreases | simple_scraper.py:202 | below `max_pages` a turn lowers the room left or shortens the queue, so the loop terminates |
| SimpleScraper.RunHalts | simple_scraper.py:202 | the loop ends on an empty queue, at `max_pages` or on a raise, and counts no page past `max_pages` |
| SimpleScraper.RunVisits | simple_scraper.py:202-222 | each counted page is a newly visited URL that yielded a page at a level up to `max_level`; no URL is counted twice and earlier levels stay |
| SimpleScraper.RunLevels | simple_scraper.py:263-267 | every newly visited page is in scope and has a non-negative level |
| SimpleScraper.RunSound | simple_scraper.py:202-267 | the ledger and the level map stay exact over a whole crawl |
| SimpleScraper.NextCollects | simple_scraper.py:225-232 | one turn adds to the ledger set exactly what the newly visited page yields |
| SimpleScraper.RunCollects | simple_scraper.py:202-267 | the ledger set ends as its start plus the union of what the newly visited pages yield |
| SimpleScraper.RunVisitedGrows | simple_scraper.py:220 | the visited set only grows |
| SimpleScraper.RunFromStart | simple_scraper.py:182-267 | a crawl from the start URL at level 0 halts at an empty queue, at `max_pages` or on a raise; counts at most `max_pages` pages, each a newly visited in-scope URL that yielded a page at a level from 0 to `max_level`; and ends with the ledger set holding exactly what those pages yield |
| SimpleScraper.Scraper.constructor | simple_scraper.py:20-32 | a fresh scraper has empty state and the fixed start URL |
| SimpleScraper.Scraper.FindLinks | simple_scraper.py:162-178 | empty HTML yields no links; otherwise the loop returns the school's links, or the failure |
| SimpleScraper.Scraper.ExtractPhones | simple_scraper.py:45-67 | `extract_phones` returns the full scraper's extraction with the same pattern list, run over the raw HTML |
| SimpleScraper.Scraper.EnqueueLinks | simple_scraper.py:263-267 | the link loop appends what `EnqueueAt` describes |
| SimpleScraper.Scraper.RecordResult | simple_scraper.py:227-249 | the seen set grows by exactly the new numbers, and a result listing them is appended when there are any |
| SimpleScraper.Scraper.Mark | simple_scraper.py:220-221 | the URL joins `visited`, gets its level in `page_levels`, and a new key goes last in key order |
| SimpleScraper.Scraper.Take | simple_scraper.py:220-267 | the new state after a counted page is `Visit` of the old state with the page's yield |
| SimpleScraper.Scraper.Expand | simple_scraper.py:263-267 | the new queue and abort flag are `Expanded`: the page's links queued one level deeper, or an abort when `find_links` raises |
| SimpleScraper.Scraper.Attempt | simple_scraper.py:213-267 | the head pair is fetched: the new state is the popped state when the fetch gives nothing, and its `Visit` otherwise |
| SimpleScraper.Scraper.Step | simple_scraper.py:203-267 | the new state and abort flag are exactly one `Next` turn of the old state |
| SimpleScraper.Scraper.Drain | simple_scraper.py:202-267 | the loop's final state is `Run` of the state with only the start URL queued at level 0; hence it ends at an empty queue, at `max_pages` or on a raise, with each counted page a newly visited in-scope URL at a level from 0 to `max_level`, and the ledger set grown by exactly what they yield |
| SimpleScraper.Scraper.ReadSiteTitle | simple_scraper.py:184-200 | the site title is the cleaned start-page title, or the default |
| SimpleScraper.Scraper.LevelStats | simple_scraper.py:284-286 | `level_stats` is the census of `page_levels.values()` |
| SimpleScraper.Scraper.Crawl | simple_scraper.py:180-290 | every field `crawl` changes equals `Run` from the start URL at level 0; the site title is the start page's cleaned title when it is a non-empty document with a `<title>`, else the default; without a raise `level_stats` is the census of `page_levels.values()` |
| WebApp.DayKeyInjective | core/web_app.py:43-48 | distinct URLs on the same day get distinct keys |
| WebApp.Basename | core/web_app.py:120 | `os.path.basename` returns the longest end of the path without a `/` |
| WebApp.RunningExactly | core/web_app.py:68-80 | the check answers `running` exactly when the recorded task is in `TASKS`, not done and for the same URL |
| WebApp.FailedExactly | core/web_app.py:100-111 | it answers `failed` exactly when the record says failed less than 300 seconds ago and no earlier branch applies |
| WebApp.CompletedExactly | core/web_app.py:119-128 | it answers `completed` with the record's files exactly when the docx file exists and no earlier branch applies |
| WebApp.FailureWindow | core/web_app.py:100-116 | a failure that has expired stays expired |
| WebApp.TerminatedNeverRunning | core/web_app.py:68-72 | a task marked done is never reported running |
| WebApp.RunningIsTerminable | core/web_app.py:68-85 | a `running` answer names a task that termination stops; a live task is reported running for its own URL and dropped for any other |
| WebApp.Registry.constructor | core/web_app.py:28-32 | both registries start empty |
| WebApp.Registry.CheckUrlHistory | core/web_app.py:50-143 | `check_url_history` leaves `TASKS` alone and deletes at most the queried key, exactly when the answer says to |
| WebApp.Registry.TerminateOldTask | core/web_app.py:145-165 | returns true exactly when the record's task is live; it then marks the task terminated and done and deletes the record; otherwise nothing changes |
| WebApp.CheckSettles | core/web_app.py:50-143 | after a deletion the next check finds no history; a check that keeps its record answers the same again |
| WebApp.TerminationSettles | core/web_app.py:145-165 | after a termination, the URL has no history and no record can show the old task running |
| WebApp.Truncate | core/web_app.py:666 | `int()` of a float truncates toward zero |
| WebApp.WithoutUnderscores | core/web_app.py:666 | digits with underscores give back the digits alone |
| WebApp.ParseTrimmed | core/web_app.py:666 | `int()` of a stripped, optionally signed digit string is its signed value, and raises above 4300 digits |
| WebApp.ParseDecimal | core/web_app.py:666 | `int(str(n)) == n` for every integer of at most 4300 digits; a longer one raises |
| WebApp.EffectiveMaxPagesChoice | core/web_app.py:663-670 | the limit is the client's value when it parses to a positive integer and `DEFAULT_MAX_PAGES` otherwise |
| WebApp.EffectiveMaxPagesOfText | core/web_app.py:663-670 | a number sent as digits or as a JSON integer is taken when positive, and as digits only when it has at most 4300 of them; else the default |
| WebApp.EffectiveMaxPagesOfDigits | core/web_app.py:663-670 | a digit string is taken as its value when it has at most 4300 digits and is positive, and gives the default otherwise |
| WebApp.EffectiveMaxPagesOfFloat | core/web_app.py:663-670 | a float is truncated, so it is taken from 1.0 up and falls back below |

## Left out

- HTTP fetching and `BeautifulSoup` are not modelled. A crawl receives the pages as a function from URL to optional parsed page.
- `urljoin` is not modelled: a page's links are given already joined. A link the splitter refuses (`Refused`, `OnSchoolHost` raising) stands for an `href` whose `urljoin` raises `ValueError`.
- The fetch oracle is deterministic. `crawl` and `crawl_website` fetch the start URL twice (once for the site title); both fetches are modelled as giving the same page.
- The ghost parameter `site` of the crawl methods is a proof device and has no counterpart in the source; `Serves` fixes it to what extraction makes of the fetched pages.
- SimpleScraper.Scraper.Drain: the loop guard's `!aborted` stands for the `ValueError` of `find_links` leaving the loop and `crawl`.
- The following are I/O with nothing to prove and are left out:
  - logging and `print`, among them the highest level printed at simple_scraper.py:273 and 281 and the sorted level distribution at 289-290;
  - `time.sleep`;
  - the CSV, DOCX and JSON exports;
  - `export_*` and `get_page_content` beyond their results.
- PhoneScraper.PageRecord keeps `phone_numbers`, `contacts`, `original_phones` and `original_contacts` as lists; the source stores them `'; '`-joined (phone_scraper.py:249-252). SimpleScraper.SiteResult keeps its lists as the source does.
- Flask routes, the event stream, threads and `run_task` are web plumbing and concurrency and are left out, except for its page-limit parse.
- The environment variable behind `DEFAULT_MAX_PAGES` is a parameter.
- `hashlib.md5` is taken as the identity on `url_day`, so digest collisions are not modelled. The day string, `time.time()` and `os.path.exists` (as a predicate on the file name in the output directory) are parameters.
- Set order:
  - `list(set(...))` is given first-occurrence order;
  - the model fixes one order where Python leaves it to hashing.
- Dictionary order: `page_levels.values()` follows insertion order, which `pageOrder` records.
- `simple_scraper.py` repeats `clean_text`, `extract_phones`, `_is_filename_part`, `extract_contacts` and `_is_valid_contact` verbatim. Each is modelled once and cited at its phone_scraper.py lines.
- `\d`, `str.isdigit` and `.lower()` are ASCII-only:
  - non-ASCII decimal digits are not digits;
  - lower-casing is ASCII only, which decides exactly the same extension tests.
- `int()` of a string accepts only ASCII digits; Python also accepts other Unicode decimal digits.
- The 4300-digit limit of `int()` is the default of `sys.int_info.default_max_str_digits`; `PYTHONINTMAXSTRDIGITS` and `sys.set_int_max_str_digits` are not modelled. A JSON integer literal longer than that already fails in the JSON reader, before this code, and is modelled as an integer.
- Url.NfkcDelimiter lists the characters whose NFKC form (Unicode 15.0) contains a delimiter; other Unicode versions are not modelled.
- The JSON `max_pages` value is reduced to null, booleans, integers, floats, strings and "anything else". For lists and objects, `int()` raising is all that matters.
- PhoneScraper.Scraper.constructor: requires a base URL the splitter accepts. The source raises in `__init__` for the other URLs, so no scraper exists for them.
- Contacts.KeywordEnd: requires non-empty keywords, which every listed pattern has (`ContactPatternsWellFormed`).
- PhoneScraper.Scraper.CrawlWebsite: the events are pinned down by `Run`; the lemmas about them state only that they are appended, with `start` first and `done` last.

## Findings

| source | as written | input that shows it | evidently intended | confidence | as-written member | corrected member |
|---|---|---|---|---|---|---|
| phone_scraper.py:87-88 | the `+86`/`86` patterns return the whole match, which cleans to 13 characters and always fails the 11-character check; a number glued to `+86` is also blocked for the plain pattern by the look-behind | `+8613800138000` | the number after the country code is found | high, not executed | PhoneFindings.CountryCodeMissedAsWritten | PhoneFindings.CountryCodeFoundWhenFixed |
| phone_scraper.py:89-90 | the spaced and hyphenated patterns read `1[3-9]\d{2}` and then 4 + 4 digits, i.e. 12 digits, which always fail the 11-character check | `138 0013 8000` | a mobile number grouped 3-4-4 is found | high, not executed | PhoneFindings.SpacedMissedAsWritten | PhoneFindings.SpacedFoundWhenFixed |

`Phones.AsWrittenOnlyPlainCounts` proves, for every text, that only the first pattern of the list as written can contribute. `Phones.FixedPatternsClean11` proves that every match of the corrected list passes the length check. The corrected list captures the number after the code and reads `1[3-9]\d` followed by 4 + 4 digits. The same patterns appear at simple_scraper.py:50-53. Both crawls in the model follow the program as written; the corrected list and the proofs about it are in `PhoneFindings`.
