/** `PhoneScraper` (phone_scraper.py:33-370): the dedup ledger of `extract_page_info`, the
    link filter and the breadth-first crawl of `crawl_website`, and the progress sink. */
module PhoneScraper {
  import opened Maybe
  import opened Text
  import opened Dedup
  import opened Sanitizer
  import opened Phones
  import opened Contacts
  import opened Url
  import opened Web

  /** The hard cap on pages per crawl. */
  const SAFETY_LIMIT: nat := 10000
  const NO_TITLE := "无标题"
  const UNKNOWN_SITE := "未知网站"

  /** The payloads `_report` hands to the progress callback. */
  datatype Event =
    | Start(url: string, maxPages: Option<nat>)
    | SiteTitle(title: string)
    | PageStart(index: nat, url: string, queue: nat)
    | PageResult(index: nat, url: string, newPhones: nat, newContacts: nat)
    | Progress(pages: nat, queue: nat, phones: nat, contacts: nat)
    | Done(pages: nat, phones: nat, contacts: nat)

  /** One entry of `phone_contacts`; the `'; '`-joined strings of the source are kept as lists. */
  datatype PageRecord = PageRecord(
    url: string, title: string,
    phones: seq<string>, contacts: seq<string>,
    phoneCount: nat, contactCount: nat,
    originalPhones: seq<string>, originalContacts: seq<string>)

  function AllPhones(rs: seq<PageRecord>): seq<string> {
    if rs == [] then [] else AllPhones(rs[..|rs| - 1]) + rs[|rs| - 1].phones
  }

  function AllContacts(rs: seq<PageRecord>): seq<string> {
    if rs == [] then [] else AllContacts(rs[..|rs| - 1]) + rs[|rs| - 1].contacts
  }

  /** `int(max_pages)` when it is positive; otherwise the crawl has no page limit. */
  function PageLimit(maxPages: Option<int>): (r: Option<nat>)
    ensures r.Some? ==> maxPages == Some(r.value as int) && r.value > 0
    ensures r.None? ==> maxPages.None? || maxPages.value <= 0
  {
    if maxPages.Some? && maxPages.value > 0 then Some(maxPages.value as nat) else None
  }

  /** The page title: the cleaned `<title>` text, or `无标题`. */
  function PageTitle(title: Option<string>): string {
    if title.Some? then CleanText(Strip(title.value)) else NO_TITLE
  }

  /** A fetched page with a `<title>` element. */
  predicate HasTitle(page: Option<Page>) {
    page.Some? && page.value.title.Some?
  }

  /** The numbers `extract_phone_numbers` finds in a page's text, with the pattern list as
      the class defines it. */
  function PagePhones(page: Page): seq<string> {
    PhoneNumbers(PHONE_PATTERNS, page.text)
  }

  /** The contacts `extract_contacts` finds in a page's text. */
  function PageContacts(page: Page): seq<string> {
    ContactsOf(page.text)
  }

  /** The links `find_all_links` keeps: those `is_valid_url` accepts, in page order. */
  function SameSiteLinks(domain: string, links: seq<string>): (r: seq<string>)
    ensures forall u {:trigger u in r} :: u in r <==> u in links && IsSameSiteUrl(domain, u)
    ensures |r| <= |links|
  {
    if links == [] then []
    else
      var u := links[|links| - 1];
      assert forall x :: x in links <==> x in links[..|links| - 1] || x == u;
      SameSiteLinks(domain, links[..|links| - 1]) + (if IsSameSiteUrl(domain, u) then [u] else [])
  }

  /** The splitter refuses the link, so its `urljoin` raises. */
  predicate Refused(u: string) {
    UrlSplit(u).Raised?
  }

  /** Some link of the list satisfies `p`, looking from the last one back. */
  predicate SomeLink(p: string -> bool, links: seq<string>) {
    links != [] && (SomeLink(p, links[..|links| - 1]) || p(links[|links| - 1]))
  }

  /** A list has a link satisfying `p` exactly when one of its positions holds one. */
  lemma {:induction false} SomeLinkAt(p: string -> bool, links: seq<string>)
    ensures SomeLink(p, links) <==> exists k :: 0 <= k < |links| && p(links[k])
  {
    if links != [] {
      var init := links[..|links| - 1];
      SomeLinkAt(p, init);
      if SomeLink(p, init) {
        var k :| 0 <= k < |init| && p(init[k]);
        assert init[k] == links[k];
      } else if !p(links[|links| - 1]) {
        forall k | 0 <= k < |links| ensures !p(links[k]) {
          if k < |init| {
            assert init[k] == links[k];
          }
        }
      }
    }
  }

  /** `find_all_links` as a whole: the `urljoin` of some `href` raises, which nothing in
      the crawl catches, or the same-site links in page order. */
  function LinkScan(domain: string, links: seq<string>): (r: Result<seq<string>>)
    ensures r.Raised? <==> SomeLink(Refused, links)
    ensures r.Ok? ==> r.value == SameSiteLinks(domain, links)
  {
    if links == [] then Ok([])
    else
      var u := links[|links| - 1];
      match LinkScan(domain, links[..|links| - 1])
      case Raised => Raised
      case Ok(kept) =>
        if Refused(u) then Raised
        else Ok(kept + (if IsSameSiteUrl(domain, u) then [u] else []))
  }

  /** The scan raises exactly when some `href` is one the splitter refuses. */
  lemma LinkScanRaises(domain: string, links: seq<string>)
    ensures LinkScan(domain, links).Raised? <==>
      exists k :: 0 <= k < |links| && Refused(links[k])
  {
    SomeLinkAt(Refused, links);
  }

  /** The scan of one more link. */
  lemma LinkScanAt(domain: string, links: seq<string>, i: nat)
    requires i < |links|
    ensures LinkScan(domain, links[..i]).Raised? || Refused(links[i]) ==>
      LinkScan(domain, links[..i + 1]).Raised?
    ensures LinkScan(domain, links[..i]).Ok? && !Refused(links[i]) ==>
      LinkScan(domain, links[..i + 1]) ==
        Ok(LinkScan(domain, links[..i]).value + (if IsSameSiteUrl(domain, links[i]) then [links[i]] else []))
  {
    assert links[..i + 1][..i] == links[..i];
    assert links[..i + 1][i] == links[i];
  }

  /** Once a link raises, every longer list of links raises too. */
  lemma LinkScanRaisedPrefix(domain: string, links: seq<string>, i: nat)
    requires i <= |links| && LinkScan(domain, links[..i]).Raised?
    ensures LinkScan(domain, links).Raised?
  {
    SomeLinkAt(Refused, links[..i]);
    var k :| 0 <= k < i && Refused(links[..i][k]);
    assert links[..i][k] == links[k];
    SomeLinkAt(Refused, links);
  }

  /** One turn of the link loop: from the scan of the first `i` links, either the whole
      scan raises or one more link is scanned. */
  lemma LinkScanNext(domain: string, links: seq<string>, i: nat, kept: seq<string>)
    requires i < |links| && LinkScan(domain, links[..i]) == Ok(kept)
    ensures Refused(links[i]) ==> LinkScan(domain, links).Raised?
    ensures !Refused(links[i]) && IsSameSiteUrl(domain, links[i]) ==>
      LinkScan(domain, links[..i + 1]) == Ok(kept + [links[i]])
    ensures !Refused(links[i]) && !IsSameSiteUrl(domain, links[i]) ==>
      LinkScan(domain, links[..i + 1]) == Ok(kept)
  {
    LinkScanAt(domain, links, i);
    assert kept + [] == kept;
    if Refused(links[i]) {
      LinkScanRaisedPrefix(domain, links, i + 1);
    }
  }

  /** The queue after the link loop: a link is appended when it is neither visited nor
      already queued. */
  function Enqueue(queue: seq<string>, links: seq<string>, visited: set<string>): (r: seq<string>)
    ensures NoDup(queue) ==> NoDup(r)
    ensures queue <= r
    ensures forall u {:trigger u in r} :: u in r <==> u in queue || (u in links && u !in visited)
    decreases |links|
  {
    if links == [] then queue
    else
      var u := links[0];
      var q := if u !in visited && u !in queue then queue + [u] else queue;
      assert NoDup(queue) ==> NoDup(q);
      assert forall x :: x in links <==> x == u || x in links[1..];
      var r := Enqueue(q, links[1..], visited);
      assert forall x :: x in queue ==> x in q;
      r
  }

  /** Every record carries its own counts and lists something new. */
  predicate Counted(records: seq<PageRecord>) {
    forall k :: 0 <= k < |records| ==>
      records[k].phoneCount == |records[k].phones|
      && records[k].contactCount == |records[k].contacts|
      && (records[k].phones != [] || records[k].contacts != [])
  }

  /** Every number and contact in the ledger sets is listed in exactly one record, once,
      and every record lists something new. */
  predicate Ledger(records: seq<PageRecord>, seenPhones: set<string>, seenContacts: set<string>) {
    Exact(AllPhones(records), seenPhones) && Exact(AllContacts(records), seenContacts) && Counted(records)
  }

  /** The record `extract_page_info` appends for a page, if any. */
  function RecordFor(url: string, title: string, phones: seq<string>, contacts: seq<string>,
                     seenPhones: set<string>, seenContacts: set<string>): seq<PageRecord>
  {
    var newPhones := Admit(phones, seenPhones);
    var newContacts := Admit(contacts, seenContacts);
    if newPhones != [] || newContacts != [] then
      [PageRecord(url, title, newPhones, newContacts, |newPhones|, |newContacts|, phones, contacts)]
    else []
  }

  lemma AllAppend(records: seq<PageRecord>, r: PageRecord)
    ensures AllPhones(records + [r]) == AllPhones(records) + r.phones
    ensures AllContacts(records + [r]) == AllContacts(records) + r.contacts
  {
    assert (records + [r])[..|records|] == records;
  }

  lemma CountedAppend(records: seq<PageRecord>, r: PageRecord)
    requires Counted(records)
    requires r.phoneCount == |r.phones| && r.contactCount == |r.contacts| && (r.phones != [] || r.contacts != [])
    ensures Counted(records + [r])
  {
    assert forall k :: 0 <= k < |records| ==> (records + [r])[k] == records[k];
  }

  /** The record a page adds, built from the admitted lists, is the one `RecordFor`
      describes, and the ledger stays exact. */
  lemma RecordKept(records: seq<PageRecord>, seenPhones: set<string>, seenContacts: set<string>,
                   url: string, title: string, phones: seq<string>, contacts: seq<string>,
                   newPhones: seq<string>, newContacts: seq<string>, records': seq<PageRecord>)
    requires Ledger(records, seenPhones, seenContacts)
    requires newPhones == Admit(phones, seenPhones) && newContacts == Admit(contacts, seenContacts)
    requires records' == if newPhones != [] || newContacts != [] then
      records + [PageRecord(url, title, newPhones, newContacts, |newPhones|, |newContacts|, phones, contacts)]
      else records
    ensures records' == records + RecordFor(url, title, phones, contacts, seenPhones, seenContacts)
    ensures Ledger(records', seenPhones + Elems(phones), seenContacts + Elems(contacts))
  {
    ExactStep(AllPhones(records), seenPhones, phones);
    ExactStep(AllContacts(records), seenContacts, contacts);
    if newPhones != [] || newContacts != [] {
      var r := PageRecord(url, title, newPhones, newContacts, |newPhones|, |newContacts|, phones, contacts);
      AllAppend(records, r);
      CountedAppend(records, r);
    } else {
      assert AllPhones(records) + newPhones == AllPhones(records);
      assert AllContacts(records) + newContacts == AllContacts(records);
    }
  }

  /** `max(0, len(after) - len(before))`, the count a `page_result` event reports. */
  function Growth(before: set<string>, after: set<string>): (n: nat)
    ensures before <= after ==> n == |after - before|
  {
    if |after| > |before| then |after| - |before| else 0
  }

  /** Being a prefix is transitive. */
  lemma PrefixTrans(a: seq<Event>, b: seq<Event>, c: seq<Event>)
    requires a <= b && b <= c
    ensures a <= c
  {
    assert c[..|b|][..|a|] == c[..|a|];
  }

  /** A run's events open with its `start` and close with its `done`. */
  lemma Bracketed(before: seq<Event>, first: Event, middle: seq<Event>, last: Event)
    requires before + [first] <= middle
    ensures |middle + [last]| >= |before| + 2
    ensures (middle + [last])[|before|] == first
    ensures (middle + [last])[|middle|] == last
  {
    assert (before + [first])[|before|] == first;
  }

  // ---------------------------------------------------------------------------
  // The crawl of `crawl_website` as a function of its state

  /** The state the crawl loop changes: the queue `urls_to_visit`, `page_count`, the
      visited set, the ledger, the records, the events handed to the callback, and
      whether the loop stopped at a limit or was aborted by a raising `urljoin`. */
  datatype Crawl = Crawl(
    queue: seq<string>, pageCount: nat, visited: set<string>,
    seenPhones: set<string>, seenContacts: set<string>, records: seq<PageRecord>,
    events: seq<Event>, stopped: bool, aborted: bool)

  /** What a fetched page gives the crawl loop: its title, the numbers and contacts of
      its text, and the outcome of its link loop. */
  datatype Yield = Yield(title: string, phones: seq<string>, contacts: seq<string>,
                         links: Result<seq<string>>)

  /** The yield of a fetched page under `extract_page_info` and `find_all_links`. */
  function YieldOf(domain: string, page: Page): Yield {
    Yield(PageTitle(page.title), PagePhones(page), PageContacts(page), LinkScan(domain, page.links))
  }

  /** `fetch_page` followed by extraction: what each URL yields, or None when the fetch
      fails. */
  function SiteYields(domain: string, fetch: string -> Option<Page>): string -> Option<Yield> {
    u => if fetch(u).Some? then Some(YieldOf(domain, fetch(u).value)) else None
  }

  /** `site` gives what the crawl makes of each URL: nothing when `fetch_page` fails,
      and otherwise the yield of the page fetched. */
  ghost predicate Serves(domain: string, fetch: string -> Option<Page>, site: string -> Option<Yield>) {
    && (forall u :: site(u).Some? <==> fetch(u).Some?)
    && (forall u {:trigger YieldOf(domain, fetch(u).value)} ::
          fetch(u).Some? ==> site(u) == Some(YieldOf(domain, fetch(u).value)))
  }

  /** Extraction applied to what `fetch` serves is such a view of the site. */
  lemma SiteYieldsServe(domain: string, fetch: string -> Option<Page>)
    ensures Serves(domain, fetch, SiteYields(domain, fetch))
  {
  }

  /** Every link a yield would queue is one `is_valid_url` accepts. */
  ghost predicate KeepsSameSite(domain: string, site: string -> Option<Yield>) {
    forall u, l :: site(u).Some? && site(u).value.links.Ok? && l in site(u).value.links.value ==>
      IsSameSiteUrl(domain, l)
  }

  /** The link loop keeps only same-site links, whatever the site serves. */
  lemma ServesSameSite(domain: string, fetch: string -> Option<Page>, site: string -> Option<Yield>)
    requires Serves(domain, fetch, site)
    ensures KeepsSameSite(domain, site)
  {
    forall u, l | site(u).Some? && site(u).value.links.Ok? && l in site(u).value.links.value
      ensures IsSameSiteUrl(domain, l)
    {
      assert site(u) == Some(YieldOf(domain, fetch(u).value));
      assert l in SameSiteLinks(domain, fetch(u).value.links);
    }
  }

  /** `_report(e)`: the event is delivered only when a callback is set. */
  function Emit(reporting: bool, events: seq<Event>, e: Event): seq<Event> {
    if reporting then events + [e] else events
  }

  /** The two limit checks of the loop, made before a page is fetched. */
  predicate AtLimit(pageCount: nat, limit: Option<nat>) {
    pageCount >= SAFETY_LIMIT || (limit.Some? && pageCount >= limit.value)
  }

  /** The URLs a crawl may visit: the start URL and links `is_valid_url` accepts. */
  predicate InScope(baseUrl: string, domain: string, u: string) {
    u == baseUrl || IsSameSiteUrl(domain, u)
  }

  /** Adding a page's record keeps the ledger exact. */
  lemma RecordForKeeps(records: seq<PageRecord>, seenPhones: set<string>, seenContacts: set<string>,
                       url: string, title: string, phones: seq<string>, contacts: seq<string>)
    ensures Ledger(records, seenPhones, seenContacts) ==>
      Ledger(records + RecordFor(url, title, phones, contacts, seenPhones, seenContacts),
             seenPhones + Elems(phones), seenContacts + Elems(contacts))
  {
    if Ledger(records, seenPhones, seenContacts) {
      var newPhones := Admit(phones, seenPhones);
      var newContacts := Admit(contacts, seenContacts);
      RecordKept(records, seenPhones, seenContacts, url, title, phones, contacts, newPhones, newContacts,
        if newPhones != [] || newContacts != [] then
          records + [PageRecord(url, title, newPhones, newContacts, |newPhones|, |newContacts|, phones, contacts)]
        else records);
    }
  }

  /** `extract_page_info` and the `page_result` event for a page with the given title,
      numbers and contacts; `c.pageCount` already counts it. */
  function Extracted(reporting: bool, url: string, title: string, phones: seq<string>, contacts: seq<string>,
                     c: Crawl): Crawl
  {
    var seenPhones := c.seenPhones + Elems(phones);
    var seenContacts := c.seenContacts + Elems(contacts);
    c.(seenPhones := seenPhones, seenContacts := seenContacts,
       records := c.records + RecordFor(url, title, phones, contacts, c.seenPhones, c.seenContacts),
       events := Emit(reporting, c.events,
         PageResult(c.pageCount, url, Growth(c.seenPhones, seenPhones), Growth(c.seenContacts, seenContacts))))
  }

  /** Extraction leaves the queue, the count and the visited set alone, adds the page's
      numbers and contacts to the ledger sets, growing each by the number admitted, and
      only appends events. */
  lemma ExtractedShape(reporting: bool, url: string, title: string, phones: seq<string>, contacts: seq<string>,
                       c: Crawl)
    ensures var r := Extracted(reporting, url, title, phones, contacts, c);
      && r.queue == c.queue && r.pageCount == c.pageCount && r.visited == c.visited
      && r.stopped == c.stopped && r.aborted == c.aborted
      && r.seenPhones == c.seenPhones + Elems(phones)
      && r.seenContacts == c.seenContacts + Elems(contacts)
      && |r.seenPhones| == |c.seenPhones| + |Admit(phones, c.seenPhones)|
      && |r.seenContacts| == |c.seenContacts| + |Admit(contacts, c.seenContacts)|
      && c.events <= r.events && (!reporting ==> r.events == c.events)
  {
    AdmitGrowsSeenByExactly(phones, c.seenPhones);
    AdmitGrowsSeenByExactly(contacts, c.seenContacts);
  }

  /** Extraction keeps the ledger exact. */
  lemma ExtractedLedger(reporting: bool, url: string, title: string, phones: seq<string>, contacts: seq<string>,
                        c: Crawl)
    requires Ledger(c.records, c.seenPhones, c.seenContacts)
    ensures var r := Extracted(reporting, url, title, phones, contacts, c);
      Ledger(r.records, r.seenPhones, r.seenContacts)
  {
    RecordForKeeps(c.records, c.seenPhones, c.seenContacts, url, title, phones, contacts);
  }

  /** The link loop after extraction, given its outcome, and the `progress` event every
      tenth page; a raising `urljoin` aborts the crawl before either. */
  function Linked(reporting: bool, links: Result<seq<string>>, c: Crawl): Crawl {
    match links
    case Raised => c.(aborted := true)
    case Ok(kept) =>
      var q := Enqueue(c.queue, kept, c.visited);
      c.(queue := q,
         events := if c.pageCount % 10 == 0
           then Emit(reporting, c.events, Progress(c.pageCount, |q|, |c.seenPhones|, |c.seenContacts|))
           else c.events)
  }

  /** The link loop changes only the queue, the events and the abort flag: it aborts
      exactly when a link raised, and otherwise the queue grows by the kept links that
      are neither visited nor queued, so it stays duplicate-free. */
  lemma LinkedShape(reporting: bool, links: Result<seq<string>>, c: Crawl)
    ensures var r := Linked(reporting, links, c);
      && r.pageCount == c.pageCount && r.visited == c.visited && r.stopped == c.stopped
      && r.seenPhones == c.seenPhones && r.seenContacts == c.seenContacts && r.records == c.records
      && r.aborted == (c.aborted || links.Raised?)
      && (links.Raised? ==> r.queue == c.queue)
      && (links.Ok? ==> forall u :: u in r.queue <==> u in c.queue || (u in links.value && u !in c.visited))
      && (NoDup(c.queue) ==> NoDup(r.queue))
      && c.events <= r.events && (!reporting ==> r.events == c.events)
  {
  }

  /** A fetched page is marked visited and counted, then extracted and its links queued. */
  function Visit(reporting: bool, url: string, y: Yield, c: Crawl): Crawl {
    Linked(reporting, y.links,
      Extracted(reporting, url, y.title, y.phones, y.contacts,
        c.(visited := c.visited + {url}, pageCount := c.pageCount + 1)))
  }

  /** A visit adds the URL to the visited set, counts it, and adds what the page yields
      to the ledger sets. */
  lemma VisitCounts(reporting: bool, url: string, y: Yield, c: Crawl)
    ensures var r := Visit(reporting, url, y, c);
      && r.visited == c.visited + {url} && r.pageCount == c.pageCount + 1 && r.stopped == c.stopped
      && r.seenPhones == c.seenPhones + Elems(y.phones)
      && r.seenContacts == c.seenContacts + Elems(y.contacts)
  {
    var c1 := c.(visited := c.visited + {url}, pageCount := c.pageCount + 1);
    ExtractedShape(reporting, url, y.title, y.phones, y.contacts, c1);
    LinkedShape(reporting, y.links, Extracted(reporting, url, y.title, y.phones, y.contacts, c1));
  }

  /** A visit keeps the queue duplicate-free and queues only links the page kept. */
  lemma VisitQueue(reporting: bool, url: string, y: Yield, c: Crawl)
    ensures var r := Visit(reporting, url, y, c);
      && (NoDup(c.queue) ==> NoDup(r.queue))
      && (forall u :: u in r.queue ==> u in c.queue || (y.links.Ok? && u in y.links.value))
  {
    var c1 := c.(visited := c.visited + {url}, pageCount := c.pageCount + 1);
    ExtractedShape(reporting, url, y.title, y.phones, y.contacts, c1);
    LinkedShape(reporting, y.links, Extracted(reporting, url, y.title, y.phones, y.contacts, c1));
  }

  /** A visit only appends events, and only when a callback is set. */
  lemma VisitEvents(reporting: bool, url: string, y: Yield, c: Crawl)
    ensures var r := Visit(reporting, url, y, c);
      c.events <= r.events && (!reporting ==> r.events == c.events)
  {
    var c1 := c.(visited := c.visited + {url}, pageCount := c.pageCount + 1);
    var e := Extracted(reporting, url, y.title, y.phones, y.contacts, c1);
    ExtractedShape(reporting, url, y.title, y.phones, y.contacts, c1);
    LinkedShape(reporting, y.links, e);
    PrefixTrans(c.events, e.events, Linked(reporting, y.links, e).events);
  }

  /** A visit keeps the ledger exact. */
  lemma VisitLedger(reporting: bool, url: string, y: Yield, c: Crawl)
    requires Ledger(c.records, c.seenPhones, c.seenContacts)
    ensures var r := Visit(reporting, url, y, c);
      Ledger(r.records, r.seenPhones, r.seenContacts)
  {
    var c1 := c.(visited := c.visited + {url}, pageCount := c.pageCount + 1);
    ExtractedLedger(reporting, url, y.title, y.phones, y.contacts, c1);
    LinkedShape(reporting, y.links, Extracted(reporting, url, y.title, y.phones, y.contacts, c1));
  }

  /** The turn once the checks pass: the head leaves the queue and `page_start` is
      reported. */
  function Started(reporting: bool, c: Crawl): Crawl
    requires c.queue != []
  {
    c.(queue := c.queue[1..],
       events := Emit(reporting, c.events, PageStart(c.pageCount + 1, c.queue[0], |c.queue| - 1)))
  }

  /** One turn of the crawl loop: pop the head of the queue; skip it when visited; stop
      at a limit; otherwise report `page_start` and fetch it, skipping it when the fetch
      fails and visiting it when it succeeds. */
  function Next(limit: Option<nat>, site: string -> Option<Yield>, reporting: bool, c: Crawl): Crawl
    requires c.queue != []
  {
    var url := c.queue[0];
    if url in c.visited then c.(queue := c.queue[1..])
    else if AtLimit(c.pageCount, limit) then c.(queue := c.queue[1..], stopped := true)
    else if site(url).None? then Started(reporting, c)
    else Visit(reporting, url, site(url).value, Started(reporting, c))
  }

  /** A turn either takes nothing (the queue shrinks, the count and the sets stay) or
      takes the head of the queue: unvisited, below the limits and fetched, it is added
      to the visited set and counted, and its numbers and contacts join the ledger sets.
      The crawl stops only at a limit, with the count unchanged. */
  lemma NextShape(limit: Option<nat>, site: string -> Option<Yield>, reporting: bool, c: Crawl)
    requires c.queue != []
    ensures var r := Next(limit, site, reporting, c);
      && (|| (&& r.visited == c.visited && r.pageCount == c.pageCount && |r.queue| < |c.queue|
              && r.seenPhones == c.seenPhones && r.seenContacts == c.seenContacts)
          || (&& r.visited == c.visited + {c.queue[0]} && c.queue[0] !in c.visited
              && r.pageCount == c.pageCount + 1 && !AtLimit(c.pageCount, limit)
              && site(c.queue[0]).Some?
              && r.seenPhones == c.seenPhones + Elems(site(c.queue[0]).value.phones)
              && r.seenContacts == c.seenContacts + Elems(site(c.queue[0]).value.contacts)))
      && (r.stopped ==> c.stopped || (AtLimit(c.pageCount, limit) && r.pageCount == c.pageCount))
  {
    var url := c.queue[0];
    if url !in c.visited && !AtLimit(c.pageCount, limit) && site(url).Some? {
      VisitCounts(reporting, url, site(url).value, Started(reporting, c));
    }
  }

  /** A turn either leaves the visited set and the count alone or adds the head of the
      queue, unvisited and fetched, to the one and counts it in the other. */
  lemma NextVisits(limit: Option<nat>, site: string -> Option<Yield>, reporting: bool, c: Crawl)
    requires c.queue != []
    ensures var r := Next(limit, site, reporting, c);
      || (r.visited == c.visited && r.pageCount == c.pageCount)
      || (&& r.visited == c.visited + {c.queue[0]} && c.queue[0] !in c.visited
          && r.pageCount == c.pageCount + 1 && site(c.queue[0]).Some?)
  {
    var url := c.queue[0];
    if url !in c.visited && !AtLimit(c.pageCount, limit) && site(url).Some? {
      VisitCounts(reporting, url, site(url).value, Started(reporting, c));
    }
  }

  /** A turn keeps the ledger exact. */
  lemma NextLedger(limit: Option<nat>, site: string -> Option<Yield>, reporting: bool, c: Crawl)
    requires c.queue != [] && Ledger(c.records, c.seenPhones, c.seenContacts)
    ensures var r := Next(limit, site, reporting, c);
      Ledger(r.records, r.seenPhones, r.seenContacts)
  {
    var url := c.queue[0];
    if url !in c.visited && !AtLimit(c.pageCount, limit) && site(url).Some? {
      VisitLedger(reporting, url, site(url).value, Started(reporting, c));
    }
  }

  /** A turn keeps the queue duplicate-free and, when every yield keeps only same-site
      links, adds to it only same-site links. */
  lemma NextQueue(domain: string, limit: Option<nat>, site: string -> Option<Yield>, reporting: bool,
                  c: Crawl)
    requires c.queue != [] && KeepsSameSite(domain, site)
    ensures var r := Next(limit, site, reporting, c);
      && (NoDup(c.queue) ==> NoDup(r.queue))
      && forall u :: u in r.queue ==> u in c.queue || IsSameSiteUrl(domain, u)
  {
    var url := c.queue[0];
    var rest := c.queue[1..];
    assert NoDup(c.queue) ==> NoDup(rest);
    assert forall u :: u in rest ==> u in c.queue;
    if url !in c.visited && !AtLimit(c.pageCount, limit) && site(url).Some? {
      VisitQueue(reporting, url, site(url).value, Started(reporting, c));
    } else {
      assert Next(limit, site, reporting, c).queue == rest;
    }
  }

  /** A turn only appends events, and only when a callback is set. */
  lemma NextEvents(limit: Option<nat>, site: string -> Option<Yield>, reporting: bool, c: Crawl)
    requires c.queue != []
    ensures var r := Next(limit, site, reporting, c);
      c.events <= r.events && (!reporting ==> r.events == c.events)
  {
    var url := c.queue[0];
    if url in c.visited || AtLimit(c.pageCount, limit) {
      assert Next(limit, site, reporting, c).events == c.events;
    } else {
      var c1 := Started(reporting, c);
      if site(url).None? {
        assert Next(limit, site, reporting, c).events == c1.events;
      } else {
        VisitEvents(reporting, url, site(url).value, c1);
        assert Next(limit, site, reporting, c).events == Visit(reporting, url, site(url).value, c1).events;
        PrefixTrans(c.events, c1.events, Visit(reporting, url, site(url).value, c1).events);
      }
    }
  }

  /** What remains of the safety cap; a crawl turn either lowers it or shortens the queue. */
  function Headroom(pageCount: nat): nat {
    if pageCount >= SAFETY_LIMIT then 0 else SAFETY_LIMIT - pageCount
  }

  /** The turn lowers the headroom or shortens the queue, so the loop ends. */
  lemma NextDecreases(limit: Option<nat>, site: string -> Option<Yield>, reporting: bool, c: Crawl)
    requires c.queue != []
    ensures var r := Next(limit, site, reporting, c);
      Headroom(r.pageCount) < Headroom(c.pageCount)
      || (Headroom(r.pageCount) == Headroom(c.pageCount) && |r.queue| < |c.queue|)
  {
    NextShape(limit, site, reporting, c);
  }

  /** The `while urls_to_visit` loop: turns until the queue is empty, a limit stops the
      crawl or a link aborts it. */
  function Run(limit: Option<nat>, site: string -> Option<Yield>, reporting: bool, c: Crawl): Crawl
    decreases Headroom(c.pageCount), |c.queue|
  {
    if c.queue == [] || c.stopped || c.aborted then c
    else
      NextDecreases(limit, site, reporting, c);
      Run(limit, site, reporting, Next(limit, site, reporting, c))
  }

  /** The numbers the given pages yield. */
  function PhonesFrom(site: string -> Option<Yield>, pages: set<string>): set<string> {
    set u, p | u in pages && site(u).Some? && p in site(u).value.phones :: p
  }

  /** The contacts the given pages yield. */
  function ContactsFrom(site: string -> Option<Yield>, pages: set<string>): set<string> {
    set u, p | u in pages && site(u).Some? && p in site(u).value.contacts :: p
  }

  /** The events before the loop: `start` and, when the start page has a `<title>`,
      `site_title`. */
  function Opening(reporting: bool, baseUrl: string, limit: Option<nat>, home: Option<Page>,
                   events: seq<Event>): seq<Event>
  {
    var e := Emit(reporting, events, Start(baseUrl, limit));
    if HasTitle(home) then Emit(reporting, e, SiteTitle(PageTitle(home.value.title))) else e
  }

  /** The loop ends on an empty queue, on an abort, or stopped at a limit. */
  lemma {:induction false} RunHalts(limit: Option<nat>, site: string -> Option<Yield>, reporting: bool,
                                    c: Crawl)
    requires c.stopped ==> AtLimit(c.pageCount, limit)
    ensures var r := Run(limit, site, reporting, c);
      r.queue == [] || r.aborted || (r.stopped && AtLimit(r.pageCount, limit))
    decreases Headroom(c.pageCount), |c.queue|
  {
    if !(c.queue == [] || c.stopped || c.aborted) {
      NextShape(limit, site, reporting, c);
      NextDecreases(limit, site, reporting, c);
      RunHalts(limit, site, reporting, Next(limit, site, reporting, c));
    }
  }

  /** The page count never passes the safety cap or the requested limit, and never drops. */
  lemma {:induction false} RunBounds(limit: Option<nat>, site: string -> Option<Yield>, reporting: bool,
                                     c: Crawl)
    requires c.pageCount <= SAFETY_LIMIT && (limit.Some? ==> c.pageCount <= limit.value)
    ensures var r := Run(limit, site, reporting, c);
      c.pageCount <= r.pageCount <= SAFETY_LIMIT && (limit.Some? ==> r.pageCount <= limit.value)
    decreases Headroom(c.pageCount), |c.queue|
  {
    if !(c.queue == [] || c.stopped || c.aborted) {
      NextShape(limit, site, reporting, c);
      NextDecreases(limit, site, reporting, c);
      RunBounds(limit, site, reporting, Next(limit, site, reporting, c));
    }
  }

  /** Each counted page is a newly visited one, fetched successfully: no URL is taken
      twice. */
  lemma {:induction false} RunVisits(limit: Option<nat>, site: string -> Option<Yield>, reporting: bool,
                                     c: Crawl)
    ensures var r := Run(limit, site, reporting, c);
      && c.visited <= r.visited && c.pageCount <= r.pageCount
      && |r.visited| == |c.visited| + (r.pageCount - c.pageCount)
      && forall u :: u in r.visited - c.visited ==> site(u).Some?
    decreases Headroom(c.pageCount), |c.queue|
  {
    if !(c.queue == [] || c.stopped || c.aborted) {
      var n := Next(limit, site, reporting, c);
      NextVisits(limit, site, reporting, c);
      NextDecreases(limit, site, reporting, c);
      RunVisits(limit, site, reporting, n);
      var r := Run(limit, site, reporting, n);
      forall u | u in r.visited - c.visited ensures site(u).Some? {
        if u in n.visited {
          assert u == c.queue[0];
        }
      }
    }
  }

  /** When every yield keeps only same-site links, the crawl visits only the start URL
      and links `is_valid_url` accepts. */
  lemma {:induction false} RunInScope(baseUrl: string, domain: string, limit: Option<nat>,
                                      site: string -> Option<Yield>, reporting: bool, c: Crawl)
    requires KeepsSameSite(domain, site)
    requires forall u :: u in c.queue ==> InScope(baseUrl, domain, u)
    ensures var r := Run(limit, site, reporting, c);
      forall u :: u in r.visited - c.visited ==> InScope(baseUrl, domain, u)
    decreases Headroom(c.pageCount), |c.queue|
  {
    if !(c.queue == [] || c.stopped || c.aborted) {
      var n := Next(limit, site, reporting, c);
      NextShape(limit, site, reporting, c);
      NextQueue(domain, limit, site, reporting, c);
      NextDecreases(limit, site, reporting, c);
      RunInScope(baseUrl, domain, limit, site, reporting, n);
    }
  }

  /** The ledger stays exact over a whole crawl: every number and contact seen is listed
      in exactly one record, once. */
  lemma {:induction false} RunLedger(limit: Option<nat>, site: string -> Option<Yield>, reporting: bool,
                                     c: Crawl)
    requires Ledger(c.records, c.seenPhones, c.seenContacts)
    ensures var r := Run(limit, site, reporting, c);
      Ledger(r.records, r.seenPhones, r.seenContacts)
    decreases Headroom(c.pageCount), |c.queue|
  {
    if !(c.queue == [] || c.stopped || c.aborted) {
      NextLedger(limit, site, reporting, c);
      NextDecreases(limit, site, reporting, c);
      RunLedger(limit, site, reporting, Next(limit, site, reporting, c));
    }
  }

  lemma PhonesFromUnion(site: string -> Option<Yield>, a: set<string>, b: set<string>)
    ensures PhonesFrom(site, a + b) == PhonesFrom(site, a) + PhonesFrom(site, b)
    ensures ContactsFrom(site, a + b) == ContactsFrom(site, a) + ContactsFrom(site, b)
  {
  }

  lemma PhonesFromOne(site: string -> Option<Yield>, u: string)
    requires site(u).Some?
    ensures PhonesFrom(site, {u}) == Elems(site(u).value.phones)
    ensures ContactsFrom(site, {u}) == Elems(site(u).value.contacts)
  {
  }

  /** Collecting over two successive stretches of visits is collecting over both. */
  lemma CollectsCompose(site: string -> Option<Yield>, v0: set<string>, v1: set<string>, v2: set<string>,
                        p0: set<string>, p1: set<string>, p2: set<string>,
                        q0: set<string>, q1: set<string>, q2: set<string>)
    requires v0 <= v1 <= v2
    requires p1 == p0 + PhonesFrom(site, v1 - v0) && p2 == p1 + PhonesFrom(site, v2 - v1)
    requires q1 == q0 + ContactsFrom(site, v1 - v0) && q2 == q1 + ContactsFrom(site, v2 - v1)
    ensures p2 == p0 + PhonesFrom(site, v2 - v0) && q2 == q0 + ContactsFrom(site, v2 - v0)
  {
    assert v2 - v0 == (v2 - v1) + (v1 - v0);
    PhonesFromUnion(site, v2 - v1, v1 - v0);
  }

  /** One turn adds to the ledger sets exactly what the newly visited page yields. */
  lemma NextCollects(limit: Option<nat>, site: string -> Option<Yield>, reporting: bool, c: Crawl)
    requires c.queue != []
    ensures var n := Next(limit, site, reporting, c);
      && c.visited <= n.visited
      && n.seenPhones == c.seenPhones + PhonesFrom(site, n.visited - c.visited)
      && n.seenContacts == c.seenContacts + ContactsFrom(site, n.visited - c.visited)
  {
    var n := Next(limit, site, reporting, c);
    NextShape(limit, site, reporting, c);
    if n.pageCount != c.pageCount {
      assert n.visited - c.visited == {c.queue[0]};
      PhonesFromOne(site, c.queue[0]);
    } else {
      assert n.visited - c.visited == {};
      assert PhonesFrom(site, {}) == {} && ContactsFrom(site, {}) == {};
    }
  }

  /** The ledger sets end as the union of what the newly visited pages yield. */
  lemma {:induction false} RunCollects(limit: Option<nat>, site: string -> Option<Yield>, reporting: bool,
                                       c: Crawl)
    ensures var r := Run(limit, site, reporting, c);
      && r.seenPhones == c.seenPhones + PhonesFrom(site, r.visited - c.visited)
      && r.seenContacts == c.seenContacts + ContactsFrom(site, r.visited - c.visited)
    decreases Headroom(c.pageCount), |c.queue|
  {
    if c.queue == [] || c.stopped || c.aborted {
      assert c.visited - c.visited == {};
      assert PhonesFrom(site, {}) == {} && ContactsFrom(site, {}) == {};
    } else {
      var n := Next(limit, site, reporting, c);
      NextCollects(limit, site, reporting, c);
      NextDecreases(limit, site, reporting, c);
      RunCollects(limit, site, reporting, n);
      RunVisits(limit, site, reporting, n);
      var r := Run(limit, site, reporting, n);
      CollectsCompose(site, c.visited, n.visited, r.visited, c.seenPhones, n.seenPhones, r.seenPhones,
                      c.seenContacts, n.seenContacts, r.seenContacts);
    }
  }

  /** Events are only ever appended, and only when a callback is set. */
  lemma {:induction false} RunEvents(limit: Option<nat>, site: string -> Option<Yield>, reporting: bool,
                                     c: Crawl)
    ensures var r := Run(limit, site, reporting, c);
      c.events <= r.events && (!reporting ==> r.events == c.events)
    decreases Headroom(c.pageCount), |c.queue|
  {
    if !(c.queue == [] || c.stopped || c.aborted) {
      var n := Next(limit, site, reporting, c);
      NextEvents(limit, site, reporting, c);
      NextDecreases(limit, site, reporting, c);
      RunEvents(limit, site, reporting, n);
      PrefixTrans(c.events, n.events, Run(limit, site, reporting, n).events);
    }
  }

  /** A crawl from the start URL alone, run to the end: it halts at an empty queue, an
      abort or a limit; the count stays within both caps and counts the newly visited
      URLs, each fetched successfully and in scope; the ledger sets gain exactly what
      those pages yield; and the ledger stays exact. */
  lemma RunFromStart(baseUrl: string, domain: string, limit: Option<nat>, site: string -> Option<Yield>,
                     reporting: bool, c: Crawl)
    requires KeepsSameSite(domain, site)
    requires c.queue == [baseUrl] && c.pageCount == 0 && !c.stopped && !c.aborted
    requires Ledger(c.records, c.seenPhones, c.seenContacts)
    ensures var r := Run(limit, site, reporting, c);
      && (r.queue == [] || r.aborted || (r.stopped && AtLimit(r.pageCount, limit)))
      && r.pageCount <= SAFETY_LIMIT && (limit.Some? ==> r.pageCount <= limit.value)
      && c.visited <= r.visited && |r.visited| == |c.visited| + r.pageCount
      && (forall u :: u in r.visited - c.visited ==> site(u).Some? && InScope(baseUrl, domain, u))
      && r.seenPhones == c.seenPhones + PhonesFrom(site, r.visited - c.visited)
      && r.seenContacts == c.seenContacts + ContactsFrom(site, r.visited - c.visited)
      && Ledger(r.records, r.seenPhones, r.seenContacts)
      && c.events <= r.events && (!reporting ==> r.events == c.events)
  {
    RunHalts(limit, site, reporting, c);
    RunBounds(limit, site, reporting, c);
    RunVisits(limit, site, reporting, c);
    RunInScope(baseUrl, domain, limit, site, reporting, c);
    RunCollects(limit, site, reporting, c);
    RunLedger(limit, site, reporting, c);
    RunEvents(limit, site, reporting, c);
  }

  class Scraper {
    const baseUrl: string
    const domain: string
    var visited: set<string>
    var records: seq<PageRecord>
    var seenPhones: set<string>
    var seenContacts: set<string>
    var siteTitle: string
    /** Whether a callable `progress_callback` is set. */
    var reporting: bool
    /** The payloads the callback has been given. */
    var events: seq<Event>

    predicate Valid()
      reads this`records, this`seenPhones, this`seenContacts
    {
      Ledger(records, seenPhones, seenContacts)
    }

    constructor(baseUrl: string)
      requires UrlSplit(baseUrl).Ok?
      ensures this.baseUrl == baseUrl && domain == UrlSplit(baseUrl).value.netloc
      ensures visited == {} && records == [] && seenPhones == {} && seenContacts == {}
      ensures siteTitle == UNKNOWN_SITE && !reporting && events == []
      ensures Valid()
    {
      this.baseUrl := baseUrl;
      domain := UrlSplit(baseUrl).value.netloc;
      visited := {};
      records := [];
      seenPhones := {};
      seenContacts := {};
      siteTitle := UNKNOWN_SITE;
      reporting := false;
      events := [];
    }

    /** Setting or clearing `progress_callback`. */
    method SetReporting(on: bool)
      modifies this`reporting
      ensures reporting == on
    {
      reporting := on;
    }

    /** `_report`: hands the payload to the callback if there is one; whatever the
        callback does, including raising, does not reach the crawl. */
    method Report(e: Event)
      modifies this`events
      ensures events == if reporting then old(events) + [e] else old(events)
    {
      if reporting {
        events := events + [e];
      }
    }

    /** The crawl state held in the fields, with the loop's own `urls_to_visit` and
        `page_count`. */
    function Snapshot(queue: seq<string>, pageCount: nat): Crawl
      reads this
    {
      Crawl(queue, pageCount, visited, seenPhones, seenContacts, records, events, false, false)
    }

    /** `is_valid_url`. */
    function IsValidUrl(url: string): (r: bool)
      ensures r <==> IsSameSiteUrl(domain, url)
    {
      IsSameSiteUrl(domain, url)
    }

    /** `find_all_links`: `urljoin` each `href` (its `ValueError` propagates) and keep the
        links `is_valid_url` accepts. */
    method FindAllLinks(page: Page) returns (links: Result<seq<string>>)
      ensures links == LinkScan(domain, page.links)
    {
      var kept: seq<string> := [];
      for i := 0 to |page.links|
        invariant LinkScan(domain, page.links[..i]) == Ok(kept)
      {
        var link := page.links[i];
        LinkScanNext(domain, page.links, i, kept);
        if Refused(link) {
          return Raised;
        }
        if IsValidUrl(link) {
          kept := kept + [link];
        }
      }
      assert page.links[..|page.links|] == page.links;
      links := Ok(kept);
    }

    /** The numbers and the contacts of one page's text, each list duplicate-free. */
    static method Findings(text: string) returns (phones: seq<string>, contacts: seq<string>)
      ensures phones == PhoneNumbers(PHONE_PATTERNS, text)
      ensures contacts == ContactsOf(text)
    {
      phones := ExtractPhoneNumbers(PHONE_PATTERNS, text);
      contacts := ExtractContacts(text);
    }

    /** `extract_page_info`: a record for the page iff it brought a new number or
        contact, listing exactly the new ones. */
    method ExtractPageInfo(url: string, page: Option<Page>)
      requires Valid()
      modifies this`seenPhones, this`seenContacts, this`records
      ensures Valid()
      ensures page.None? ==> seenPhones == old(seenPhones) && seenContacts == old(seenContacts) && records == old(records)
      ensures page.Some? ==>
        var phones := PagePhones(page.value);
        var contacts := PageContacts(page.value);
        && seenPhones == old(seenPhones) + Elems(phones)
        && seenContacts == old(seenContacts) + Elems(contacts)
        && |seenPhones| == |old(seenPhones)| + |Admit(phones, old(seenPhones))|
        && |seenContacts| == |old(seenContacts)| + |Admit(contacts, old(seenContacts))|
        && records == old(records) + RecordFor(url, PageTitle(page.value.title), phones, contacts,
                                                old(seenPhones), old(seenContacts))
    {
      if page.None? {
        return;
      }
      var phones, contacts := Findings(page.value.text);
      Ingest(url, PageTitle(page.value.title), phones, contacts);
    }

    /** The ledger loops of `extract_page_info` over one page's numbers and contacts. */
    method Ingest(url: string, title: string, phones: seq<string>, contacts: seq<string>)
      requires Valid()
      modifies this`seenPhones, this`seenContacts, this`records
      ensures Valid()
      ensures seenPhones == old(seenPhones) + Elems(phones)
      ensures seenContacts == old(seenContacts) + Elems(contacts)
      ensures |seenPhones| == |old(seenPhones)| + |Admit(phones, old(seenPhones))|
      ensures |seenContacts| == |old(seenContacts)| + |Admit(contacts, old(seenContacts))|
      ensures records == old(records) + RecordFor(url, title, phones, contacts, old(seenPhones), old(seenContacts))
    {
      var newPhones, seenPhones' := AdmitNew(phones, seenPhones);
      var newContacts, seenContacts' := AdmitNew(contacts, seenContacts);
      var records' := records;
      if newPhones != [] || newContacts != [] {
        var record := PageRecord(url, title, newPhones, newContacts, |newPhones|, |newContacts|, phones, contacts);
        records' := records + [record];
      }
      RecordKept(records, seenPhones, seenContacts, url, title, phones, contacts, newPhones, newContacts, records');
      records, seenPhones, seenContacts := records', seenPhones', seenContacts';
    }

    /** Extraction for a fetched page and its `page_result` event, which counts the
        numbers and contacts the page added to the ledger. */
    method RecordPage(current: string, page: Page, pageCount: nat, queue: seq<string>)
      requires Valid()
      modifies this`records, this`seenPhones, this`seenContacts, this`events
      ensures Snapshot(queue, pageCount) ==
        Extracted(reporting, current, PageTitle(page.title), PagePhones(page), PageContacts(page),
                  old(Snapshot(queue, pageCount)))
    {
      var beforePhones := seenPhones;
      var beforeContacts := seenContacts;
      ExtractPageInfo(current, Some(page));
      Report(PageResult(pageCount, current, Growth(beforePhones, seenPhones), Growth(beforeContacts, seenContacts)));
    }

    /** The body of the crawl loop once a page is fetched and counted: extraction, the
        `page_result` event, the link loop and, every tenth page, the `progress` event. */
    method ProcessPage(current: string, page: Page, pageCount: nat, queue: seq<string>)
      returns (queue': seq<string>, aborted: bool)
      requires Valid()
      modifies this`records, this`seenPhones, this`seenContacts, this`events
      ensures Snapshot(queue', pageCount).(aborted := aborted) ==
        Linked(reporting, LinkScan(domain, page.links),
          Extracted(reporting, current, PageTitle(page.title), PagePhones(page), PageContacts(page),
                    old(Snapshot(queue, pageCount))))
    {
      RecordPage(current, page, pageCount, queue);
      var links := FindAllLinks(page);
      if links.Raised? {
        return queue, true;
      }
      queue' := Enqueue(queue, links.value, visited);
      aborted := false;
      if pageCount % 10 == 0 {
        Report(Progress(pageCount, |queue'|, |seenPhones|, |seenContacts|));
      }
    }

    /** A fetched page is marked visited and counted, then processed. */
    method Take(current: string, page: Page, pageCount: nat, queue: seq<string>)
      returns (queue': seq<string>, aborted: bool)
      requires Valid()
      modifies this`visited, this`records, this`seenPhones, this`seenContacts, this`events
      ensures Snapshot(queue', pageCount + 1).(aborted := aborted) ==
        Visit(reporting, current, YieldOf(domain, page), old(Snapshot(queue, pageCount)))
    {
      ghost var c := Snapshot(queue, pageCount).(visited := visited + {current}, pageCount := pageCount + 1);
      visited := visited + {current};
      assert Snapshot(queue, pageCount + 1) == c;
      queue', aborted := ProcessPage(current, page, pageCount + 1, queue);
    }

    /** The head of the queue, unvisited and below the limits, is popped and reported
        with `page_start`, then fetched; a page that arrives is counted and processed. */
    method Attempt(queue: seq<string>, pageCount: nat, fetch: string -> Option<Page>,
                   ghost site: string -> Option<Yield>)
      returns (queue': seq<string>, pageCount': nat, aborted: bool)
      requires Valid() && queue != [] && Serves(domain, fetch, site)
      modifies this`visited, this`records, this`seenPhones, this`seenContacts, this`events
      ensures var c := old(Snapshot(queue, pageCount));
        Snapshot(queue', pageCount').(aborted := aborted) ==
          if site(queue[0]).None? then Started(reporting, c)
          else Visit(reporting, queue[0], site(queue[0]).value, Started(reporting, c))
    {
      var current := queue[0];
      queue' := queue[1..];
      pageCount' := pageCount;
      aborted := false;
      Report(PageStart(pageCount + 1, current, |queue'|));
      var page := fetch(current);
      if page.None? {
        return;
      }
      assert site(current) == Some(YieldOf(domain, page.value));
      queue', aborted := Take(current, page.value, pageCount, queue');
      pageCount' := pageCount + 1;
    }

    /** One turn of the crawl loop: skip the next URL if visited; stop at a limit;
        otherwise attempt it. */
    method Step(queue: seq<string>, pageCount: nat, limit: Option<nat>, fetch: string -> Option<Page>,
                ghost site: string -> Option<Yield>)
      returns (queue': seq<string>, pageCount': nat, stop: bool, aborted: bool)
      requires Valid() && queue != [] && Serves(domain, fetch, site)
      modifies this`visited, this`records, this`seenPhones, this`seenContacts, this`events
      ensures Snapshot(queue', pageCount').(stopped := stop, aborted := aborted) ==
        Next(limit, site, reporting, old(Snapshot(queue, pageCount)))
    {
      stop := false;
      if queue[0] in visited {
        return queue[1..], pageCount, false, false;
      }
      if AtLimit(pageCount, limit) {
        return queue[1..], pageCount, true, false;
      }
      queue', pageCount', aborted := Attempt(queue, pageCount, fetch, site);
    }

    /** The crawl loop of `crawl_website`, from a queue holding only the start URL. */
    method Drain(limit: Option<nat>, fetch: string -> Option<Page>, ghost site: string -> Option<Yield>)
      returns (queue: seq<string>, pageCount: nat, stopped: bool, aborted: bool)
      requires Valid() && Serves(domain, fetch, site)
      modifies this`visited, this`records, this`seenPhones, this`seenContacts, this`events
      ensures Valid()
      ensures Snapshot(queue, pageCount).(stopped := stopped, aborted := aborted) ==
        Run(limit, site, reporting, old(Snapshot([baseUrl], 0)))
      ensures queue == [] || aborted || (stopped && AtLimit(pageCount, limit))
      ensures pageCount <= SAFETY_LIMIT && (limit.Some? ==> pageCount <= limit.value)
      ensures old(visited) <= visited && |visited| == |old(visited)| + pageCount
      ensures forall u :: u in visited - old(visited) ==> fetch(u).Some? && InScope(baseUrl, domain, u)
      ensures seenPhones == old(seenPhones) + PhonesFrom(site, visited - old(visited))
      ensures seenContacts == old(seenContacts) + ContactsFrom(site, visited - old(visited))
      ensures old(events) <= events && (!reporting ==> events == old(events))
    {
      ghost var c0 := Snapshot([baseUrl], 0);
      queue := [baseUrl];
      pageCount := 0;
      stopped, aborted := false, false;
      while queue != []
        invariant Valid() && !stopped && !aborted
        invariant Run(limit, site, reporting, c0) == Run(limit, site, reporting, Snapshot(queue, pageCount))
        decreases Headroom(pageCount), |queue|
      {
        ghost var before := Snapshot(queue, pageCount);
        NextLedger(limit, site, reporting, before);
        NextDecreases(limit, site, reporting, before);
        queue, pageCount, stopped, aborted := Step(queue, pageCount, limit, fetch, site);
        if stopped || aborted {
          break;
        }
      }
      ServesSameSite(domain, fetch, site);
      RunFromStart(baseUrl, domain, limit, site, reporting, c0);
    }

    /** The site title is taken from the start page when it has a `<title>`, cleaned
        like a page title, and reported. */
    method ReadSiteTitle(home: Option<Page>)
      modifies this`siteTitle, this`events
      ensures HasTitle(home) ==> siteTitle == PageTitle(home.value.title)
      ensures !HasTitle(home) ==> siteTitle == old(siteTitle)
      ensures events == if HasTitle(home) && reporting then old(events) + [SiteTitle(siteTitle)] else old(events)
    {
      if HasTitle(home) {
        var t := PageTitle(home.value.title);
        siteTitle := t;
        Report(SiteTitle(t));
      }
    }

    /** The opening of `crawl_website`: the `start` event, then the site title. */
    method Open(limit: Option<nat>, home: Option<Page>)
      modifies this`siteTitle, this`events
      ensures HasTitle(home) ==> siteTitle == PageTitle(home.value.title)
      ensures !HasTitle(home) ==> siteTitle == old(siteTitle)
      ensures events == Opening(reporting, baseUrl, limit, home, old(events))
      ensures reporting ==> |events| > |old(events)| && events[|old(events)|] == Start(baseUrl, limit)
    {
      Report(Start(baseUrl, limit));
      ghost var started := events;
      ReadSiteTitle(home);
      assert started <= events;
    }

    /** `crawl_website(max_pages)`: report the start, read the site title from the start
        page, drain the queue and, unless a link aborted the crawl, report the totals.
        `site` is what the crawl makes of each URL `fetch` serves. */
    method CrawlWebsite(maxPages: Option<int>, fetch: string -> Option<Page>, ghost site: string -> Option<Yield>)
      returns (pageCount: nat, aborted: bool)
      requires Valid() && Serves(domain, fetch, site)
      modifies this`visited, this`records, this`seenPhones, this`seenContacts, this`siteTitle, this`events
      ensures Valid()
      ensures HasTitle(fetch(baseUrl)) ==> siteTitle == PageTitle(fetch(baseUrl).value.title)
      ensures !HasTitle(fetch(baseUrl)) ==> siteTitle == old(siteTitle)
      ensures var r := Run(PageLimit(maxPages), site, reporting,
          Crawl([baseUrl], 0, old(visited), old(seenPhones), old(seenContacts), old(records),
                Opening(reporting, baseUrl, PageLimit(maxPages), fetch(baseUrl), old(events)), false, false));
        && visited == r.visited && seenPhones == r.seenPhones && seenContacts == r.seenContacts
        && records == r.records && pageCount == r.pageCount && aborted == r.aborted
        && events == if reporting && !aborted then r.events + [Done(pageCount, |seenPhones|, |seenContacts|)] else r.events
      ensures seenPhones == old(seenPhones) + PhonesFrom(site, visited - old(visited))
      ensures seenContacts == old(seenContacts) + ContactsFrom(site, visited - old(visited))
      ensures reporting ==> |events| > |old(events)| && events[|old(events)|] == Start(baseUrl, PageLimit(maxPages))
      ensures reporting && !aborted ==> events[|events| - 1] == Done(pageCount, |seenPhones|, |seenContacts|)
    {
      var limit := PageLimit(maxPages);
      Open(limit, fetch(baseUrl));
      ghost var title := siteTitle;
      ghost var c0 := Snapshot([baseUrl], 0);
      assert c0 == Crawl([baseUrl], 0, old(visited), old(seenPhones), old(seenContacts), old(records),
                         Opening(reporting, baseUrl, limit, fetch(baseUrl), old(events)), false, false);
      var queue, stopped;
      queue, pageCount, stopped, aborted := Drain(limit, fetch, site);
      ghost var r := Run(limit, site, reporting, c0);
      assert siteTitle == title;
      assert visited == r.visited && seenPhones == r.seenPhones && seenContacts == r.seenContacts;
      assert records == r.records && pageCount == r.pageCount && aborted == r.aborted && events == r.events;
      if !aborted {
        Report(Done(pageCount, |seenPhones|, |seenContacts|));
      }
    }
  }
}
