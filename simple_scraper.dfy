/** `SimplePhoneScraper` (simple_scraper.py:19-290): a level-bounded breadth-first crawl
    of one site that keeps only phone numbers, with the same first-occurrence ledger as
    the full scraper, and the per-level page statistics it prints at the end. */
module SimpleScraper {
  import opened Maybe
  import opened Dedup
  import opened Sanitizer
  import opened Text
  import opened Phones
  import opened Url
  import opened Web
  import PhoneScraper

  const START_URL := "https://www.schdri.com/go.htm?k=zhong_dian_gong_cheng&url=cheng_guo_zhan_shi/zhong_dian_gong_cheng"
  const DEFAULT_MAX_PAGES := 1000
  const DEFAULT_MAX_LEVEL := 6

  /** One entry of `results`. */
  datatype SiteResult = SiteResult(
    url: string, title: string, phones: seq<string>, phoneCount: nat, level: int,
    originalPhones: seq<string>)

  function AllResultPhones(rs: seq<SiteResult>): seq<string> {
    if rs == [] then [] else AllResultPhones(rs[..|rs| - 1]) + rs[|rs| - 1].phones
  }

  /** Every number of `seen_phones` is listed by exactly one result, once; every result
      carries its own count and lists at least one number. */
  predicate Tally(results: seq<SiteResult>, seenPhones: set<string>) {
    && Exact(AllResultPhones(results), seenPhones)
    && forall k :: 0 <= k < |results| ==> results[k].phoneCount == |results[k].phones| && results[k].phones != []
  }

  /** The result `crawl` appends for a page, if any. */
  function ResultFor(url: string, title: string, level: int, phones: seq<string>, seenPhones: set<string>): seq<SiteResult> {
    var newPhones := Admit(phones, seenPhones);
    if newPhones != [] then [SiteResult(url, title, newPhones, |newPhones|, level, phones)] else []
  }

  /** The result built from the admitted list is the one `ResultFor` describes, and the
      ledger stays exact. */
  lemma ResultKept(results: seq<SiteResult>, seenPhones: set<string>, url: string, title: string,
                   level: int, phones: seq<string>, newPhones: seq<string>, results': seq<SiteResult>)
    requires Tally(results, seenPhones)
    requires newPhones == Admit(phones, seenPhones)
    requires results' == if newPhones != [] then results + [SiteResult(url, title, newPhones, |newPhones|, level, phones)] else results
    ensures results' == results + ResultFor(url, title, level, phones, seenPhones)
    ensures Tally(results', seenPhones + Elems(phones))
  {
    ExactStep(AllResultPhones(results), seenPhones, phones);
    if newPhones != [] {
      var r := SiteResult(url, title, newPhones, |newPhones|, level, phones);
      assert (results + [r])[..|results|] == results;
      assert forall k :: 0 <= k < |results| ==> (results + [r])[k] == results[k];
    } else {
      assert AllResultPhones(results) + newPhones == AllResultPhones(results);
    }
  }

  /** `r` with `prefix` in front of its list, or the failure. */
  function Prepend(prefix: seq<string>, r: Result<seq<string>>): Result<seq<string>> {
    if r.Raised? then Raised else Ok(prefix + r.value)
  }

  /** The links whose verdict is `Ok(true)`, in order, or `Raised` once any verdict is. */
  function Sift(links: seq<string>, verdicts: seq<Result<bool>>): (r: Result<seq<string>>)
    requires |verdicts| == |links|
    ensures r.Raised? <==> exists k :: 0 <= k < |verdicts| && verdicts[k].Raised?
    ensures r.Ok? ==> forall u :: u in r.value ==> exists k :: 0 <= k < |links| && links[k] == u && verdicts[k] == Ok(true)
    ensures r.Ok? ==> forall k :: 0 <= k < |links| && verdicts[k] == Ok(true) ==> links[k] in r.value
  {
    if links == [] then Ok([])
    else
      var tail := Sift(links[1..], verdicts[1..]);
      assert forall k :: 1 <= k < |links| ==> links[k] == links[1..][k - 1] && verdicts[k] == verdicts[1..][k - 1];
      if verdicts[0].Raised? then Raised
      else if tail.Raised? then Raised
      else
        var r := Ok((if verdicts[0].value then [links[0]] else []) + tail.value);
        assert forall u :: u in tail.value ==> exists k :: 1 <= k < |links| && links[k] == u && verdicts[k] == Ok(true);
        r
  }

  lemma SiftAt(links: seq<string>, verdicts: seq<Result<bool>>, i: nat, kept: seq<string>)
    requires |verdicts| == |links| && i < |links|
    ensures verdicts[i].Raised? ==> Sift(links[i..], verdicts[i..]).Raised?
    ensures verdicts[i] == Ok(true) ==>
      Prepend(kept, Sift(links[i..], verdicts[i..])) == Prepend(kept + [links[i]], Sift(links[i + 1..], verdicts[i + 1..]))
    ensures verdicts[i] == Ok(false) ==>
      Prepend(kept, Sift(links[i..], verdicts[i..])) == Prepend(kept, Sift(links[i + 1..], verdicts[i + 1..]))
  {
    assert links[i..][1..] == links[i + 1..];
    assert verdicts[i..][1..] == verdicts[i + 1..];
    var tail := Sift(links[i + 1..], verdicts[i + 1..]);
    if verdicts[i] == Ok(true) && tail.Ok? {
      assert kept + ([links[i]] + tail.value) == (kept + [links[i]]) + tail.value;
    } else if verdicts[i] == Ok(false) && tail.Ok? {
      assert [] + tail.value == tail.value;
    }
  }

  /** What the host test says of each link. */
  function Verdicts(links: seq<string>): (r: seq<Result<bool>>)
    ensures |r| == |links| && forall k :: 0 <= k < |links| ==> r[k] == OnSchoolHost(links[k])
  {
    seq(|links|, k requires 0 <= k < |links| => OnSchoolHost(links[k]))
  }

  /** The links `find_links` keeps, in page order: those whose `netloc` is the school's
      host. The splitter's `ValueError` is not caught, so one bad link fails the call. */
  function SchoolLinks(links: seq<string>): (r: Result<seq<string>>)
    ensures r.Raised? <==> exists k :: 0 <= k < |links| && OnSchoolHost(links[k]).Raised?
    ensures r.Ok? ==> forall u :: u in r.value <==> u in links && OnSchoolHost(u) == Ok(true)
  {
    var vs := Verdicts(links);
    var r := Sift(links, vs);
    assert r.Ok? ==> forall u :: u in links && OnSchoolHost(u) == Ok(true) ==> u in r.value by {
      if r.Ok? {
        forall u | u in links && OnSchoolHost(u) == Ok(true) ensures u in r.value {
          var k :| 0 <= k < |links| && links[k] == u;
          assert vs[k] == Ok(true);
        }
      }
    }
    r
  }

  /** A kept link is an absolute URL on the school's host. */
  lemma SchoolLinksOnHost(links: seq<string>, u: string)
    requires SchoolLinks(links).Ok? && u in SchoolLinks(links).value
    ensures UrlSplit(u).Ok? && UrlSplit(u).value.netloc == SCHOOL_HOST
  {
  }

  /** The queued URLs, without their levels. */
  function Urls(queue: seq<(string, int)>): (r: seq<string>)
    ensures |r| == |queue| && forall k :: 0 <= k < |queue| ==> r[k] == queue[k].0
  {
    seq(|queue|, k requires 0 <= k < |queue| => queue[k].0)
  }

  lemma UrlsAppend(queue: seq<(string, int)>, e: (string, int))
    ensures Urls(queue + [e]) == Urls(queue) + [e.0]
  {
  }

  /** The queue after the link loop: a link is appended at `level` when it is neither
      visited nor queued. */
  function EnqueueAt(queue: seq<(string, int)>, links: seq<string>, visited: set<string>, level: int): (r: seq<(string, int)>)
    ensures NoDup(Urls(queue)) ==> NoDup(Urls(r))
    ensures queue <= r
    ensures forall u :: u in Urls(r) <==> u in Urls(queue) || (u in links && u !in visited)
    ensures forall k :: |queue| <= k < |r| ==> r[k].1 == level && r[k].0 in links && r[k].0 !in visited
    decreases |links|
  {
    if links == [] then queue
    else
      var u := links[0];
      var q := if u !in visited && u !in Urls(queue) then queue + [(u, level)] else queue;
      UrlsAppend(queue, (u, level));
      assert NoDup(Urls(queue)) ==> NoDup(Urls(q));
      assert forall x :: x in links <==> x == u || x in links[1..];
      assert forall x :: x in Urls(queue) ==> x in Urls(q);
      EnqueueAt(q, links[1..], visited, level)
  }

  lemma EnqueueAtAt(queue: seq<(string, int)>, links: seq<string>, i: nat, visited: set<string>, level: int)
    requires i < |links|
    ensures var q := if links[i] !in visited && links[i] !in Urls(queue) then queue + [(links[i], level)] else queue;
            EnqueueAt(queue, links[i..], visited, level) == EnqueueAt(q, links[i + 1..], visited, level)
  {
    assert links[i..][1..] == links[i + 1..];
  }

  /** Levels run from 0 up to `max_level`, or stay at 0 when `max_level` is not positive. */
  function LevelCap(maxLevel: int): nat {
    if maxLevel > 0 then maxLevel else 0
  }

  /** The values of `page_levels` in the dictionary's insertion order. */
  function LevelsOf(order: seq<string>, levels: map<string, int>): (r: seq<int>)
    requires forall k :: 0 <= k < |order| ==> order[k] in levels
    ensures |r| == |order| && forall k :: 0 <= k < |order| ==> r[k] == levels[order[k]]
  {
    seq(|order|, k requires 0 <= k < |order| => levels[order[k]])
  }

  /** `level_stats`: for each level, the number of pages crawled at it. */
  function Census(ls: seq<int>): (m: map<int, nat>)
    ensures forall l :: l in m <==> l in ls
  {
    if ls == [] then map[]
    else
      var m := Census(ls[..|ls| - 1]);
      var l := ls[|ls| - 1];
      assert forall x :: x in ls <==> x in ls[..|ls| - 1] || x == l;
      m[l := if l in m then m[l] + 1 else 1]
  }

  /** `Census` of one more level. */
  lemma CensusAt(ls: seq<int>, i: nat)
    requires i < |ls|
    ensures var m := Census(ls[..i]); Census(ls[..i + 1]) == m[ls[i] := if ls[i] in m then m[ls[i]] + 1 else 1]
  {
    assert ls[..i + 1][..i] == ls[..i];
  }

  lemma CensusLast(ls: seq<int>)
    requires ls != []
    ensures var m := Census(ls[..|ls| - 1]); var l := ls[|ls| - 1];
            Census(ls) == m[l := if l in m then m[l] + 1 else 1]
  {
  }

  lemma LevelKeysLast(ls: seq<int>)
    requires ls != []
    ensures var ks := LevelKeys(ls[..|ls| - 1]); var l := ls[|ls| - 1];
            LevelKeys(ls) == if l in ks then ks else ks + [l]
  {
  }

  /** Each level's count is the number of its occurrences. */
  lemma {:induction false} CensusCounts(ls: seq<int>, l: int)
    requires l in ls
    ensures Census(ls)[l] == multiset(ls)[l]
  {
    var init := ls[..|ls| - 1];
    assert ls == init + [ls[|ls| - 1]];
    assert multiset(ls) == multiset(init) + multiset{ls[|ls| - 1]};
    if l in init {
      CensusCounts(init, l);
    } else {
      assert multiset(init)[l] == 0;
    }
  }

  /** The distinct levels in first-occurrence order: the keys of `level_stats`. */
  function LevelKeys(ls: seq<int>): (r: seq<int>)
    ensures forall i, j :: 0 <= i < j < |r| ==> r[i] != r[j]
    ensures forall l :: l in r <==> l in ls
  {
    if ls == [] then []
    else
      var r := LevelKeys(ls[..|ls| - 1]);
      var l := ls[|ls| - 1];
      assert forall x :: x in ls <==> x in ls[..|ls| - 1] || x == l;
      if l in r then r else r + [l]
  }

  function SumCounts(m: map<int, nat>, keys: seq<int>): nat
    requires forall k :: 0 <= k < |keys| ==> keys[k] in m
  {
    if keys == [] then 0
    else
      SumCounts(m, keys[..|keys| - 1]) + m[keys[|keys| - 1]]
  }

  /** Raising one count by one raises the sum by one when that level is listed once. */
  lemma {:induction false} SumCountsBump(m: map<int, nat>, keys: seq<int>, l: int)
    requires forall k :: 0 <= k < |keys| ==> keys[k] in m
    requires l in m
    requires forall i, j :: 0 <= i < j < |keys| ==> keys[i] != keys[j]
    ensures SumCounts(m[l := m[l] + 1], keys) == SumCounts(m, keys) + (if l in keys then 1 else 0)
  {
    if keys != [] {
      var init := keys[..|keys| - 1];
      assert forall x :: x in init ==> x in keys;
      SumCountsBump(m, init, l);
      assert l in keys <==> l in init || l == keys[|keys| - 1];
      assert keys[|keys| - 1] !in init;
    }
  }

  /** A new level with count one leaves the sum over the old keys alone. */
  lemma {:induction false} SumCountsFresh(m: map<int, nat>, keys: seq<int>, l: int)
    requires forall k :: 0 <= k < |keys| ==> keys[k] in m
    requires l !in keys
    ensures SumCounts(m[l := 1], keys) == SumCounts(m, keys)
  {
    if keys != [] {
      SumCountsFresh(m, keys[..|keys| - 1], l);
    }
  }

  lemma SumCountsSnoc(m: map<int, nat>, keys: seq<int>, l: int)
    requires forall k :: 0 <= k < |keys| ==> keys[k] in m
    requires l in m
    ensures SumCounts(m, keys + [l]) == SumCounts(m, keys) + m[l]
  {
    assert (keys + [l])[..|keys|] == keys;
  }

  /** Counting one more occurrence of `l` adds one to the sum over the keys. */
  lemma TotalBump(m: map<int, nat>, ks: seq<int>, l: int, m': map<int, nat>, ks': seq<int>)
    requires forall k :: 0 <= k < |ks| ==> ks[k] in m
    requires forall i, j :: 0 <= i < j < |ks| ==> ks[i] != ks[j]
    requires l in m <==> l in ks
    requires m' == m[l := if l in m then m[l] + 1 else 1]
    requires ks' == if l in ks then ks else ks + [l]
    ensures forall k :: 0 <= k < |ks'| ==> ks'[k] in m'
    ensures SumCounts(m', ks') == SumCounts(m, ks) + 1
  {
    if l in m {
      SumCountsBump(m, ks, l);
    } else {
      SumCountsFresh(m, ks, l);
      SumCountsSnoc(m[l := 1], ks, l);
    }
  }

  /** One more page adds one to the sum of the counts. */
  lemma CensusTotalStep(ls: seq<int>)
    requires ls != []
    ensures SumCounts(Census(ls), LevelKeys(ls)) == SumCounts(Census(ls[..|ls| - 1]), LevelKeys(ls[..|ls| - 1])) + 1
  {
    var init := ls[..|ls| - 1];
    var m := Census(init);
    var l := ls[|ls| - 1];
    CensusLast(ls);
    assert Census(ls) == m[l := if l in m then m[l] + 1 else 1];
    var ks := LevelKeys(init);
    LevelKeysLast(ls);
    assert LevelKeys(ls) == if l in ks then ks else ks + [l];
    KeysCounted(init);
    TotalBump(m, ks, l, Census(ls), LevelKeys(ls));
  }

  lemma KeysCounted(ls: seq<int>)
    ensures forall k :: 0 <= k < |LevelKeys(ls)| ==> LevelKeys(ls)[k] in Census(ls)
  {
    var ks := LevelKeys(ls);
    forall k | 0 <= k < |ks| ensures ks[k] in Census(ls) {
      assert ks[k] in ks;
    }
  }

  /** The counts of `level_stats` add up to the number of pages. */
  lemma {:induction false} CensusTotal(ls: seq<int>)
    ensures SumCounts(Census(ls), LevelKeys(ls)) == |ls|
  {
    if ls != [] {
      var init := ls[..|ls| - 1];
      CensusTotal(init);
      CensusTotalStep(ls);
    }
  }

  /** The `level_stats` loop: one more for the level of each page. */
  method CountLevels(ls: seq<int>) returns (stats: map<int, nat>)
    ensures stats == Census(ls)
  {
    stats := map[];
    for i := 0 to |ls|
      invariant stats == Census(ls[..i])
    {
      CensusAt(ls, i);
      var l := ls[i];
      var stats' := stats[l := if l in stats then stats[l] + 1 else 1];
      assert Census(ls[..i + 1]) == stats';
      stats := stats';
    }
    assert ls[..|ls|] == ls;
  }

  // The loop of `crawl` as a function of its state

  /** The part of the scraper a crawl turn reads and writes, with the loop's queue of
      `(url, level)` pairs and page count; `aborted` records that `find_links` raised. */
  datatype CrawlState = CrawlState(
    queue: seq<(string, int)>, pageCount: nat, visited: set<string>, levels: map<string, int>,
    order: seq<string>, seenPhones: set<string>, results: seq<SiteResult>, aborted: bool)

  /** What the crawl makes of one page: its title, the numbers `extract_phones` finds in
      its HTML, and what `find_links` returns or that it raised. */
  datatype Yield = Yield(title: string, phones: seq<string>, links: Result<seq<string>>)

  /** `find_links(html, current_url)`: nothing for an empty document, otherwise the links
      on the school's host, or the `ValueError` of one that the splitter refuses. */
  function PageLinks(page: Page): Result<seq<string>> {
    if page.html == "" then Ok([]) else SchoolLinks(page.links)
  }

  /** The yield of a fetched page. */
  function YieldOf(page: Page): Yield {
    Yield(PhoneScraper.PageTitle(page.title), PhoneNumbers(PHONE_PATTERNS, page.html), PageLinks(page))
  }

  /** `get_page` followed by extraction: what each URL yields, or None when the fetch
      fails or returns an empty document, which the loop skips. */
  function SiteYields(fetch: string -> Option<Page>): string -> Option<Yield> {
    u => if fetch(u).Some? && fetch(u).value.html != "" then Some(YieldOf(fetch(u).value)) else None
  }

  /** `site` gives what the crawl makes of each URL: nothing when `get_page` fails or
      returns an empty document, and otherwise the yield of the page fetched. */
  ghost predicate Serves(fetch: string -> Option<Page>, site: string -> Option<Yield>) {
    && (forall u :: site(u).Some? <==> fetch(u).Some? && fetch(u).value.html != "")
    && (forall u {:trigger YieldOf(fetch(u).value)} ::
          fetch(u).Some? && fetch(u).value.html != "" ==> site(u) == Some(YieldOf(fetch(u).value)))
  }

  /** Extraction applied to what `fetch` serves is such a view of the site. */
  lemma SiteYieldsServe(fetch: string -> Option<Page>)
    ensures Serves(fetch, SiteYields(fetch))
  {
  }

  /** Every link a yield would queue is on the school's host. */
  ghost predicate KeepsSchool(site: string -> Option<Yield>) {
    forall u, l :: site(u).Some? && site(u).value.links.Ok? && l in site(u).value.links.value ==>
      OnSchoolHost(l) == Ok(true)
  }

  /** `find_links` keeps only links on the school's host, whatever the site serves. */
  lemma ServesSchool(fetch: string -> Option<Page>, site: string -> Option<Yield>)
    requires Serves(fetch, site)
    ensures KeepsSchool(site)
  {
    forall u, l | site(u).Some? && site(u).value.links.Ok? && l in site(u).value.links.value
      ensures OnSchoolHost(l) == Ok(true)
    {
      assert site(u) == Some(YieldOf(fetch(u).value));
    }
  }

  /** The URLs a crawl may visit: the start URL and the links `find_links` keeps. */
  predicate InScope(startUrl: string, u: string) {
    u == startUrl || OnSchoolHost(u) == Ok(true)
  }

  /** `page_levels` has a key for each visited page, and `order`, its key order, lists
      each once. */
  predicate Levelled(levels: map<string, int>, order: seq<string>, visited: set<string>) {
    levels.Keys == visited && NoDup(order) && Elems(order) == visited
  }

  /** The state the loop keeps: the ledger is exact and the levels cover the visited
      pages. */
  predicate Sound(c: CrawlState) {
    Tally(c.results, c.seenPhones) && Levelled(c.levels, c.order, c.visited)
  }

  /** Every queued pair is in scope at a level from 0 to the cap. */
  predicate QueueFits(startUrl: string, maxLevel: int, queue: seq<(string, int)>) {
    forall k :: 0 <= k < |queue| ==> 0 <= queue[k].1 <= LevelCap(maxLevel) && InScope(startUrl, queue[k].0)
  }

  /** The phone block of a counted page: the first-occurrence ledger, and a result iff a
      number was new. */
  function Recorded(url: string, level: int, title: string, phones: seq<string>, c: CrawlState): CrawlState {
    c.(seenPhones := c.seenPhones + Elems(phones),
       results := c.results + ResultFor(url, title, level, phones, c.seenPhones))
  }

  /** The `current_level < max_level` branch: the links queued one level deeper, or the
      crawl aborted when `find_links` raised. */
  function Expanded(links: Result<seq<string>>, level: int, c: CrawlState): CrawlState {
    match links
    case Raised => c.(aborted := true)
    case Ok(kept) => c.(queue := EnqueueAt(c.queue, kept, c.visited, level + 1))
  }

  /** A counted page: visited, given its level, counted, recorded, and below `max_level`
      its links queued. */
  function Visit(maxLevel: int, url: string, level: int, y: Yield, c: CrawlState): CrawlState {
    var c1 := c.(visited := c.visited + {url}, levels := c.levels[url := level], order := c.order + [url],
                 pageCount := c.pageCount + 1);
    var c2 := Recorded(url, level, y.title, y.phones, c1);
    if level < maxLevel then Expanded(y.links, level, c2) else c2
  }

  /** A visit marks the page, counts it and adds its numbers to the ledger set. */
  lemma VisitCounts(maxLevel: int, url: string, level: int, y: Yield, c: CrawlState)
    ensures var r := Visit(maxLevel, url, level, y, c);
      && r.visited == c.visited + {url} && r.pageCount == c.pageCount + 1
      && r.levels == c.levels[url := level] && r.order == c.order + [url]
      && r.seenPhones == c.seenPhones + Elems(y.phones)
      && r.results == c.results + ResultFor(url, y.title, level, y.phones, c.seenPhones)
  {
  }

  /** A visit below `max_level` queues the kept links one level deeper, or aborts when
      `find_links` raised; at `max_level` it leaves the queue alone. */
  lemma VisitQueue(maxLevel: int, url: string, level: int, y: Yield, c: CrawlState)
    ensures var r := Visit(maxLevel, url, level, y, c);
      && r.aborted == (c.aborted || (level < maxLevel && y.links.Raised?))
      && (level >= maxLevel || y.links.Raised? ==> r.queue == c.queue)
      && (level < maxLevel && y.links.Ok? ==> r.queue == EnqueueAt(c.queue, y.links.value, c.visited + {url}, level + 1))
  {
  }

  /** One turn of the loop of `crawl`: pop the head pair; skip it when its URL is
      visited, its level is over `max_level`, or the fetch gives nothing; otherwise visit
      it. */
  function Next(maxLevel: int, site: string -> Option<Yield>, c: CrawlState): CrawlState
    requires c.queue != []
  {
    var url := c.queue[0].0;
    var level := c.queue[0].1;
    var rest := c.(queue := c.queue[1..]);
    if url in c.visited || level > maxLevel || site(url).None? then rest
    else Visit(maxLevel, url, level, site(url).value, rest)
  }

  /** A turn either skips the head, which only leaves the queue, or visits it: an
      unvisited URL at a level up to `max_level` that yields a page is marked at its
      level, counted, and its numbers added to the ledger set. */
  lemma NextShape(maxLevel: int, site: string -> Option<Yield>, c: CrawlState)
    requires c.queue != []
    ensures var r := Next(maxLevel, site, c);
      var url := c.queue[0].0;
      var level := c.queue[0].1;
      || r == c.(queue := c.queue[1..])
      || (&& url !in c.visited && level <= maxLevel && site(url).Some?
          && r.visited == c.visited + {url} && r.pageCount == c.pageCount + 1
          && r.levels == c.levels[url := level] && r.order == c.order + [url]
          && r.seenPhones == c.seenPhones + Elems(site(url).value.phones)
          && r.results == c.results + ResultFor(url, site(url).value.title, level, site(url).value.phones, c.seenPhones))
  {
    var url := c.queue[0].0;
    if url !in c.visited && c.queue[0].1 <= maxLevel && site(url).Some? {
      VisitCounts(maxLevel, url, c.queue[0].1, site(url).value, c.(queue := c.queue[1..]));
    }
  }

  /** A visiting turn queues, after the rest of the queue, the kept links one level
      deeper below `max_level`; it aborts exactly when those links raised. */
  lemma NextQueueShape(maxLevel: int, site: string -> Option<Yield>, c: CrawlState)
    requires c.queue != []
    ensures var r := Next(maxLevel, site, c);
      var url := c.queue[0].0;
      var level := c.queue[0].1;
      var visits := url !in c.visited && level <= maxLevel && site(url).Some?;
      && (!visits ==> r.queue == c.queue[1..] && r.aborted == c.aborted)
      && (visits ==> r.aborted == (c.aborted || (level < maxLevel && site(url).value.links.Raised?)))
      && (visits && (level == maxLevel || site(url).value.links.Raised?) ==> r.queue == c.queue[1..])
      && (visits && level < maxLevel && site(url).value.links.Ok? ==>
            r.queue == EnqueueAt(c.queue[1..], site(url).value.links.value, c.visited + {url}, level + 1))
  {
    var url := c.queue[0].0;
    if url !in c.visited && c.queue[0].1 <= maxLevel && site(url).Some? {
      VisitQueue(maxLevel, url, c.queue[0].1, site(url).value, c.(queue := c.queue[1..]));
    }
  }

  /** A turn keeps the ledger exact: every number of the ledger set listed by exactly one
      result, once. */
  lemma NextTally(maxLevel: int, site: string -> Option<Yield>, c: CrawlState)
    requires c.queue != [] && Tally(c.results, c.seenPhones)
    ensures var r := Next(maxLevel, site, c); Tally(r.results, r.seenPhones)
  {
    var url := c.queue[0].0;
    var level := c.queue[0].1;
    var rest := c.(queue := c.queue[1..]);
    if url !in c.visited && level <= maxLevel && site(url).Some? {
      var y := site(url).value;
      assert Next(maxLevel, site, c) == Visit(maxLevel, url, level, y, rest);
      VisitCounts(maxLevel, url, level, y, rest);
      var newPhones := Admit(y.phones, c.seenPhones);
      ResultKept(c.results, c.seenPhones, url, y.title, level, y.phones, newPhones,
        if newPhones != [] then c.results + [SiteResult(url, y.title, newPhones, |newPhones|, level, y.phones)]
        else c.results);
    }
  }

  /** A turn keeps the levels covering the visited pages, each once in key order. */
  lemma NextLevelled(maxLevel: int, site: string -> Option<Yield>, c: CrawlState)
    requires c.queue != [] && Levelled(c.levels, c.order, c.visited)
    ensures var r := Next(maxLevel, site, c); Levelled(r.levels, r.order, r.visited)
  {
    var url := c.queue[0].0;
    var level := c.queue[0].1;
    var rest := c.(queue := c.queue[1..]);
    if url !in c.visited && level <= maxLevel && site(url).Some? {
      var y := site(url).value;
      assert Next(maxLevel, site, c) == Visit(maxLevel, url, level, y, rest);
      VisitCounts(maxLevel, url, level, y, rest);
      assert url !in Elems(c.order);
      NoDupAppend(c.order, [url]);
      ElemsAppend(c.order, [url]);
    }
  }

  /** A turn keeps the ledger exact and the levels covering the visited pages. */
  lemma NextSound(maxLevel: int, site: string -> Option<Yield>, c: CrawlState)
    requires c.queue != [] && Sound(c)
    ensures Sound(Next(maxLevel, site, c))
  {
    NextTally(maxLevel, site, c);
    NextLevelled(maxLevel, site, c);
  }

  /** A turn keeps the queue duplicate-free, and, when every yield keeps only links on the
      school's host, in scope at levels from 0 to the cap. */
  lemma NextQueue(startUrl: string, maxLevel: int, site: string -> Option<Yield>, c: CrawlState)
    requires c.queue != [] && KeepsSchool(site)
    ensures var r := Next(maxLevel, site, c);
      && (NoDup(Urls(c.queue)) ==> NoDup(Urls(r.queue)))
      && (QueueFits(startUrl, maxLevel, c.queue) ==> QueueFits(startUrl, maxLevel, r.queue))
  {
    var rest := c.queue[1..];
    assert forall k :: 0 <= k < |rest| ==> rest[k] == c.queue[k + 1];
    assert Urls(rest) == Urls(c.queue)[1..];
    NextQueueShape(maxLevel, site, c);
    var r := Next(maxLevel, site, c);
    if QueueFits(startUrl, maxLevel, c.queue) && r.queue != rest {
      var url := c.queue[0].0;
      var level := c.queue[0].1;
      var links := site(url).value.links.value;
      forall k | 0 <= k < |r.queue| ensures 0 <= r.queue[k].1 <= LevelCap(maxLevel) && InScope(startUrl, r.queue[k].0) {
        if k >= |rest| {
          assert r.queue[k].0 in links;
        } else {
          assert r.queue[k] == rest[k];
        }
      }
    }
  }

  /** A turn either leaves the visited set and the count alone or adds the head URL,
      unvisited, fetched and at a level up to `max_level`, to the one, counts it in the
      other and gives it its level; the levels already given stay. */
  lemma NextVisits(maxLevel: int, site: string -> Option<Yield>, c: CrawlState)
    requires c.queue != []
    ensures var r := Next(maxLevel, site, c);
      && (forall u :: u in c.levels ==> u in r.levels && (u in c.visited ==> r.levels[u] == c.levels[u]))
      && (|| (r.visited == c.visited && r.pageCount == c.pageCount && r.levels == c.levels)
          || (&& r.visited == c.visited + {c.queue[0].0} && c.queue[0].0 !in c.visited
              && r.pageCount == c.pageCount + 1 && site(c.queue[0].0).Some?
              && c.queue[0].1 <= maxLevel && r.levels == c.levels[c.queue[0].0 := c.queue[0].1]))
  {
    NextShape(maxLevel, site, c);
  }

  /** What remains below `max_pages`; a turn either lowers it or shortens the queue. */
  function Headroom(maxPages: int, pageCount: nat): nat {
    if pageCount < maxPages then maxPages - pageCount else 0
  }

  /** Below `max_pages`, a turn lowers the headroom or shortens the queue. */
  lemma NextDecreases(maxPages: int, maxLevel: int, site: string -> Option<Yield>, c: CrawlState)
    requires c.queue != [] && c.pageCount < maxPages
    ensures var r := Next(maxLevel, site, c);
      Headroom(maxPages, r.pageCount) < Headroom(maxPages, c.pageCount)
      || (Headroom(maxPages, r.pageCount) == Headroom(maxPages, c.pageCount) && |r.queue| < |c.queue|)
  {
    NextVisits(maxLevel, site, c);
    NextQueueShape(maxLevel, site, c);
  }

  /** `while urls_to_visit and page_count < max_pages`: turns until the queue is empty,
      `max_pages` pages are counted, or `find_links` raises. */
  function Run(maxPages: int, maxLevel: int, site: string -> Option<Yield>, c: CrawlState): CrawlState
    decreases Headroom(maxPages, c.pageCount), |c.queue|
  {
    if c.queue == [] || c.pageCount >= maxPages || c.aborted then c
    else
      NextDecreases(maxPages, maxLevel, site, c);
      Run(maxPages, maxLevel, site, Next(maxLevel, site, c))
  }

  /** The numbers the given pages yield. */
  function PhonesFrom(site: string -> Option<Yield>, pages: set<string>): set<string> {
    set u, p | u in pages && site(u).Some? && p in site(u).value.phones :: p
  }

  /** The loop ends on an empty queue, at `max_pages`, or on a raise, and counts no page
      past `max_pages`. */
  lemma {:induction false} RunHalts(maxPages: int, maxLevel: int, site: string -> Option<Yield>, c: CrawlState)
    ensures var r := Run(maxPages, maxLevel, site, c);
      && (r.queue == [] || r.pageCount >= maxPages || r.aborted)
      && c.pageCount <= r.pageCount
      && (c.pageCount <= maxPages ==> r.pageCount <= maxPages)
    decreases Headroom(maxPages, c.pageCount), |c.queue|
  {
    if !(c.queue == [] || c.pageCount >= maxPages || c.aborted) {
      NextVisits(maxLevel, site, c);
      NextDecreases(maxPages, maxLevel, site, c);
      RunHalts(maxPages, maxLevel, site, Next(maxLevel, site, c));
    }
  }

  /** Each counted page is a newly visited URL that yielded a page, at a level up to
      `max_level`; no URL is counted twice, and the levels given before stay. */
  lemma {:induction false} RunVisits(maxPages: int, maxLevel: int, site: string -> Option<Yield>, c: CrawlState)
    requires c.levels.Keys == c.visited
    ensures var r := Run(maxPages, maxLevel, site, c);
      && c.visited <= r.visited && c.pageCount <= r.pageCount
      && |r.visited| == |c.visited| + (r.pageCount - c.pageCount)
      && r.levels.Keys == r.visited
      && (forall u :: u in c.levels ==> r.levels[u] == c.levels[u])
      && forall u :: u in r.visited - c.visited ==> site(u).Some? && r.levels[u] <= maxLevel
    decreases Headroom(maxPages, c.pageCount), |c.queue|
  {
    if !(c.queue == [] || c.pageCount >= maxPages || c.aborted) {
      var n := Next(maxLevel, site, c);
      NextVisits(maxLevel, site, c);
      NextDecreases(maxPages, maxLevel, site, c);
      RunVisits(maxPages, maxLevel, site, n);
      var r := Run(maxPages, maxLevel, site, n);
      forall u | u in r.visited - c.visited ensures site(u).Some? && r.levels[u] <= maxLevel {
        if u in n.visited {
          assert u == c.queue[0].0;
        }
      }
    }
  }

  /** The levels of the newly visited pages are never negative when no queued level is. */
  lemma {:induction false} RunLevels(startUrl: string, maxPages: int, maxLevel: int, site: string -> Option<Yield>,
                                     c: CrawlState)
    requires KeepsSchool(site) && QueueFits(startUrl, maxLevel, c.queue) && NoDup(Urls(c.queue))
    requires c.levels.Keys == c.visited
    ensures var r := Run(maxPages, maxLevel, site, c);
      forall u :: u in r.visited - c.visited ==> u in r.levels && 0 <= r.levels[u] && InScope(startUrl, u)
    decreases Headroom(maxPages, c.pageCount), |c.queue|
  {
    if !(c.queue == [] || c.pageCount >= maxPages || c.aborted) {
      var n := Next(maxLevel, site, c);
      NextVisits(maxLevel, site, c);
      NextQueue(startUrl, maxLevel, site, c);
      NextDecreases(maxPages, maxLevel, site, c);
      RunLevels(startUrl, maxPages, maxLevel, site, n);
      RunVisits(maxPages, maxLevel, site, n);
    }
  }

  /** The ledger stays exact and the levels cover the visited pages over a whole crawl. */
  lemma {:induction false} RunSound(maxPages: int, maxLevel: int, site: string -> Option<Yield>, c: CrawlState)
    requires Sound(c)
    ensures Sound(Run(maxPages, maxLevel, site, c))
    decreases Headroom(maxPages, c.pageCount), |c.queue|
  {
    if !(c.queue == [] || c.pageCount >= maxPages || c.aborted) {
      NextSound(maxLevel, site, c);
      NextDecreases(maxPages, maxLevel, site, c);
      RunSound(maxPages, maxLevel, site, Next(maxLevel, site, c));
    }
  }

  /** One turn adds to the ledger set exactly what the newly visited page yields. */
  lemma NextCollects(maxLevel: int, site: string -> Option<Yield>, c: CrawlState)
    requires c.queue != []
    ensures var n := Next(maxLevel, site, c);
      c.visited <= n.visited && n.seenPhones == c.seenPhones + PhonesFrom(site, n.visited - c.visited)
  {
    var n := Next(maxLevel, site, c);
    NextShape(maxLevel, site, c);
    if n.visited != c.visited {
      var url := c.queue[0].0;
      assert n.visited - c.visited == {url};
      assert PhonesFrom(site, {url}) == Elems(site(url).value.phones);
    } else {
      assert PhonesFrom(site, {}) == {};
    }
  }

  /** The ledger set ends as the union of what the newly visited pages yield. */
  lemma {:induction false} RunCollects(maxPages: int, maxLevel: int, site: string -> Option<Yield>, c: CrawlState)
    ensures var r := Run(maxPages, maxLevel, site, c);
      r.seenPhones == c.seenPhones + PhonesFrom(site, r.visited - c.visited)
    decreases Headroom(maxPages, c.pageCount), |c.queue|
  {
    if c.queue == [] || c.pageCount >= maxPages || c.aborted {
      assert PhonesFrom(site, c.visited - c.visited) == {};
    } else {
      var n := Next(maxLevel, site, c);
      NextCollects(maxLevel, site, c);
      NextDecreases(maxPages, maxLevel, site, c);
      RunCollects(maxPages, maxLevel, site, n);
      var r := Run(maxPages, maxLevel, site, n);
      RunVisitedGrows(maxPages, maxLevel, site, n);
      assert r.visited - c.visited == (r.visited - n.visited) + (n.visited - c.visited);
      PhonesFromUnion(site, r.visited - n.visited, n.visited - c.visited);
    }
  }

  lemma PhonesFromUnion(site: string -> Option<Yield>, a: set<string>, b: set<string>)
    ensures PhonesFrom(site, a + b) == PhonesFrom(site, a) + PhonesFrom(site, b)
  {
  }

  /** The visited set only grows. */
  lemma {:induction false} RunVisitedGrows(maxPages: int, maxLevel: int, site: string -> Option<Yield>, c: CrawlState)
    ensures c.visited <= Run(maxPages, maxLevel, site, c).visited
    decreases Headroom(maxPages, c.pageCount), |c.queue|
  {
    if !(c.queue == [] || c.pageCount >= maxPages || c.aborted) {
      NextVisits(maxLevel, site, c);
      NextDecreases(maxPages, maxLevel, site, c);
      RunVisitedGrows(maxPages, maxLevel, site, Next(maxLevel, site, c));
    }
  }

  /** A crawl from the start URL alone at level 0, run to the end: it halts at an empty
      queue, at `max_pages` or on a raise; it counts at most `max_pages` pages, each a
      newly visited URL in scope that yielded a page, at a level from 0 to `max_level`;
      the ledger set gains exactly what those pages yield; the ledger stays exact. */
  lemma RunFromStart(startUrl: string, maxPages: int, maxLevel: int, site: string -> Option<Yield>, c: CrawlState)
    requires KeepsSchool(site) && Sound(c)
    requires c.queue == [(startUrl, 0)] && c.pageCount == 0 && !c.aborted
    ensures var r := Run(maxPages, maxLevel, site, c);
      && Sound(r)
      && (r.queue == [] || r.pageCount >= maxPages || r.aborted)
      && r.pageCount <= LevelCap(maxPages)
      && c.visited <= r.visited && |r.visited| == |c.visited| + r.pageCount
      && (forall u :: u in c.levels ==> r.levels[u] == c.levels[u])
      && (forall u :: u in r.visited - c.visited ==>
            site(u).Some? && InScope(startUrl, u) && 0 <= r.levels[u] <= maxLevel)
      && r.seenPhones == c.seenPhones + PhonesFrom(site, r.visited - c.visited)
  {
    assert Urls(c.queue) == [startUrl];
    RunHalts(maxPages, maxLevel, site, c);
    RunVisits(maxPages, maxLevel, site, c);
    RunLevels(startUrl, maxPages, maxLevel, site, c);
    RunCollects(maxPages, maxLevel, site, c);
    RunSound(maxPages, maxLevel, site, c);
  }

  class Scraper {
    const startUrl: string
    var visited: set<string>
    var results: seq<SiteResult>
    var seenPhones: set<string>
    /** `page_levels`; `pageOrder` is its key order, which `values()` follows. */
    var pageLevels: map<string, int>
    var pageOrder: seq<string>
    var siteTitle: string

    predicate Valid()
      reads this`visited, this`results, this`seenPhones, this`pageLevels, this`pageOrder
    {
      Tally(results, seenPhones) && Levelled(pageLevels, pageOrder, visited)
    }

    constructor()
      ensures startUrl == START_URL
      ensures visited == {} && results == [] && seenPhones == {} && pageLevels == map[] && pageOrder == []
      ensures Valid()
    {
      startUrl := START_URL;
      visited := {};
      results := [];
      seenPhones := {};
      pageLevels := map[];
      pageOrder := [];
      siteTitle := PhoneScraper.UNKNOWN_SITE;
    }

    /** The fields a crawl turn reads and writes, with the loop's own queue and count. */
    function Snapshot(queue: seq<(string, int)>, pageCount: nat): CrawlState
      reads this`visited, this`results, this`seenPhones, this`pageLevels, this`pageOrder
    {
      CrawlState(queue, pageCount, visited, pageLevels, pageOrder, seenPhones, results, false)
    }

    /** `find_links`: the empty list for an empty document, otherwise the same-host links. */
    method FindLinks(page: Page) returns (r: Result<seq<string>>)
      ensures r == PageLinks(page)
    {
      if page.html == "" {
        return Ok([]);
      }
      ghost var verdicts := Verdicts(page.links);
      var kept := [];
      assert page.links[0..] == page.links && verdicts[0..] == verdicts;
      assert SchoolLinks(page.links).Ok? ==> [] + SchoolLinks(page.links).value == SchoolLinks(page.links).value;
      for i := 0 to |page.links|
        invariant SchoolLinks(page.links) == Prepend(kept, Sift(page.links[i..], verdicts[i..]))
      {
        SiftAt(page.links, verdicts, i, kept);
        var on := OnSchoolHost(page.links[i]);
        if on.Raised? {
          return Raised;
        }
        if on.value {
          kept := kept + [page.links[i]];
        }
      }
      assert page.links[|page.links|..] == [] && verdicts[|verdicts|..] == [];
      assert kept + [] == kept;
      r := Ok(kept);
    }

    /** `extract_phones(html)`: the phone extraction of the full scraper, with the same
        pattern list, run over the raw HTML. */
    static method ExtractPhones(html: string) returns (phones: seq<string>)
      ensures phones == PhoneNumbers(PHONE_PATTERNS, html)
    {
      phones := ExtractPhoneNumbers(PHONE_PATTERNS, html);
    }

    /** The link loop: each kept link goes to the back of the queue at `level` unless it
        is visited or already queued. */
    method EnqueueLinks(queue: seq<(string, int)>, links: seq<string>, level: int) returns (queue': seq<(string, int)>)
      ensures queue' == EnqueueAt(queue, links, visited, level)
    {
      queue' := queue;
      for i := 0 to |links|
        invariant EnqueueAt(queue', links[i..], visited, level) == EnqueueAt(queue, links, visited, level)
      {
        EnqueueAtAt(queue', links, i, visited, level);
        if links[i] !in visited && links[i] !in Urls(queue') {
          queue' := queue' + [(links[i], level)];
        }
      }
      assert links[|links|..] == [];
    }

    /** The phone block of the loop body: the first-occurrence ledger over the numbers
        extracted from a page, and a result iff a number was new. */
    method RecordResult(url: string, title: string, level: int, phones: seq<string>)
      requires Tally(results, seenPhones)
      modifies this`results, this`seenPhones
      ensures Tally(results, seenPhones)
      ensures seenPhones == old(seenPhones) + Elems(phones)
      ensures |seenPhones| == |old(seenPhones)| + |Admit(phones, old(seenPhones))|
      ensures results == old(results) + ResultFor(url, title, level, phones, old(seenPhones))
    {
      var newPhones, seenPhones' := AdmitNew(phones, seenPhones);
      var results' := results;
      if newPhones != [] {
        results' := results + [SiteResult(url, title, newPhones, |newPhones|, level, phones)];
      }
      ResultKept(results, seenPhones, url, title, level, phones, newPhones, results');
      results, seenPhones := results', seenPhones';
    }

    /** `visited.add`, `page_levels[current_url] = current_level`: a new key goes last
        in the dictionary's order. */
    method Mark(url: string, level: int)
      modifies this`visited, this`pageLevels, this`pageOrder
      ensures visited == old(visited) + {url} && pageLevels == old(pageLevels)[url := level]
      ensures pageOrder == old(pageOrder) + [url]
    {
      visited, pageLevels, pageOrder := visited + {url}, pageLevels[url := level], pageOrder + [url];
    }

    /** The `current_level < max_level` branch: the page's links queued one level
        deeper, or `aborted` when `find_links` raises. */
    method Expand(queue: seq<(string, int)>, pageCount: nat, page: Page, level: int)
      returns (queue': seq<(string, int)>, aborted: bool)
      ensures Snapshot(queue', pageCount).(aborted := aborted) == Expanded(PageLinks(page), level, Snapshot(queue, pageCount))
    {
      var links := FindLinks(page);
      if links.Raised? {
        return queue, true;
      }
      queue' := EnqueueLinks(queue, links.value, level + 1);
      aborted := false;
    }

    /** A fetched page that is counted: marked visited at its level, its numbers
        recorded, and below `max_level` its links queued one level deeper; `aborted` is a
        `ValueError` from `find_links`. */
    method Take(queue: seq<(string, int)>, pageCount: nat, url: string, page: Page, level: int, maxLevel: int)
      returns (queue': seq<(string, int)>, aborted: bool)
      requires Tally(results, seenPhones)
      modifies this`visited, this`pageLevels, this`pageOrder, this`results, this`seenPhones
      ensures Snapshot(queue', pageCount + 1).(aborted := aborted) ==
        Visit(maxLevel, url, level, YieldOf(page), old(Snapshot(queue, pageCount)))
    {
      ghost var c := Snapshot(queue, pageCount);
      Mark(url, level);
      ghost var c1 := Snapshot(queue, pageCount + 1);
      assert c1 == c.(visited := c.visited + {url}, levels := c.levels[url := level], order := c.order + [url],
                      pageCount := c.pageCount + 1);
      var phones := ExtractPhones(page.html);
      RecordResult(url, PhoneScraper.PageTitle(page.title), level, phones);
      ghost var c2 := Snapshot(queue, pageCount + 1);
      assert c2 == Recorded(url, level, PhoneScraper.PageTitle(page.title), phones, c1);
      queue', aborted := queue, false;
      if level < maxLevel {
        queue', aborted := Expand(queue, pageCount + 1, page, level);
      }
    }

    /** The head pair of the queue, unvisited and not too deep: fetched, and counted
        unless the fetch gives nothing or an empty document. */
    method Attempt(queue: seq<(string, int)>, pageCount: nat, maxLevel: int, fetch: string -> Option<Page>,
                   ghost site: string -> Option<Yield>)
      returns (queue': seq<(string, int)>, pageCount': nat, aborted: bool)
      requires Valid() && queue != [] && Serves(fetch, site)
      modifies this`visited, this`pageLevels, this`pageOrder, this`results, this`seenPhones
      ensures var c := old(Snapshot(queue, pageCount)).(queue := queue[1..]);
        Snapshot(queue', pageCount').(aborted := aborted) ==
          if site(queue[0].0).None? then c else Visit(maxLevel, queue[0].0, queue[0].1, site(queue[0].0).value, c)
    {
      var (current, level) := queue[0];
      queue', pageCount', aborted := queue[1..], pageCount, false;
      var page := fetch(current);
      if page.None? || page.value.html == "" {
        return;
      }
      assert site(current) == Some(YieldOf(page.value));
      queue', aborted := Take(queue[1..], pageCount, current, page.value, level, maxLevel);
      pageCount' := pageCount + 1;
    }

    /** One turn of the loop of `crawl`: pop a pair; skip it when visited, too deep, or
        not fetched; otherwise take the page. */
    method Step(queue: seq<(string, int)>, pageCount: nat, maxLevel: int, fetch: string -> Option<Page>,
                ghost site: string -> Option<Yield>)
      returns (queue': seq<(string, int)>, pageCount': nat, aborted: bool)
      requires Valid() && queue != [] && Serves(fetch, site)
      modifies this`visited, this`pageLevels, this`pageOrder, this`results, this`seenPhones
      ensures Snapshot(queue', pageCount').(aborted := aborted) == Next(maxLevel, site, old(Snapshot(queue, pageCount)))
    {
      if queue[0].0 in visited || queue[0].1 > maxLevel {
        return queue[1..], pageCount, false;
      }
      queue', pageCount', aborted := Attempt(queue, pageCount, maxLevel, fetch, site);
    }

    /** The loop of `crawl`, from the start URL at level 0, while the queue is not empty
        and fewer than `max_pages` pages are counted; a `ValueError` from `find_links`
        leaves it at once, which the guard's `!aborted` stands for. */
    method Drain(maxPages: int, maxLevel: int, fetch: string -> Option<Page>, ghost site: string -> Option<Yield>)
      returns (queue: seq<(string, int)>, pageCount: nat, aborted: bool)
      requires Valid() && Serves(fetch, site)
      modifies this`visited, this`pageLevels, this`pageOrder, this`results, this`seenPhones
      ensures Valid()
      ensures Snapshot(queue, pageCount).(aborted := aborted) ==
        Run(maxPages, maxLevel, site, old(Snapshot([(startUrl, 0)], 0)))
      ensures queue == [] || pageCount >= maxPages || aborted
      ensures pageCount <= LevelCap(maxPages)
      ensures old(visited) <= visited && |visited| == |old(visited)| + pageCount
      ensures forall u :: u in old(pageLevels) ==> pageLevels[u] == old(pageLevels)[u]
      ensures forall u :: u in visited - old(visited) ==>
        site(u).Some? && InScope(startUrl, u) && 0 <= pageLevels[u] <= maxLevel
      ensures seenPhones == old(seenPhones) + PhonesFrom(site, visited - old(visited))
    {
      queue, pageCount, aborted := [(startUrl, 0)], 0, false;
      ghost var c0 := Snapshot(queue, 0);
      while queue != [] && pageCount < maxPages && !aborted
        invariant Valid()
        invariant Run(maxPages, maxLevel, site, Snapshot(queue, pageCount).(aborted := aborted)) == Run(maxPages, maxLevel, site, c0)
        decreases Headroom(maxPages, pageCount), |queue|
      {
        ghost var before := Snapshot(queue, pageCount);
        assert before == before.(aborted := aborted);
        NextSound(maxLevel, site, before);
        NextDecreases(maxPages, maxLevel, site, before);
        queue, pageCount, aborted := Step(queue, pageCount, maxLevel, fetch, site);
      }
      ServesSchool(fetch, site);
      RunFromStart(startUrl, maxPages, maxLevel, site, c0);
    }

    /** The site title is taken from the start page when it is a non-empty document
        with a `<title>`. */
    method ReadSiteTitle(first: Option<Page>)
      modifies this`siteTitle
      ensures siteTitle == if first.Some? && first.value.html != "" && first.value.title.Some?
        then CleanText(Strip(first.value.title.value)) else PhoneScraper.UNKNOWN_SITE
    {
      siteTitle := PhoneScraper.UNKNOWN_SITE;
      if first.Some? && first.value.html != "" && first.value.title.Some? {
        siteTitle := CleanText(Strip(first.value.title.value));
      }
    }

    /** `level_stats` over `page_levels.values()`. */
    method LevelStats() returns (stats: map<int, nat>)
      requires Valid()
      ensures stats == Census(LevelsOf(pageOrder, pageLevels))
    {
      assert forall k :: 0 <= k < |pageOrder| ==> pageOrder[k] in Elems(pageOrder);
      stats := CountLevels(LevelsOf(pageOrder, pageLevels));
    }

    /** `crawl(max_pages, max_level)`: the site title, the loop, and, unless
        `find_links` raised and stopped the run, the level statistics. */
    method Crawl(maxPages: int, maxLevel: int, fetch: string -> Option<Page>, ghost site: string -> Option<Yield>)
      returns (pageCount: nat, aborted: bool, stats: map<int, nat>)
      requires Valid() && Serves(fetch, site)
      modifies this`visited, this`pageLevels, this`pageOrder, this`results, this`seenPhones, this`siteTitle
      ensures Valid()
      ensures siteTitle == if fetch(startUrl).Some? && fetch(startUrl).value.html != "" && fetch(startUrl).value.title.Some?
        then CleanText(Strip(fetch(startUrl).value.title.value)) else PhoneScraper.UNKNOWN_SITE
      ensures var r := Run(maxPages, maxLevel, site,
          CrawlState([(startUrl, 0)], 0, old(visited), old(pageLevels), old(pageOrder), old(seenPhones), old(results), false));
        && visited == r.visited && pageLevels == r.levels && pageOrder == r.order
        && seenPhones == r.seenPhones && results == r.results && pageCount == r.pageCount && aborted == r.aborted
      ensures pageCount <= LevelCap(maxPages)
      ensures old(visited) <= visited && |visited| == |old(visited)| + pageCount
      ensures forall u :: u in visited - old(visited) ==>
        site(u).Some? && InScope(startUrl, u) && 0 <= pageLevels[u] <= maxLevel
      ensures seenPhones == old(seenPhones) + PhonesFrom(site, visited - old(visited))
      ensures !aborted ==> stats == Census(LevelsOf(pageOrder, pageLevels))
    {
      ReadSiteTitle(fetch(startUrl));
      ghost var title := siteTitle;
      var queue;
      queue, pageCount, aborted := Drain(maxPages, maxLevel, fetch, site);
      assert siteTitle == title;
      stats := map[];
      if !aborted {
        stats := LevelStats();
      }
    }
  }

  /** After a crawl, the level statistics count every page once. */
  lemma StatsCountEveryPage(order: seq<string>, levels: map<string, int>)
    requires forall k :: 0 <= k < |order| ==> order[k] in levels
    ensures SumCounts(Census(LevelsOf(order, levels)), LevelKeys(LevelsOf(order, levels))) == |order|
  {
    CensusTotal(LevelsOf(order, levels));
  }
}
