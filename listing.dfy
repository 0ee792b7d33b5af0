/**
  `SalesforceScraper.run`: the paging loop over the Salesforce door list,
  the progress events it sends to the interface, and the JSON and CSV
  exports of the main path and of the `finally` block.

  The browser is a parameter: each visited page is a `Page` telling what
  its range label, its door links and its "next" arrow turned out to be.
  The interface's stop flag is `stopAfter`: the flag is seen set once that
  many door scrapes have been started.
*/
module Listing {
  import opened Wrappers
  import opened Text
  import opened Retry
  import opened Doors
  import opened Csv
  import opened Slug

  /** A client value `_scrape_door` lets through: a string without "fizz" in any letter case. */
  predicate FizzFree(d: DoorRecord) {
    ClientValue(d).Some? && !Contains(Lower(ClientValue(d).value), Fizz)
  }

  /** What `_scrape_door` returns for a link when the stop flag is not set: `ScrapeDoor(false, table)` for the link's detail table. */
  type DoorReply = r: Option<DoorRecord> | r.None? || FizzFree(r.value) witness None

  /** Every detail page's scrape is a `DoorReply`. */
  lemma ScrapeDoorIsReply(table: Outcome<seq<string>>)
    ensures var r := ScrapeDoor(false, table); r.None? || FizzFree(r.value)
  {
  }

  /** One door link of the list: the scrape of its detail page, and whether the list table became visible again once the tab was closed. */
  datatype Link = Link(reply: DoorReply, listBack: bool)

  /** The attempt to advance: the arrow is disabled, the click went through, the old table reference went stale, or another exception. */
  datatype Advance = NextDisabled | NextClicked | NextStale | NextFailed

  /** A visited list page: the `.itemsRange` text (`None` when the wait timed out), its door links, its advance. */
  datatype Page = Page(range: Option<string>, links: seq<Link>, advance: Advance)

  /** A message on the interface queue; `pct` is the fraction `page / total` as a pair. */
  datatype Event =
    | Progress(page: nat, range: string, count: nat, pct: Option<(nat, nat)>)
    | Finished(count: nat)
    | Failed

  /** What one door link adds to the run: a record, nothing, or an exception that leaves the loop. */
  datatype DoorStep = Kept(rec: DoorRecord) | Skipped | Crash

  function RangeText(range: Option<string>): string {
    range.GetOr("(?)")
  }

  /** The page `n` (counted from 1) as the browser shows it; past the last page there are no links. */
  function PageAt(pages: seq<Page>, n: nat): Page {
    if 1 <= n <= |pages| then pages[n - 1] else Page(None, [], NextFailed)
  }

  predicate Stopped(stopAfter: Option<nat>, calls: nat) {
    stopAfter.Some? && stopAfter.value <= calls
  }

  /** The door scrapes started before the stop flag was seen. */
  function Live(stopAfter: Option<nat>, calls: nat): nat {
    match stopAfter
    case None => calls
    case Some(n) => if calls < n then calls else n
  }

  /** A record the loop keeps: non-empty, with a client value that is a string without "fizz", and a `Compte client` that is not `None`. */
  predicate Exportable(d: DoorRecord) {
    d != map[] && FizzFree(d) && !(AccountKey in d && d[AccountKey].None?)
  }

  /** A link whose visit raises: the list table does not come back, or the record's `Compte client` is `None`. */
  predicate Breaks(link: Link) {
    !link.listBack || (link.reply.Some? && AccountKey in link.reply.value && link.reply.value[AccountKey].None?)
  }

  /** No link of `links` raises when visited. */
  predicate Clean(links: seq<Link>) {
    forall i :: 0 <= i < |links| ==> !Breaks(links[i])
  }

  /** The records kept from `links` when none raises: every reply that is neither `None` nor empty, in link order. */
  function KeptReplies(links: seq<Link>): seq<DoorRecord> {
    if links == [] then [] else KeptOne(links[0]) + KeptReplies(links[1..])
  }

  /** The record kept from one link: its reply unless it is `None` or empty. */
  function KeptOne(link: Link): seq<DoorRecord> {
    if link.reply.Some? && link.reply.value != map[] then [link.reply.value] else []
  }

  /**
    One pass of `for href in links`: `_scrape_door(href)`, whose clean-up
    wait raises when the list does not come back; `if not rec: continue`;
    then `re.sub(r"\D", "", rec.get("Compte client", ""))`, which raises
    on a `None` account cell, before `self.doors.append(rec)`.
  */
  function VisitDoor(stopped: bool, link: Link): (r: DoorStep)
    ensures stopped ==> r.Skipped?
    ensures r.Kept? ==> Exportable(r.rec) && link.reply == Some(r.rec)
    ensures !stopped && !link.listBack ==> r.Crash?
    ensures !stopped ==> (r.Crash? <==> Breaks(link))
    ensures !stopped && !Breaks(link) && link.reply.Some? && link.reply.value != map[] ==> r == Kept(link.reply.value)
    ensures !stopped && !Breaks(link) && (link.reply.None? || link.reply == Some(map[])) ==> r.Skipped?
  {
    if stopped then Skipped
    else if !link.listBack then Crash
    else match link.reply
      case None => Skipped
      case Some(rec) =>
        if rec == map[] then Skipped
        else if AccountKey in rec && rec[AccountKey].None? then Crash
        else Kept(rec)
  }

  /** The inner loop from `calls` scrapes and `doors` records: the scrapes and records after it, and whether it raised. */
  function ScrapeLinks(links: seq<Link>, stopAfter: Option<nat>, calls: nat, doors: seq<DoorRecord>)
    : (r: (nat, seq<DoorRecord>, bool))
    ensures calls <= r.0 && |doors| <= |r.1| && r.1[..|doors|] == doors
    ensures !r.2 ==> r.0 == calls + |links|
    decreases |links|
  {
    if links == [] then (calls, doors, false)
    else match VisitDoor(Stopped(stopAfter, calls), links[0])
      case Crash => (calls + 1, doors, true)
      case Skipped => ScrapeLinks(links[1..], stopAfter, calls + 1, doors)
      case Kept(rec) => ScrapeLinks(links[1..], stopAfter, calls + 1, doors + [rec])
  }

  /** The records the inner loop appends are exportable. */
  lemma {:induction false} ScrapeLinksExportable(links: seq<Link>, stopAfter: Option<nat>, calls: nat, doors: seq<DoorRecord>, i: nat)
    requires |doors| <= i < |ScrapeLinks(links, stopAfter, calls, doors).1|
    ensures Exportable(ScrapeLinks(links, stopAfter, calls, doors).1[i])
    decreases |links|
  {
    var step := VisitDoor(Stopped(stopAfter, calls), links[0]);
    match step {
      case Crash =>
      case Skipped =>
        ScrapeLinksExportable(links[1..], stopAfter, calls + 1, doors, i);
      case Kept(rec) =>
        var r := ScrapeLinks(links[1..], stopAfter, calls + 1, doors + [rec]);
        if i == |doors| {
          assert r.1[..|doors| + 1][i] == rec;
        } else {
          ScrapeLinksExportable(links[1..], stopAfter, calls + 1, doors + [rec], i);
        }
    }
  }

  /** Each record the inner loop appends comes from a scrape started before the stop was seen. */
  lemma {:induction false} ScrapeLinksBudget(links: seq<Link>, stopAfter: Option<nat>, calls: nat, doors: seq<DoorRecord>)
    requires |doors| <= Live(stopAfter, calls)
    ensures |ScrapeLinks(links, stopAfter, calls, doors).1| <= Live(stopAfter, ScrapeLinks(links, stopAfter, calls, doors).0)
    decreases |links|
  {
    if links != [] {
      var step := VisitDoor(Stopped(stopAfter, calls), links[0]);
      match step {
        case Crash =>
        case Skipped =>
          ScrapeLinksBudget(links[1..], stopAfter, calls + 1, doors);
        case Kept(rec) =>
          assert !Stopped(stopAfter, calls);
          ScrapeLinksBudget(links[1..], stopAfter, calls + 1, doors + [rec]);
      }
    }
  }

  /** A visit of a link that does not raise, before the stop: the loop goes on with the link's kept reply appended. */
  lemma ScrapeLinksStep(links: seq<Link>, stopAfter: Option<nat>, calls: nat, doors: seq<DoorRecord>)
    requires links != [] && !Stopped(stopAfter, calls) && !Breaks(links[0])
    ensures ScrapeLinks(links, stopAfter, calls, doors) == ScrapeLinks(links[1..], stopAfter, calls + 1, doors + KeptOne(links[0]))
  {
    match VisitDoor(false, links[0]) {
      case Skipped => assert doors + KeptOne(links[0]) == doors;
      case Kept(rec) =>
    }
  }

  /** Cleanliness and kept replies of a non-empty prefix split into its first link and the rest. */
  lemma PrefixSplit(links: seq<Link>, k: nat)
    requires 1 <= k <= |links|
    ensures Clean(links[..k]) <==> !Breaks(links[0]) && Clean(links[1..][..k - 1])
    ensures KeptReplies(links[..k]) == KeptOne(links[0]) + KeptReplies(links[1..][..k - 1])
  {
    var p, q := links[..k], links[1..][..k - 1];
    assert p[0] == links[0] && p[1..] == q;
    if Clean(q) && !Breaks(links[0]) {
      forall i | 0 <= i < k ensures !Breaks(p[i]) {
        if i > 0 { assert p[i] == q[i - 1]; }
      }
    }
    if Clean(p) {
      forall i | 0 <= i < k - 1 ensures !Breaks(q[i]) {
        assert q[i] == p[i + 1];
      }
    }
  }

  /** The inner loop's records from `calls` scrapes: see `ScrapeLinksRecords`. */
  ghost predicate RecordsHold(links: seq<Link>, stopAfter: Option<nat>, calls: nat, doors: seq<DoorRecord>) {
    var r := ScrapeLinks(links, stopAfter, calls, doors);
    var k := Live(stopAfter, calls + |links|) - Live(stopAfter, calls);
    && k <= |links|
    && (r.2 <==> !Clean(links[..k]))
    && (!r.2 ==> r.1 == doors + KeptReplies(links[..k]))
  }

  lemma StoppedHolds(links: seq<Link>, stopAfter: Option<nat>, calls: nat, doors: seq<DoorRecord>)
    requires links != [] && Stopped(stopAfter, calls)
    requires RecordsHold(links[1..], stopAfter, calls + 1, doors)
    ensures RecordsHold(links, stopAfter, calls, doors)
  {
    assert links[..0] == [] && links[1..][..0] == [];
  }

  lemma BreakHolds(links: seq<Link>, stopAfter: Option<nat>, calls: nat, doors: seq<DoorRecord>)
    requires links != [] && !Stopped(stopAfter, calls) && Breaks(links[0])
    ensures RecordsHold(links, stopAfter, calls, doors)
  {
    var k := Live(stopAfter, calls + |links|) - Live(stopAfter, calls);
    assert 1 <= k <= |links|;
    PrefixSplit(links, k);
  }

  lemma LiveHolds(links: seq<Link>, stopAfter: Option<nat>, calls: nat, doors: seq<DoorRecord>)
    requires links != [] && !Stopped(stopAfter, calls) && !Breaks(links[0])
    requires RecordsHold(links[1..], stopAfter, calls + 1, doors + KeptOne(links[0]))
    ensures RecordsHold(links, stopAfter, calls, doors)
  {
    var k := Live(stopAfter, calls + |links|) - Live(stopAfter, calls);
    assert k == Live(stopAfter, calls + 1 + |links[1..]|) - Live(stopAfter, calls + 1) + 1;
    PrefixSplit(links, k);
    ScrapeLinksStep(links, stopAfter, calls, doors);
    assert doors + KeptOne(links[0]) + KeptReplies(links[1..][..k - 1])
        == doors + (KeptOne(links[0]) + KeptReplies(links[1..][..k - 1]));
  }

  /**
    The inner loop visits the first `k` links, those started before the
    stop was seen. It raises iff one of them raises, and otherwise appends
    exactly their non-empty replies: a `None` or empty reply is skipped and
    the loop goes on.
  */
  lemma {:induction false} ScrapeLinksRecords(links: seq<Link>, stopAfter: Option<nat>, calls: nat, doors: seq<DoorRecord>)
    ensures var r := ScrapeLinks(links, stopAfter, calls, doors);
      var k := Live(stopAfter, calls + |links|) - Live(stopAfter, calls);
      && k <= |links|
      && (r.2 <==> !Clean(links[..k]))
      && (!r.2 ==> r.1 == doors + KeptReplies(links[..k]))
    decreases |links|
  {
    RecordsHoldAll(links, stopAfter, calls, doors);
  }

  lemma {:induction false} RecordsHoldAll(links: seq<Link>, stopAfter: Option<nat>, calls: nat, doors: seq<DoorRecord>)
    ensures RecordsHold(links, stopAfter, calls, doors)
    decreases |links|
  {
    if links == [] {
      assert links[..0] == [];
    } else if Stopped(stopAfter, calls) {
      RecordsHoldAll(links[1..], stopAfter, calls + 1, doors);
      StoppedHolds(links, stopAfter, calls, doors);
    } else if Breaks(links[0]) {
      BreakHolds(links, stopAfter, calls, doors);
    } else {
      RecordsHoldAll(links[1..], stopAfter, calls + 1, doors + KeptOne(links[0]));
      LiveHolds(links, stopAfter, calls, doors);
    }
  }

  /** The loop state: the locals `page_no`, `total_pages`, `more`, the scrapes started, `self.doors`, the events sent, and whether the loop left by `break` or by an exception. */
  datatype Pager = Pager(
    pageNo: nat, total: Option<nat>, more: bool, calls: nat,
    doors: seq<DoorRecord>, events: seq<Event>, broke: bool, crashed: bool)

  const Start: Pager := Pager(0, None, true, 0, [], [], false, false)

  /** `while more and not self._stop_evt.is_set()`, and the loop was not left by `break` or an exception. */
  predicate Continues(stopAfter: Option<nat>, s: Pager) {
    s.more && !Stopped(stopAfter, s.calls) && !s.broke && !s.crashed
  }

  /** One pass of the while body. */
  function Turn(pages: seq<Page>, stopAfter: Option<nat>, s: Pager): (t: Pager)
    ensures t.pageNo == s.pageNo + 1
    ensures t.broke <==> s.broke || PageAt(pages, t.pageNo).links == []
    ensures PageAt(pages, t.pageNo).links == [] ==> t.more == s.more && t.total == s.total
    ensures !s.crashed && !t.broke && !t.crashed ==>
              var adv := PageAt(pages, t.pageNo).advance;
              && ((adv.NextDisabled? || adv.NextFailed?) ==> !t.more && t.total == Some(t.pageNo))
              && ((adv.NextClicked? || adv.NextStale?) ==> t.more == s.more && t.total == s.total)
    ensures !s.crashed && t.crashed ==> t.more == s.more && t.total == s.total
  {
    var n := s.pageNo + 1;
    var page := PageAt(pages, n);
    if page.links == [] then s.(pageNo := n, broke := true)
    else
      var (calls, doors, crashed) := ScrapeLinks(page.links, stopAfter, s.calls, s.doors);
      if crashed then s.(pageNo := n, calls := calls, doors := doors, crashed := true)
      else
        var pct := if s.total.None? then None else Some((n, s.total.value));
        var events := s.events + [Progress(n, RangeText(page.range), |doors|, pct)];
        match page.advance
        case NextDisabled => s.(pageNo := n, total := Some(n), more := false, calls := calls, doors := doors, events := events)
        case NextFailed => s.(pageNo := n, total := Some(n), more := false, calls := calls, doors := doors, events := events)
        case NextClicked => s.(pageNo := n, calls := calls, doors := doors, events := events)
        case NextStale => s.(pageNo := n, calls := calls, doors := doors, events := events)
  }

  /** The while loop run to its end from `s`. */
  function Paging(pages: seq<Page>, stopAfter: Option<nat>, s: Pager): Pager
    requires s.pageNo <= |pages|
    decreases |pages| - s.pageNo
  {
    if !Continues(stopAfter, s) then s
    else
      var t := Turn(pages, stopAfter, s);
      if t.broke then t else Paging(pages, stopAfter, t)
  }

  /**
    The loop stops advancing only at a page whose "next" arrow was disabled
    or whose advance raised something other than a stale reference: a
    clicked arrow, a stale reference, an empty page, a crash or the stop
    flag all leave `more` as it was.
  */
  lemma {:induction false} PagingEndsOnLastPage(pages: seq<Page>, stopAfter: Option<nat>, s: Pager)
    requires s.pageNo <= |pages| && s.more && !s.crashed
    ensures var r := Paging(pages, stopAfter, s);
      !r.more ==> PageAt(pages, r.pageNo).advance.NextDisabled? || PageAt(pages, r.pageNo).advance.NextFailed?
    decreases |pages| - s.pageNo
  {
    if Continues(stopAfter, s) {
      var t := Turn(pages, stopAfter, s);
      if !t.broke && t.more && !t.crashed {
        PagingEndsOnLastPage(pages, stopAfter, t);
      }
    }
  }

  /** The records kept from pages 1 to `m` by a run that neither stops nor raises: each page's kept replies, page after page. */
  function KeptPages(pages: seq<Page>, m: nat): seq<DoorRecord>
    decreases m
  {
    if m == 0 then [] else KeptPages(pages, m - 1) + KeptReplies(PageAt(pages, m).links)
  }

  /** No link on pages 1 to `m` raises when visited. */
  predicate CleanPages(pages: seq<Page>, m: nat)
    decreases m
  {
    m == 0 || (CleanPages(pages, m - 1) && Clean(PageAt(pages, m).links))
  }

  /** A pass of a run without a stop: it raises iff a link of its page raises, and otherwise appends the page's kept replies. */
  lemma TurnRecords(pages: seq<Page>, s: Pager)
    requires Continues(None, s)
    ensures var t := Turn(pages, None, s);
      && (t.crashed <==> !Clean(PageAt(pages, t.pageNo).links))
      && (!t.crashed ==> t.doors == s.doors + KeptReplies(PageAt(pages, t.pageNo).links))
  {
    var links := PageAt(pages, s.pageNo + 1).links;
    if links != [] {
      ScrapeLinksRecords(links, None, s.calls, s.doors);
      assert links[..|links|] == links;
    }
  }

  /**
    A run the stop flag does not interrupt raises exactly when a link on
    one of the pages it reached raises, and otherwise keeps exactly the
    non-empty replies of those pages, in order.
  */
  lemma {:induction false} PagingRecords(pages: seq<Page>, s: Pager)
    requires s.pageNo <= |pages| && !s.crashed
    requires CleanPages(pages, s.pageNo) && s.doors == KeptPages(pages, s.pageNo)
    ensures var r := Paging(pages, None, s);
      && (r.crashed <==> !CleanPages(pages, r.pageNo))
      && (!r.crashed ==> r.doors == KeptPages(pages, r.pageNo))
    decreases |pages| - s.pageNo
  {
    if Continues(None, s) {
      var t := Turn(pages, None, s);
      TurnRecords(pages, s);
      if !t.broke && !t.crashed {
        PagingRecords(pages, t);
      }
    }
  }

  /** What stays true along the loop. */
  ghost predicate Inv(stopAfter: Option<nat>, s: Pager) {
    (forall i :: 0 <= i < |s.events| ==>
       s.events[i].Progress? && s.events[i].page == i + 1 && s.events[i].pct.None?
       && s.events[i].count <= |s.doors|)
    && (forall i, j :: 0 <= i < j < |s.events| && s.events[i].Progress? && s.events[j].Progress? ==>
          s.events[i].count <= s.events[j].count)
    && (s.more <==> s.total.None?)
    && (s.total.Some? ==> s.total.value == s.pageNo)
    && (if s.broke || s.crashed then |s.events| + 1 == s.pageNo else |s.events| == s.pageNo)
    && (forall i :: 0 <= i < |s.doors| ==> Exportable(s.doors[i]))
    && |s.doors| <= Live(stopAfter, s.calls)
  }

  lemma TurnKeeps(pages: seq<Page>, stopAfter: Option<nat>, s: Pager)
    requires Inv(stopAfter, s) && Continues(stopAfter, s)
    ensures Inv(stopAfter, Turn(pages, stopAfter, s))
    ensures s.doors <= Turn(pages, stopAfter, s).doors
  {
    var n := s.pageNo + 1;
    var page := PageAt(pages, n);
    if page.links != [] {
      var (calls, doors, crashed) := ScrapeLinks(page.links, stopAfter, s.calls, s.doors);
      ScrapeLinksBudget(page.links, stopAfter, s.calls, s.doors);
      forall i | |s.doors| <= i < |doors| ensures Exportable(doors[i]) {
        ScrapeLinksExportable(page.links, stopAfter, s.calls, s.doors, i);
      }
      assert forall i :: 0 <= i < |s.doors| ==> doors[i] == s.doors[i] by {
        assert doors[..|s.doors|] == s.doors;
      }
      if !crashed {
        var e := Progress(n, RangeText(page.range), |doors|, None);
        var events := s.events + [e];
        assert s.total.None?;
        assert forall i :: 0 <= i < |events| ==> events[i].Progress? && events[i].page == i + 1 && events[i].pct.None? && events[i].count <= |doors| by {
          forall i | 0 <= i < |events| ensures events[i].Progress? && events[i].page == i + 1 && events[i].pct.None? && events[i].count <= |doors| {
            if i < |s.events| { assert events[i] == s.events[i]; }
          }
        }
      }
    }
  }

  /** Every state the loop reaches from one where it holds satisfies the invariant, and the records only grow. */
  lemma {:induction false} PagingKeeps(pages: seq<Page>, stopAfter: Option<nat>, s: Pager)
    requires s.pageNo <= |pages| && Inv(stopAfter, s)
    ensures Inv(stopAfter, Paging(pages, stopAfter, s))
    ensures s.doors <= Paging(pages, stopAfter, s).doors
    ensures !Continues(stopAfter, Paging(pages, stopAfter, s))
    ensures Paging(pages, stopAfter, s).pageNo <= |pages| + 1
    decreases |pages| - s.pageNo
  {
    if Continues(stopAfter, s) {
      var t := Turn(pages, stopAfter, s);
      TurnKeeps(pages, stopAfter, s);
      if !t.broke {
        PagingKeeps(pages, stopAfter, t);
      }
    }
  }

  /**
    The listing from the start: progress events are numbered 1, 2, 3, ...
    and never carry a fraction (the total is only learnt when the loop stops
    advancing); the last page is known exactly when there is no "next"
    page, and it is the page reached, whose arrow was disabled or whose
    advance failed otherwise than by a stale reference; the loop ends only by reaching it,
    by the stop flag, by a page without links or by an exception; every
    kept record is exportable; no more records are kept than scrapes
    started before the stop; since each pass counts one page, a listing
    of N pages takes at most N + 1 passes; and a run the stop flag does not
    interrupt raises iff a link of a page it reached raises, and otherwise
    keeps exactly those pages' non-empty replies.
  */
  lemma ListingFacts(pages: seq<Page>, stopAfter: Option<nat>)
    ensures var r := Paging(pages, stopAfter, Start);
      && (forall i :: 0 <= i < |r.events| ==>
            r.events[i].Progress? && r.events[i].page == i + 1 && r.events[i].pct.None?)
      && (r.total.None? <==> r.more)
      && (r.total.Some? ==> r.total.value == r.pageNo)
      && (!r.more || Stopped(stopAfter, r.calls) || r.broke || r.crashed)
      && (forall i :: 0 <= i < |r.doors| ==> Exportable(r.doors[i]))
      && (stopAfter.Some? ==> |r.doors| <= stopAfter.value)
      && r.pageNo <= |pages| + 1
      && (!r.more ==> PageAt(pages, r.pageNo).advance.NextDisabled? || PageAt(pages, r.pageNo).advance.NextFailed?)
      && (stopAfter.None? ==> (r.crashed <==> !CleanPages(pages, r.pageNo)))
      && (stopAfter.None? && !r.crashed ==> r.doors == KeptPages(pages, r.pageNo))
  {
    PagingKeeps(pages, stopAfter, Start);
    PagingEndsOnLastPage(pages, stopAfter, Start);
    if stopAfter.None? {
      PagingRecords(pages, Start);
    }
  }

  /** A first page without links ends the listing at once: no record and no progress event. */
  lemma EmptyFirstPage(pages: seq<Page>, stopAfter: Option<nat>)
    requires pages == [] || pages[0].links == []
    requires stopAfter != Some(0)
    ensures var r := Paging(pages, stopAfter, Start);
      r.doors == [] && r.events == [] && r.broke && r.pageNo == 1
  {
  }

  /** A stop seen before the loop starts leaves everything as it was. */
  lemma StopBeforeStart(pages: seq<Page>)
    ensures Paging(pages, Some(0), Start) == Start
  {
  }

  /** One export: the file prefix, the records written to the JSON file, and the CSV table. */
  datatype Export = Export(prefix: string, records: seq<DoorRecord>, table: seq<seq<string>>)

  /** The outcome of the `try` block before the `finally`: the records, the events, and whether the main export ran. */
  ghost function Listed(loginOk: bool, searchOk: bool, pages: seq<Page>, stopAfter: Option<nat>,
                        doors: seq<DoorRecord>, events: seq<Event>): (seq<DoorRecord>, seq<Event>, bool)
  {
    if !loginOk then (doors, events, false)
    else if !searchOk then (doors, events + [Failed], false)
    else
      var r := Paging(pages, stopAfter, Pager(0, None, true, 0, doors, events, false, false));
      if r.crashed then (r.doors, r.events + [Failed], false) else (r.doors, r.events, true)
  }

  class DoorScraper {
    const city: string
    const street: Option<string>
    const rta: Option<string>
    var doors: seq<DoorRecord>
    var events: seq<Event>
    var exports: seq<Export>

    constructor(city: string, street: Option<string>, rta: Option<string>)
      ensures this.city == city && this.street == street && this.rta == rta
      ensures doors == [] && events == [] && exports == []
    {
      this.city := city;
      this.street := street;
      this.rta := rta;
      doors := [];
      events := [];
      exports := [];
    }

    /** `e` is an export of the current records under the scraper's city, street and area code. */
    ghost predicate ExportOf(e: Export)
      reads this`doors
    {
      e.prefix == ExportPrefix(city, street, rta) && e.records == doors && CsvFor(e.table, city, street, rta, doors)
    }

    /** The paging loop; the result says whether an exception left it. */
    method Paginate(pages: seq<Page>, stopAfter: Option<nat>) returns (crashed: bool)
      modifies this`doors, this`events
      ensures var r := Paging(pages, stopAfter, Pager(0, None, true, 0, old(doors), old(events), false, false));
        doors == r.doors && events == r.events && crashed == r.crashed
    {
      var pageNo: nat := 0;
      var total: Option<nat> := None;
      var more := true;
      var calls: nat := 0;
      ghost var start := Pager(0, None, true, 0, doors, events, false, false);
      crashed := false;
      while more && !Stopped(stopAfter, calls)
        invariant pageNo <= |pages|
        invariant Paging(pages, stopAfter, Pager(pageNo, total, more, calls, doors, events, false, false))
                  == Paging(pages, stopAfter, start)
        decreases |pages| - pageNo
      {
        ghost var s := Pager(pageNo, total, more, calls, doors, events, false, false);
        pageNo := pageNo + 1;
        var page := PageAt(pages, pageNo);
        var range := RangeText(page.range);
        if page.links == [] {
          assert Paging(pages, stopAfter, s) == s.(pageNo := pageNo, broke := true);
          break;
        }
        var pageCrashed;
        calls, pageCrashed := VisitLinks(page.links, stopAfter, calls);
        if pageCrashed {
          crashed := true;
          assert Paging(pages, stopAfter, s) == Turn(pages, stopAfter, s);
          return;
        }
        var pct: Option<(nat, nat)> := if total.None? then None else Some((pageNo, total.value));
        events := events + [Progress(pageNo, range, |doors|, pct)];
        match page.advance {
          case NextDisabled =>
            total := Some(pageNo);
            more := false;
          case NextClicked =>
          case NextStale =>
          case NextFailed =>
            total := Some(pageNo);
            more := false;
        }
        assert Turn(pages, stopAfter, s) == Pager(pageNo, total, more, calls, doors, events, false, false);
      }
    }

    /** `for href in links`: the scrapes started and whether one raised. */
    method VisitLinks(links: seq<Link>, stopAfter: Option<nat>, calls0: nat) returns (calls: nat, crashed: bool)
      modifies this`doors
      ensures ScrapeLinks(links, stopAfter, calls0, old(doors)) == (calls, doors, crashed)
    {
      calls, crashed := calls0, false;
      var j := 0;
      while j < |links|
        invariant 0 <= j <= |links|
        invariant ScrapeLinks(links[j..], stopAfter, calls, doors) == ScrapeLinks(links, stopAfter, calls0, old(doors))
      {
        assert links[j..][0] == links[j] && links[j..][1..] == links[j + 1..];
        var step := VisitDoor(Stopped(stopAfter, calls), links[j]);
        calls := calls + 1;
        match step {
          case Crash =>
            crashed := true;
            return;
          case Skipped =>
          case Kept(rec) =>
            doors := doors + [rec];
        }
        j := j + 1;
      }
    }

    /** Writing the JSON and CSV files and sending the `done` event. */
    method ExportDoors()
      modifies this`exports, this`events
      ensures |exports| == |old(exports)| + 1 && exports[..|old(exports)|] == old(exports)
      ensures ExportOf(exports[|old(exports)|])
      ensures events == old(events) + [Finished(|doors|)]
    {
      var t := WriteCsv(city, street, rta, doors);
      exports := exports + [Export(ExportPrefix(city, street, rta), doors, t)];
      events := events + [Finished(|doors|)];
    }

    /** The `try` block of `run()`: login, search, the paging loop and the main export. */
    method TryBlock(loginOk: bool, searchOk: bool, pages: seq<Page>, stopAfter: Option<nat>) returns (ghost main: bool)
      modifies this`doors, this`events, this`exports
      ensures var (d, ev, m) := Listed(loginOk, searchOk, pages, stopAfter, old(doors), old(events));
        var n := |old(exports)|;
        && doors == d && main == m
        && events == ev + (if m then [Finished(|d|)] else [])
        && |exports| == n + (if m then 1 else 0) && exports[..n] == old(exports)
        && (m ==> ExportOf(exports[n]))
    {
      main := false;
      if loginOk {
        if !searchOk {
          events := events + [Failed];
        } else {
          var crashed := Paginate(pages, stopAfter);
          if crashed {
            events := events + [Failed];
          } else {
            ExportDoors();
            main := true;
          }
        }
      }
    }

    /**
      The `finally` block of `run()`: a second export whenever records were
      collected. It writes the same contents as the main export, if that ran.
    */
    method FinallyBlock(ghost n: nat, ghost main: bool)
      requires |exports| == n + (if main then 1 else 0)
      requires main ==> ExportOf(exports[n])
      modifies this`exports, this`events
      ensures events == old(events) + (if doors != [] then [Finished(|doors|)] else [])
      ensures |exports| == n + (if main then 1 else 0) + (if doors != [] then 1 else 0)
      ensures exports[..n] == old(exports)[..n]
      ensures forall i :: n <= i < |exports| ==> ExportOf(exports[i])
      ensures forall i, j :: n <= i < |exports| && n <= j < |exports| ==> exports[i] == exports[j]
    {
      ghost var mid := exports;
      if doors != [] {
        ExportDoors();
        ghost var last := exports[|mid|];
        assert exports == mid + [last];
        if main {
          CsvForUnique(exports[n].table, last.table, city, street, rta, doors);
          assert exports[n..] == [last, last];
        } else {
          assert exports[n..] == [last];
        }
      } else {
        assert |exports[n..]| <= 1;
      }
    }

    /**
      `run()`: the `try` block, then the `finally` block that exports again
      whenever records were collected, also after an exception. A failed
      login returns before the search; both exports write the same contents.
    */
    method Run(loginOk: bool, searchOk: bool, pages: seq<Page>, stopAfter: Option<nat>)
      modifies this
      ensures var (d, ev, main) := Listed(loginOk, searchOk, pages, stopAfter, old(doors), old(events));
        var n := |old(exports)|;
        && doors == d
        && events == ev + (if main then [Finished(|d|)] else []) + (if d != [] then [Finished(|d|)] else [])
        && |exports| == n + (if main then 1 else 0) + (if d != [] then 1 else 0)
        && exports[..n] == old(exports)
        && (forall i :: n <= i < |exports| ==> ExportOf(exports[i]))
        && (forall i, j :: n <= i < |exports| && n <= j < |exports| ==> exports[i] == exports[j])
    {
      ghost var n := |exports|;
      ghost var main := TryBlock(loginOk, searchOk, pages, stopAfter);
      FinallyBlock(n, main);
    }
  }
}
