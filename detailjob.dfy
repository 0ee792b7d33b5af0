/**
  `ClicDetailScraper.run`: the accounts of the doors file routed to the
  Clic+ and CSR back-ends, the two scraping loops with their progress
  events and the stop flag, the merge and template export, and the
  recovery export of the `except` branch followed by the error event.
  What each back-end answers for an account is a parameter; reading the
  file either succeeds with the same table each time or fails.
*/
module DetailJob {
  import opened Wrappers
  import opened Accounts
  import opened ClicPage
  import opened CsrPage
  import opened Reconcile
  import Listing

  /** A back-end's answer for one account: `_scrape_one` or `_scrape_csr` as it ends. */
  type PageReply = ScrapeResult

  /** The Clic+ record carries `Compte client`, so its join key is present: the header parser seeds it and the contact fields keep it. */
  lemma ClicRecordHasAccount(account: string, lines: seq<string>, parts: seq<string>)
    ensures AccountKey in WithContact(HeaderFields(account, lines), parts)
  {
  }

  /** The CSR record carries `Compte client` whenever the panel could be read. */
  lemma CsrRecordHasAccount(account: string, entries: seq<CsrEntry>)
    ensures CsrFields(account, entries).Some? ==> AccountKey in WithCsrContact(CsrFields(account, entries).value)
  {
    FoldEntriesIsAssign(Seed(account), entries);
  }

  /** What one account yields to the loop: a record for `self.rows`, nothing, or an exception that ends the loops. */
  datatype Reply = Got(row: Record) | Nothing | Raised

  /** `if info:` skips an empty record as it skips `None`. */
  function FromResult(r: PageReply): Reply {
    match r
    case Scraped(f) => if f == map[] then Nothing else Got(f)
    case NoRecord => Nothing
    case Crashed(_) => Raised
  }

  function Replies(f: string -> PageReply): string -> Reply {
    a => FromResult(f(a))
  }

  datatype DetailEvent = DetailProgress(idx: nat, total: nat) | DetailDone(rows: nat) | DetailFailed

  /** `doors_df["Compte client"].dropna().tolist()`: the accounts of the rows that have one, in order. */
  function AccountsOf(rows: seq<map<string, string>>): (r: seq<string>)
    ensures |r| <= |rows|
  {
    if rows == [] then []
    else (if AccountKey in rows[0] then [rows[0][AccountKey]] else []) + AccountsOf(rows[1..])
  }

  /** An account is listed exactly when some door row has it. */
  lemma {:induction false} AccountsOfMeaning(rows: seq<map<string, string>>, a: string)
    ensures a in AccountsOf(rows) <==> exists i :: 0 <= i < |rows| && AccountKey in rows[i] && rows[i][AccountKey] == a
  {
    if rows != [] {
      AccountsOfMeaning(rows[1..], a);
      assert forall i :: 1 <= i < |rows| ==> rows[1..][i - 1] == rows[i];
      if exists i :: 0 <= i < |rows[1..]| && AccountKey in rows[1..][i] && rows[1..][i][AccountKey] == a {
        var i :| 0 <= i < |rows[1..]| && AccountKey in rows[1..][i] && rows[1..][i][AccountKey] == a;
        assert rows[i + 1] == rows[1..][i];
      }
    }
  }

  /** `[info for acc in accts if (info := scrape(acc))]`: the records the accounts yield, in order. */
  function Gots(reply: string -> Reply, accts: seq<string>): seq<Record> {
    if accts == [] then []
    else (if reply(accts[0]).Got? then [reply(accts[0]).row] else []) + Gots(reply, accts[1..])
  }

  datatype Swept = Swept(rows: seq<Record>, events: seq<DetailEvent>, started: nat, raised: bool)

  /**
    One scraping loop, `for idx, acc in enumerate(accts, idx)`: stop when the
    flag is set, otherwise scrape, keep a record, and report
    `("detail_progress", idx, total)`; an exception leaves the loop at once.
    `started` counts the scrapes begun so far in the whole job, which is
    what the stop flag is measured against.
  */
  function Sweep(accts: seq<string>, reply: string -> Reply, stopAfter: Option<nat>, started: nat, idx: nat, total: nat): Swept
    decreases |accts|
  {
    if accts == [] || Listing.Stopped(stopAfter, started) then Swept([], [], started, false)
    else
      var r := reply(accts[0]);
      if r.Raised? then Swept([], [], started + 1, true)
      else
        var rest := Sweep(accts[1..], reply, stopAfter, started + 1, idx + 1, total);
        Swept((if r.Got? then [r.row] else []) + rest.rows, [DetailProgress(idx, total)] + rest.events, rest.started, rest.raised)
  }

  /**
    A loop reports the consecutive indices from `idx`, one per account it
    finished, at most one per account; it keeps exactly the records of those
    accounts; it counts each scrape it began; and unless the stop flag was
    seen or an account raised it finishes every account.
  */
  lemma {:induction false} SweepFacts(accts: seq<string>, reply: string -> Reply, stopAfter: Option<nat>, started: nat, idx: nat, total: nat)
    ensures var s := Sweep(accts, reply, stopAfter, started, idx, total);
      && |s.events| <= |accts|
      && (forall k :: 0 <= k < |s.events| ==> s.events[k] == DetailProgress(idx + k, total))
      && s.rows == Gots(reply, accts[..|s.events|])
      && s.started == started + |s.events| + (if s.raised then 1 else 0)
      && (s.raised ==> |s.events| < |accts| && reply(accts[|s.events|]).Raised?)
      && (!s.raised && |s.events| < |accts| ==> Listing.Stopped(stopAfter, s.started))
    decreases |accts|
  {
    var s := Sweep(accts, reply, stopAfter, started, idx, total);
    if accts == [] || Listing.Stopped(stopAfter, started) {
      assert accts[..0] == [];
    } else {
      var r := reply(accts[0]);
      if !r.Raised? {
        var rest := Sweep(accts[1..], reply, stopAfter, started + 1, idx + 1, total);
        SweepFacts(accts[1..], reply, stopAfter, started + 1, idx + 1, total);
        var n := |rest.events|;
        assert accts[..n + 1] == [accts[0]] + accts[1..][..n];
        assert ([accts[0]] + accts[1..][..n])[1..] == accts[1..][..n];
        forall k | 1 <= k < |s.events| ensures s.events[k] == DetailProgress(idx + k, total) {
          assert s.events[k] == rest.events[k - 1];
        }
        if s.raised {
          assert accts[|s.events|] == accts[1..][n];
        }
      } else {
        assert accts[..0] == [];
      }
    }
  }

  /** One account that does not raise: its record, if any, and its progress event come first. */
  lemma SweepStep(accts: seq<string>, reply: string -> Reply, stopAfter: Option<nat>, started: nat, idx: nat, total: nat)
    requires accts != [] && !Listing.Stopped(stopAfter, started) && !reply(accts[0]).Raised?
    ensures var s := Sweep(accts, reply, stopAfter, started, idx, total);
      var rest := Sweep(accts[1..], reply, stopAfter, started + 1, idx + 1, total);
      && s.rows == (if reply(accts[0]).Got? then [reply(accts[0]).row] else []) + rest.rows
      && s.events == [DetailProgress(idx, total)] + rest.events
      && s.started == rest.started && s.raised == rest.raised
  {
  }

  /** Once the stop flag is set the loop does nothing. */
  lemma SweepStopped(accts: seq<string>, reply: string -> Reply, stopAfter: Option<nat>, started: nat, idx: nat, total: nat)
    requires Listing.Stopped(stopAfter, started)
    ensures Sweep(accts, reply, stopAfter, started, idx, total) == Swept([], [], started, false)
  {
  }

  /** Every record a loop keeps is one the back-end answered, so a property of all answered records holds of all kept ones. */
  lemma {:induction false} SweepRowsFrom(accts: seq<string>, reply: string -> Reply, stopAfter: Option<nat>, started: nat, idx: nat, total: nat)
    requires forall a :: reply(a).Got? ==> AccountKey in reply(a).row
    ensures forall k :: 0 <= k < |Sweep(accts, reply, stopAfter, started, idx, total).rows| ==>
              AccountKey in Sweep(accts, reply, stopAfter, started, idx, total).rows[k]
    decreases |accts|
  {
    if accts != [] && !Listing.Stopped(stopAfter, started) && !reply(accts[0]).Raised? {
      var s := Sweep(accts, reply, stopAfter, started, idx, total);
      var rest := Sweep(accts[1..], reply, stopAfter, started + 1, idx + 1, total);
      SweepRowsFrom(accts[1..], reply, stopAfter, started + 1, idx + 1, total);
      var head := if reply(accts[0]).Got? then [reply(accts[0]).row] else [];
      assert s.rows == head + rest.rows;
      forall k | 0 <= k < |s.rows| ensures AccountKey in s.rows[k] {
        if k >= |head| {
          assert s.rows[k] == rest.rows[k - |head|];
        }
      }
    }
  }

  /** When every record a back-end answers carries `Compte client`, as both pages' records do, so does every record a loop keeps. */
  lemma SweepRowsKeyed(accts: seq<string>, f: string -> PageReply, stopAfter: Option<nat>, started: nat, idx: nat, total: nat)
    requires forall a :: f(a).Scraped? ==> AccountKey in f(a).fields
    ensures forall k :: 0 <= k < |Sweep(accts, Replies(f), stopAfter, started, idx, total).rows| ==>
              AccountKey in Sweep(accts, Replies(f), stopAfter, started, idx, total).rows[k]
  {
    var reply := Replies(f);
    forall a | reply(a).Got? ensures AccountKey in reply(a).row {
      assert reply(a) == FromResult(f(a));
    }
    SweepRowsFrom(accts, reply, stopAfter, started, idx, total);
  }

  /**
    The Clic+ loop then the CSR loop report `1, 2, ..., m` out of `total`:
    the CSR loop starts at `len(clic_accts) + 1`, and it only runs once the
    Clic+ loop finished every account, since a set stop flag stops both.
  */
  lemma TwoSweepsNumbered(clic: seq<string>, csr: seq<string>, clicReply: string -> Reply, csrReply: string -> Reply,
                          stopAfter: Option<nat>, total: nat)
    ensures var c := Sweep(clic, clicReply, stopAfter, 0, 1, total);
      var d := Sweep(csr, csrReply, stopAfter, c.started, |clic| + 1, total);
      var e := c.events + d.events;
      && |e| <= |clic| + |csr|
      && (c.raised ==> |c.events| < |clic|)
      && (!c.raised ==> forall k :: 0 <= k < |e| ==> e[k] == DetailProgress(k + 1, total))
      && (stopAfter.None? && !c.raised && !d.raised ==> |e| == |clic| + |csr|)
  {
    var c := Sweep(clic, clicReply, stopAfter, 0, 1, total);
    var d := Sweep(csr, csrReply, stopAfter, c.started, |clic| + 1, total);
    SweepFacts(clic, clicReply, stopAfter, 0, 1, total);
    SweepFacts(csr, csrReply, stopAfter, c.started, |clic| + 1, total);
    if !c.raised && |c.events| < |clic| {
      SweepStopped(csr, csrReply, stopAfter, c.started, |clic| + 1, total);
    }
    var e := c.events + d.events;
    if !c.raised {
      forall k | 0 <= k < |e| ensures e[k] == DetailProgress(k + 1, total) {
        if k >= |c.events| {
          assert e[k] == d.events[k - |c.events|];
        }
      }
    }
  }

  /** A sweep's outcome with the records and events already gathered in front. */
  function After(got: seq<Record>, reported: seq<DetailEvent>, s: Swept): Swept {
    Swept(got + s.rows, reported + s.events, s.started, s.raised)
  }

  /** Moving one account that does not raise from the sweep still to do into what was gathered. */
  lemma AfterStep(got: seq<Record>, reported: seq<DetailEvent>, accts: seq<string>, reply: string -> Reply,
                  stopAfter: Option<nat>, started: nat, idx: nat, total: nat)
    requires accts != [] && !Listing.Stopped(stopAfter, started) && !reply(accts[0]).Raised?
    ensures var step := if reply(accts[0]).Got? then [reply(accts[0]).row] else [];
      After(got, reported, Sweep(accts, reply, stopAfter, started, idx, total))
      == After(got + step, reported + [DetailProgress(idx, total)], Sweep(accts[1..], reply, stopAfter, started + 1, idx + 1, total))
  {
    var step := if reply(accts[0]).Got? then [reply(accts[0]).row] else [];
    var rest := Sweep(accts[1..], reply, stopAfter, started + 1, idx + 1, total);
    SweepStep(accts, reply, stopAfter, started, idx, total);
    assert got + (step + rest.rows) == (got + step) + rest.rows;
    assert reported + ([DetailProgress(idx, total)] + rest.events) == (reported + [DetailProgress(idx, total)]) + rest.events;
  }

  /** The loop of one back-end: `for idx, acc in enumerate(accts, idx)`, the records it keeps and the progress events it reports. */
  method ScrapeAccounts(accts: seq<string>, reply: string -> Reply, stopAfter: Option<nat>, started0: nat, idx0: nat, total: nat)
    returns (got: seq<Record>, reported: seq<DetailEvent>, started: nat, raised: bool)
    ensures Sweep(accts, reply, stopAfter, started0, idx0, total) == Swept(got, reported, started, raised)
  {
    got, reported := [], [];
    ghost var whole := Sweep(accts, reply, stopAfter, started0, idx0, total);
    assert whole == After(got, reported, whole);
    started := started0;
    var todo := accts;
    var idx := idx0;
    while todo != []
      invariant whole == After(got, reported, Sweep(todo, reply, stopAfter, started, idx, total))
      decreases |todo|
    {
      if Listing.Stopped(stopAfter, started) {
        break;
      }
      var r := reply(todo[0]);
      if r.Raised? {
        started := started + 1;
        raised := true;
        assert got + [] == got && reported + [] == reported;
        return;
      }
      AfterStep(got, reported, todo, reply, stopAfter, started, idx, total);
      var step := if r.Got? then [r.row] else [];
      got := got + step;
      reported := reported + [DetailProgress(idx, total)];
      started := started + 1;
      todo := todo[1..];
      idx := idx + 1;
    }
    raised := false;
    assert got + [] == got && reported + [] == reported;
  }

  type Workbook = seq<seq<Option<string>>>

  /** What the job leaves behind: the scraped rows, the events it queued, the workbooks and the missing-phone reports it wrote. */
  datatype JobState = JobState(rows: seq<Record>, events: seq<DetailEvent>, workbooks: seq<Workbook>, reports: seq<seq<map<string, string>>>)

  /** The recovery writes its workbook: the file is read again with its account column, and either nothing was scraped or the join's columns do not clash. */
  predicate RecoveryWrites(t: DoorTable, readable: bool, s: JobState) {
    readable && AccountKey in t.columns && (s.rows == [] || (PhoneKey !in t.columns && EmailKey !in t.columns))
  }

  /**
    The `except` branch: read the doors again, left-join the rows scraped
    so far without the duplicate check (or, with none, set every phone and
    email to "N/A"), write the template with every gap "N/A" and report
    `detail_done`; any failure there is swallowed; the error event follows
    in every case. The join and the template need `Compte client`, and the
    join fails on a door file with its own phone or email column.
  */
  function Recovered(t: DoorTable, readable: bool, s: JobState): (r: JobState)
    ensures r.rows == s.rows && r.reports == s.reports
    ensures |r.events| > 0 && r.events[|r.events| - 1] == DetailFailed
    ensures RecoveryWrites(t, readable, s) ==>
              && |r.workbooks| == |s.workbooks| + 1 && r.workbooks[..|s.workbooks|] == s.workbooks
              && var w: Workbook := r.workbooks[|s.workbooks|];
                 && r.events == s.events + [DetailDone(|w|), DetailFailed]
                 && |w| >= |t.rows|
                 && forall i, j :: 0 <= i < |w| && 0 <= j < |w[i]| ==> w[i][j].Some?
    ensures !RecoveryWrites(t, readable, s) ==> r == s.(events := s.events + [DetailFailed])
  {
    if !readable || AccountKey !in t.columns then s.(events := s.events + [DetailFailed])
    else if s.rows != [] then
      if PhoneKey in t.columns || EmailKey in t.columns then s.(events := s.events + [DetailFailed])
      else
        var m := LeftJoin(t.rows, s.rows);
        s.(workbooks := s.workbooks + [Template(m, MergedColumns(t.columns), true)],
           events := s.events + [DetailDone(|m|), DetailFailed])
    else
      var m := Overwritten(t.rows);
      s.(workbooks := s.workbooks + [Template(m, t.columns + {PhoneKey, EmailKey}, true)],
         events := s.events + [DetailDone(|m|), DetailFailed])
  }

  /** The main path after the loops: merge, report the doors still without a phone, write the template and report `detail_done`; a failed merge falls into the `except` branch. */
  function Exported(t: DoorTable, s: JobState): JobState {
    match Merge(t, s.rows)
    case Err(_) => Recovered(t, true, s)
    case Ok(m) =>
      var miss := Missing(m);
      s.(reports := s.reports + (if miss != [] then [miss] else []),
         workbooks := s.workbooks + [Template(m, MergedColumns(t.columns), false)],
         events := s.events + [DetailDone(|m|)])
  }

  /**
    The whole job from state `s`. `readOk`: the doors file could be read;
    `driverOk`: the browser started; `loginOk`: the Clic+ login went
    through (it is only attempted when there are Clic+ accounts). A file
    without any account reports the error without raising; a run that
    scraped nothing ends without any final event.
  */
  function Job(t: DoorTable, readOk: bool, driverOk: bool, loginOk: bool,
               clicReply: string -> PageReply, csrReply: string -> PageReply, stopAfter: Option<nat>, s: JobState): JobState
  {
    if !readOk || AccountKey !in t.columns then Recovered(t, readOk, s)
    else
      var accts := AccountsOf(t.rows);
      if accts == [] then s.(events := s.events + [DetailFailed])
      else if !driverOk then Recovered(t, true, s)
      else
        if ClicAccounts(accts) != [] && !loginOk then Recovered(t, true, s)
        else Scraping(t, accts, clicReply, csrReply, stopAfter, s)
  }

  /** The two loops over the routed accounts, then the export when they scraped anything; a scrape that raises, in either loop, goes to the `except` branch with the records kept so far. */
  function Scraping(t: DoorTable, accts: seq<string>, clicReply: string -> PageReply, csrReply: string -> PageReply,
                    stopAfter: Option<nat>, s: JobState): JobState
  {
    var clic := ClicAccounts(accts);
    var csr := CsrAccounts(accts);
    var c := Sweep(clic, Replies(clicReply), stopAfter, 0, 1, |accts|);
    var s1 := s.(rows := s.rows + c.rows, events := s.events + c.events);
    if c.raised then Recovered(t, true, s1)
    else
      var d := Sweep(csr, Replies(csrReply), stopAfter, c.started, |clic| + 1, |accts|);
      var s2 := s1.(rows := s1.rows + d.rows, events := s1.events + d.events);
      if d.raised then Recovered(t, true, s2)
      else if s2.rows == [] then s2 else Exported(t, s2)
  }

  /** An unreadable file, or one without a `Compte client` column, ends with the error event alone: the recovery cannot read it either. */
  lemma JobUnreadable(t: DoorTable, readOk: bool, driverOk: bool, loginOk: bool,
                      clicReply: string -> PageReply, csrReply: string -> PageReply, stopAfter: Option<nat>, s: JobState)
    requires !readOk || AccountKey !in t.columns
    ensures Job(t, readOk, driverOk, loginOk, clicReply, csrReply, stopAfter, s) == s.(events := s.events + [DetailFailed])
  {
  }

  /**
    A fresh job whose Clic+ login fails still writes the template: one row
    per door, with phone and email "N/A" and no cell left empty, then
    reports `detail_done` with the door count and the error.
  */
  lemma JobLoginFails(t: DoorTable, driverOk: bool, clicReply: string -> PageReply, csrReply: string -> PageReply,
                      stopAfter: Option<nat>, s: JobState)
    requires AccountKey in t.columns && s.rows == []
    requires ClicAccounts(AccountsOf(t.rows)) != []
    ensures var r := Job(t, true, driverOk, false, clicReply, csrReply, stopAfter, s);
      && r.rows == [] && r.reports == s.reports
      && r.workbooks == s.workbooks + [Template(Overwritten(t.rows), t.columns + {PhoneKey, EmailKey}, true)]
      && r.events == s.events + [DetailDone(|t.rows|), DetailFailed]
      && |r.workbooks[|s.workbooks|]| == |t.rows|
      && (forall i :: 0 <= i < |t.rows| ==> r.workbooks[|s.workbooks|][i][2] == Some(NA) && r.workbooks[|s.workbooks|][i][3] == Some(NA))
      && (forall i, j :: 0 <= i < |t.rows| && 0 <= j < 8 ==> r.workbooks[|s.workbooks|][i][j].Some?)
  {
    RoutePartition(AccountsOf(t.rows));
    var m := Overwritten(t.rows);
    TemplateShape(m, t.columns + {PhoneKey, EmailKey}, true);
  }

  /**
    When the file is read, the browser starts and the login succeeds, the
    job is the Clic+ loop from `1`; a Clic+ exception goes to the `except`
    branch with the Clic+ records; otherwise the CSR loop follows from
    `len(clic_accts) + 1`, and a CSR exception goes to the `except` branch
    with the records of both loops; otherwise the export follows when the
    loops scraped anything.
  */
  lemma JobScrapes(t: DoorTable, clicReply: string -> PageReply, csrReply: string -> PageReply,
                   stopAfter: Option<nat>, s: JobState)
    requires AccountKey in t.columns && AccountsOf(t.rows) != []
    ensures var accts := AccountsOf(t.rows);
      var c := Sweep(ClicAccounts(accts), Replies(clicReply), stopAfter, 0, 1, |accts|);
      var d := Sweep(CsrAccounts(accts), Replies(csrReply), stopAfter, c.started, |ClicAccounts(accts)| + 1, |accts|);
      var s1 := s.(rows := s.rows + c.rows, events := s.events + c.events);
      var s2 := s.(rows := s.rows + c.rows + d.rows, events := s.events + c.events + d.events);
      var r := Job(t, true, true, true, clicReply, csrReply, stopAfter, s);
      && (c.raised ==> r == Recovered(t, true, s1))
      && (!c.raised && d.raised ==> r == Recovered(t, true, s2))
      && (!c.raised && !d.raised ==> r == if s2.rows == [] then s2 else Exported(t, s2))
  {
  }

  /** The records both loops keep when they run through every account: the Clic+ records, then the CSR records. */
  function ScrapedRows(t: DoorTable, clicReply: string -> PageReply, csrReply: string -> PageReply): seq<Record> {
    var accts := AccountsOf(t.rows);
    Gots(Replies(clicReply), ClicAccounts(accts)) + Gots(Replies(csrReply), CsrAccounts(accts))
  }

  /** A loop that is never stopped and meets no exception finishes every account and keeps all their records. */
  lemma SweepCompletes(accts: seq<string>, reply: string -> Reply, started: nat, idx: nat, total: nat)
    requires forall a :: !reply(a).Raised?
    ensures var s := Sweep(accts, reply, None, started, idx, total);
      !s.raised && |s.events| == |accts| && s.rows == Gots(reply, accts)
      && s.started == started + |accts|
  {
    SweepFacts(accts, reply, None, started, idx, total);
    assert accts[..|accts|] == accts;
  }

  /** `detail_progress` 1, 2, ..., n out of n. */
  function Numbered(n: nat): (r: seq<DetailEvent>)
    ensures |r| == n
  {
    seq(n, k requires 0 <= k < n => DetailProgress(k + 1, n))
  }

  lemma NumberedOf(e: seq<DetailEvent>, n: nat)
    requires |e| == n && forall k :: 0 <= k < |e| ==> e[k] == DetailProgress(k + 1, n)
    ensures e == Numbered(n)
  {
  }

  /** The two loops over routed accounts, never stopped and meeting no exception, keep every record and report every account in order. */
  lemma BothSweepsComplete(accts: seq<string>, cr: string -> Reply, dr: string -> Reply)
    requires forall a :: !cr(a).Raised? && !dr(a).Raised?
    ensures var c := Sweep(ClicAccounts(accts), cr, None, 0, 1, |accts|);
      var d := Sweep(CsrAccounts(accts), dr, None, c.started, |ClicAccounts(accts)| + 1, |accts|);
      && !c.raised && !d.raised
      && c.rows + d.rows == Gots(cr, ClicAccounts(accts)) + Gots(dr, CsrAccounts(accts))
      && c.events + d.events == Numbered(|accts|)
  {
    var clic, csr := ClicAccounts(accts), CsrAccounts(accts);
    var c := Sweep(clic, cr, None, 0, 1, |accts|);
    var d := Sweep(csr, dr, None, c.started, |clic| + 1, |accts|);
    SweepCompletes(clic, cr, 0, 1, |accts|);
    SweepCompletes(csr, dr, c.started, |clic| + 1, |accts|);
    TwoSweepsNumbered(clic, csr, cr, dr, None, |accts|);
    RoutePartition(accts);
    NumberedOf(c.events + d.events, |accts|);
  }

  /**
    A job that runs to its end: the file is read, the browser starts, the
    login succeeds, no scrape raises, the stop flag is never set, the
    scraped accounts are unique, the door file has no phone or email column
    of its own, and something was scraped. It keeps every record of both
    loops, reports `detail_progress` 1, 2, ..., n out of the n accounts and
    then `detail_done` with the door count, writes exactly one workbook with
    one row per door, and sends no error event.
  */
  lemma JobCompletes(t: DoorTable, clicReply: string -> PageReply, csrReply: string -> PageReply, s: JobState)
    requires AccountKey in t.columns && PhoneKey !in t.columns && EmailKey !in t.columns
    requires AccountsOf(t.rows) != []
    requires forall a :: !clicReply(a).Crashed? && !csrReply(a).Crashed?
    requires UniqueKeys(s.rows + ScrapedRows(t, clicReply, csrReply))
    requires s.rows + ScrapedRows(t, clicReply, csrReply) != []
    ensures var rows := s.rows + ScrapedRows(t, clicReply, csrReply);
      var m := LeftJoin(t.rows, rows);
      var r := Job(t, true, true, true, clicReply, csrReply, None, s);
      && r.rows == rows
      && r.events == s.events + Numbered(|AccountsOf(t.rows)|) + [DetailDone(|t.rows|)]
      && r.workbooks == s.workbooks + [Template(m, MergedColumns(t.columns), false)]
      && |m| == |t.rows|
      && r.reports == s.reports + (if Missing(m) != [] then [Missing(m)] else [])
  {
    var accts := AccountsOf(t.rows);
    var rows := s.rows + ScrapedRows(t, clicReply, csrReply);
    var s2 := s.(rows := rows, events := s.events + Numbered(|accts|));
    ScrapingCompletes(t, accts, clicReply, csrReply, s);
    assert Job(t, true, true, true, clicReply, csrReply, None, s) == Scraping(t, accts, clicReply, csrReply, None, s);
    ExportedMerges(t, s2);
    LeftJoinUnique(t.rows, rows);
  }

  /** A back-end that never crashes gives the loop no exception. */
  lemma RepliesNeverRaise(f: string -> PageReply)
    requires forall a :: !f(a).Crashed?
    ensures forall a :: !Replies(f)(a).Raised?
  {
    forall a ensures !Replies(f)(a).Raised? {
      assert Replies(f)(a) == FromResult(f(a));
    }
  }

  /** When neither loop raises and something was kept, the scraping is followed by the export of what the loops kept. */
  lemma ScrapingExports(t: DoorTable, accts: seq<string>, clicReply: string -> PageReply, csrReply: string -> PageReply, s: JobState)
    requires var c := Sweep(ClicAccounts(accts), Replies(clicReply), None, 0, 1, |accts|);
      var d := Sweep(CsrAccounts(accts), Replies(csrReply), None, c.started, |ClicAccounts(accts)| + 1, |accts|);
      !c.raised && !d.raised && s.rows + c.rows + d.rows != []
    ensures var c := Sweep(ClicAccounts(accts), Replies(clicReply), None, 0, 1, |accts|);
      var d := Sweep(CsrAccounts(accts), Replies(csrReply), None, c.started, |ClicAccounts(accts)| + 1, |accts|);
      Scraping(t, accts, clicReply, csrReply, None, s)
      == Exported(t, s.(rows := s.rows + c.rows + d.rows, events := s.events + c.events + d.events))
  {
  }

  /** Both loops run through every account, and the export follows with everything they kept. */
  lemma ScrapingCompletes(t: DoorTable, accts: seq<string>, clicReply: string -> PageReply, csrReply: string -> PageReply, s: JobState)
    requires forall a :: !clicReply(a).Crashed? && !csrReply(a).Crashed?
    requires s.rows + Gots(Replies(clicReply), ClicAccounts(accts)) + Gots(Replies(csrReply), CsrAccounts(accts)) != []
    ensures Scraping(t, accts, clicReply, csrReply, None, s)
            == Exported(t, s.(rows := s.rows + (Gots(Replies(clicReply), ClicAccounts(accts)) + Gots(Replies(csrReply), CsrAccounts(accts))),
                              events := s.events + Numbered(|accts|)))
  {
    var cr, dr := Replies(clicReply), Replies(csrReply);
    RepliesNeverRaise(clicReply);
    RepliesNeverRaise(csrReply);
    BothSweepsComplete(accts, cr, dr);
    var c := Sweep(ClicAccounts(accts), cr, None, 0, 1, |accts|);
    var d := Sweep(CsrAccounts(accts), dr, None, c.started, |ClicAccounts(accts)| + 1, |accts|);
    assert s.rows + c.rows + d.rows == s.rows + (c.rows + d.rows);
    assert s.events + c.events + d.events == s.events + (c.events + d.events);
    ScrapingExports(t, accts, clicReply, csrReply, s);
  }

  /**
    With unique scraped accounts and a door file without its own phone or
    email column, the export writes one template row per door whose phone
    and email are the merged ones, writes the report of the doors still
    without a phone when there are any, and ends with `detail_done` and the
    door count, without the error event.
  */
  lemma ExportedMerges(t: DoorTable, s: JobState)
    requires PhoneKey !in t.columns && EmailKey !in t.columns
    requires UniqueKeys(s.rows)
    ensures Merge(t, s.rows).Ok?
    ensures var r := Exported(t, s);
      var m := Merge(t, s.rows).value;
      && r.rows == s.rows
      && r.events == s.events + [DetailDone(|t.rows|)]
      && r.workbooks == s.workbooks + [Template(m, MergedColumns(t.columns), false)]
      && |r.workbooks[|s.workbooks|]| == |t.rows|
      && (forall i :: 0 <= i < |t.rows| ==>
            i < |m| && PhoneKey in m[i] && EmailKey in m[i] &&
            r.workbooks[|s.workbooks|][i][2] == Some(m[i][PhoneKey]) && r.workbooks[|s.workbooks|][i][3] == Some(m[i][EmailKey]))
      && r.reports == s.reports + (if Missing(m) != [] then [Missing(m)] else [])
  {
    LeftJoinUnique(t.rows, s.rows);
    var m := Merge(t, s.rows).value;
    TemplateShape(m, MergedColumns(t.columns), false);
  }

  /**
    A repeated scraped account makes the checked merge raise; the recovery
    then joins without the check, so a door may get a row per matching
    record, and the job ends with `detail_done` with that row count and the
    error event.
  */
  lemma JobDuplicate(t: DoorTable, s: JobState)
    requires AccountKey in t.columns && PhoneKey !in t.columns && EmailKey !in t.columns
    requires s.rows != [] && !UniqueKeys(s.rows)
    ensures var r := Exported(t, s);
      var m := LeftJoin(t.rows, s.rows);
      && |m| >= |t.rows|
      && r.workbooks == s.workbooks + [Template(m, MergedColumns(t.columns), true)]
      && r.events == s.events + [DetailDone(|m|), DetailFailed]
      && r.reports == s.reports
  {
  }

  /** The scraper thread's state, as `run` leaves it. */
  class Detail {
    var rows: seq<Record>
    var events: seq<DetailEvent>
    var workbooks: seq<Workbook>
    var reports: seq<seq<map<string, string>>>

    constructor()
      ensures rows == [] && events == [] && workbooks == [] && reports == []
    {
      rows := [];
      events := [];
      workbooks := [];
      reports := [];
    }

    function State(): JobState
      reads this
    {
      JobState(rows, events, workbooks, reports)
    }

    method SetState(s: JobState)
      modifies this
      ensures State() == s
    {
      rows, events, workbooks, reports := s.rows, s.events, s.workbooks, s.reports;
    }

    /** One scraping loop: each account's record appended to `rows`, each finished account's progress event to `events`. */
    method SweepAccounts(accts: seq<string>, reply: string -> Reply, stopAfter: Option<nat>, started0: nat, idx0: nat, total: nat)
      returns (started: nat, raised: bool)
      modifies this`rows, this`events
      ensures var s := Sweep(accts, reply, stopAfter, started0, idx0, total);
        rows == old(rows) + s.rows && events == old(events) + s.events && started == s.started && raised == s.raised
    {
      var got, reported;
      got, reported, started, raised := ScrapeAccounts(accts, reply, stopAfter, started0, idx0, total);
      rows := rows + got;
      events := events + reported;
    }

    /** The two loops of `run`, the merge and the export, or the `except` branch when a scrape in either loop raises. */
    method ScrapeAll(t: DoorTable, accts: seq<string>, clicReply: string -> PageReply, csrReply: string -> PageReply,
                     stopAfter: Option<nat>)
      modifies this
      ensures State() == Scraping(t, accts, clicReply, csrReply, stopAfter, old(State()))
    {
      var clic := ClicAccounts(accts);
      var csr := CsrAccounts(accts);
      ghost var s0 := State();
      ghost var c := Sweep(clic, Replies(clicReply), stopAfter, 0, 1, |accts|);
      var started, raised := SweepAccounts(clic, Replies(clicReply), stopAfter, 0, 1, |accts|);
      ghost var s1 := s0.(rows := s0.rows + c.rows, events := s0.events + c.events);
      assert State() == s1;
      if raised {
        SetState(Recovered(t, true, State()));
        return;
      }
      ghost var d := Sweep(csr, Replies(csrReply), stopAfter, c.started, |clic| + 1, |accts|);
      started, raised := SweepAccounts(csr, Replies(csrReply), stopAfter, started, |clic| + 1, |accts|);
      assert State() == s1.(rows := s1.rows + d.rows, events := s1.events + d.events);
      if raised {
        SetState(Recovered(t, true, State()));
        return;
      }
      if rows == [] {
        return;
      }
      SetState(Exported(t, State()));
    }

    /** `ClicDetailScraper.run`. */
    method Run(t: DoorTable, readOk: bool, driverOk: bool, loginOk: bool,
               clicReply: string -> PageReply, csrReply: string -> PageReply, stopAfter: Option<nat>)
      modifies this
      ensures State() == Job(t, readOk, driverOk, loginOk, clicReply, csrReply, stopAfter, old(State()))
    {
      if !readOk || AccountKey !in t.columns {
        SetState(Recovered(t, readOk, State()));
        return;
      }
      var accts := AccountsOf(t.rows);
      if accts == [] {
        events := events + [DetailFailed];
        return;
      }
      if !driverOk {
        SetState(Recovered(t, true, State()));
        return;
      }
      if ClicAccounts(accts) != [] && !loginOk {
        SetState(Recovered(t, true, State()));
        return;
      }
      ScrapeAll(t, accts, clicReply, csrReply, stopAfter);
    }
  }
}
