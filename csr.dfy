/**
  The parsing part of `ClicDetailScraper._scrape_csr`: the navigation steps
  each run through `_with_retries`, the key/value entries of the customer
  panel, and the phone and email taken from them.
*/
module CsrPage {
  import opened Wrappers
  import opened Text
  import opened Fields
  import opened Retry
  import opened ClicPage
  import opened Accounts

  const PrimaryPhoneKey: string := "NUM\U{00C9}RO DE T\U{00C9}L\U{00C9}PHONE PRINCIPAL"
  const UserNameKey: string := "NOM D'UTILISATEUR"
  const MobilePrefix: string := "Mobile - "

  /** One `atoms-key-value` element: its key text, its value's `title` attribute (absent or a string) and its value text; `Unreadable` when the key or value `li` is missing. */
  datatype CsrEntry = KeyValue(key: string, title: Option<string>, text: string) | Unreadable

  /** `val_el.get_attribute("title") or val_el.text.strip()`: a non-empty title wins, otherwise the stripped text. */
  function EntryValue(title: Option<string>, text: string): (r: string)
    ensures title.Some? && title.value != [] ==> r == title.value
    ensures title.None? || title.value == [] ==> r == Strip(text)
  {
    match title
    case Some(t) => if t != [] then t else Strip(text)
    case None => Strip(text)
  }

  /** The assignment one readable entry makes: `out[key.strip()] = val`. */
  function EntryPair(e: CsrEntry): (string, string) {
    match e
    case KeyValue(key, title, text) => (Strip(key), EntryValue(title, text))
    case Unreadable => ([], [])
  }

  predicate Readable(entries: seq<CsrEntry>) {
    forall i :: 0 <= i < |entries| ==> entries[i].KeyValue?
  }

  /** The assignments the entry loop makes, in order. */
  function EntryPairs(entries: seq<CsrEntry>): (r: seq<(string, string)>)
    ensures |r| == |entries|
  {
    if entries == [] then [] else [EntryPair(entries[0])] + EntryPairs(entries[1..])
  }

  /** The `i`-th assignment is that of the `i`-th entry. */
  lemma {:induction false} EntryPairsAt(entries: seq<CsrEntry>, i: nat)
    requires i < |entries|
    ensures EntryPairs(entries)[i] == EntryPair(entries[i])
    decreases i
  {
    if i > 0 {
      EntryPairsAt(entries[1..], i - 1);
      assert entries[1..][i - 1] == entries[i];
    }
  }

  /** The record `m` after the entries, or `None` when one of them cannot be read (the whole scrape then returns `None`). */
  function FoldEntries(m: map<string, string>, entries: seq<CsrEntry>): Option<map<string, string>>
    decreases |entries|
  {
    if entries == [] then Some(m)
    else match entries[0]
      case Unreadable => None
      case KeyValue(_, _, _) =>
        var kv := EntryPair(entries[0]);
        FoldEntries(m[kv.0 := kv.1], entries[1..])
  }

  function CsrFields(account: string, entries: seq<CsrEntry>): Option<map<string, string>> {
    FoldEntries(Seed(account), entries)
  }

  /** The entry loop `for kv in entries: ... out[key] = val`. */
  method ParseEntries(account: string, entries: seq<CsrEntry>) returns (r: Option<map<string, string>>)
    ensures r == CsrFields(account, entries)
  {
    var out := Seed(account);
    var i := 0;
    while i < |entries|
      invariant 0 <= i <= |entries|
      invariant FoldEntries(out, entries[i..]) == CsrFields(account, entries)
    {
      assert entries[i..][0] == entries[i] && entries[i..][1..] == entries[i + 1..];
      match entries[i] {
        case Unreadable =>
          return None;
        case KeyValue(_, _, _) =>
          var kv := EntryPair(entries[i]);
          out := out[kv.0 := kv.1];
      }
      i := i + 1;
    }
    return Some(out);
  }

  /** With every entry readable, the fold assigns the entries' pairs in order. */
  lemma {:induction false} FoldReadable(m: map<string, string>, entries: seq<CsrEntry>)
    requires Readable(entries)
    ensures FoldEntries(m, entries) == Some(Assign(m, EntryPairs(entries)))
    decreases |entries|
  {
    if entries != [] {
      var tail := entries[1..];
      assert forall i :: 0 <= i < |tail| ==> tail[i] == entries[i + 1];
      var kv := EntryPair(entries[0]);
      FoldReadable(m[kv.0 := kv.1], tail);
      var ps := EntryPairs(entries);
      assert ps[0] == kv && ps[1..] == EntryPairs(tail);
    }
  }

  /** An unreadable entry anywhere makes the fold fail. */
  lemma {:induction false} FoldUnreadable(m: map<string, string>, entries: seq<CsrEntry>, j: nat)
    requires j < |entries| && entries[j].Unreadable?
    ensures FoldEntries(m, entries) == None
    decreases j
  {
    if j > 0 && entries[0].KeyValue? {
      var kv := EntryPair(entries[0]);
      assert entries[1..][j - 1] == entries[j];
      FoldUnreadable(m[kv.0 := kv.1], entries[1..], j - 1);
    }
  }

  /** Reading the entries is assigning their pairs in order when every entry is readable, and fails otherwise. */
  lemma FoldEntriesIsAssign(m: map<string, string>, entries: seq<CsrEntry>)
    ensures Readable(entries) ==> FoldEntries(m, entries) == Some(Assign(m, EntryPairs(entries)))
    ensures !Readable(entries) ==> FoldEntries(m, entries) == None
  {
    if Readable(entries) {
      FoldReadable(m, entries);
    } else {
      var j :| 0 <= j < |entries| && !entries[j].KeyValue?;
      FoldUnreadable(m, entries, j);
    }
  }

  /** The keys of the CSR record: the account key and the stripped entry keys. */
  lemma CsrFieldsKeys(account: string, entries: seq<CsrEntry>, k: string)
    requires Readable(entries)
    ensures CsrFields(account, entries).Some?
    ensures k in CsrFields(account, entries).value <==>
              k == AccountKey || exists i :: 0 <= i < |entries| && Strip(entries[i].key) == k
  {
    var m := Seed(account);
    var ps := EntryPairs(entries);
    FoldEntriesIsAssign(m, entries);
    forall i | 0 <= i < |entries| ensures ps[i].0 == Strip(entries[i].key) {
      EntryPairsAt(entries, i);
    }
    assert k in m <==> k == AccountKey;
    AssignKeys(m, ps, k);
  }

  /** The value of a key in the CSR record is that of its last entry. */
  lemma CsrFieldsLast(account: string, entries: seq<CsrEntry>, i: nat)
    requires Readable(entries) && i < |entries|
    requires forall j :: i < j < |entries| ==> Strip(entries[j].key) != Strip(entries[i].key)
    ensures CsrFields(account, entries).Some?
    ensures Strip(entries[i].key) in CsrFields(account, entries).value
    ensures CsrFields(account, entries).value[Strip(entries[i].key)] == EntryValue(entries[i].title, entries[i].text)
  {
    var ps := EntryPairs(entries);
    FoldEntriesIsAssign(Seed(account), entries);
    forall j | i <= j < |entries| ensures ps[j] == EntryPair(entries[j]) {
      EntryPairsAt(entries, j);
    }
    AssignLast(Seed(account), ps, i);
  }

  /** The CSR record: the account key, the stripped entry keys, each with the value of its last entry. */
  lemma CsrFieldsMeaning(account: string, entries: seq<CsrEntry>, k: string)
    requires Readable(entries)
    ensures CsrFields(account, entries).Some?
    ensures k in CsrFields(account, entries).value <==>
              k == AccountKey || exists i :: 0 <= i < |entries| && Strip(entries[i].key) == k
    ensures forall i :: 0 <= i < |entries| && Strip(entries[i].key) == k
                        && (forall j :: i < j < |entries| ==> Strip(entries[j].key) != k) ==>
              CsrFields(account, entries).value[k] == EntryValue(entries[i].title, entries[i].text)
  {
    CsrFieldsKeys(account, entries, k);
    forall i | 0 <= i < |entries| && Strip(entries[i].key) == k
               && (forall j :: i < j < |entries| ==> Strip(entries[j].key) != k)
      ensures CsrFields(account, entries).value[k] == EntryValue(entries[i].title, entries[i].text)
    {
      CsrFieldsLast(account, entries, i);
    }
  }

  /** `out.get("NUMÉRO DE TÉLÉPHONE PRINCIPAL", "N/A").replace("Mobile - ", "").strip()`. */
  function CsrPhone(rec: map<string, string>): (r: string)
    ensures IsStripped(r)
  {
    Strip(RemoveAll(if PrimaryPhoneKey in rec then rec[PrimaryPhoneKey] else NA, MobilePrefix))
  }

  /** `out.get("NOM D'UTILISATEUR", "N/A")`. */
  function CsrEmail(rec: map<string, string>): string {
    if UserNameKey in rec then rec[UserNameKey] else NA
  }

  /** The record with its `Téléphone` and `Courriel`. */
  function WithCsrContact(rec: map<string, string>): map<string, string> {
    rec[PhoneKey := CsrPhone(rec)][EmailKey := CsrEmail(rec)]
  }

  lemma NAHasNoMobilePrefix()
    ensures !Contains(NA, MobilePrefix)
  {
    ShorterNotContains(NA, MobilePrefix);
  }

  /** Without a primary phone entry the phone is `"N/A"`, without a user-name entry so is the email. */
  lemma CsrContactAbsent(rec: map<string, string>)
    ensures PrimaryPhoneKey !in rec ==> CsrPhone(rec) == NA
    ensures UserNameKey !in rec ==> CsrEmail(rec) == NA
  {
    NAHasNoMobilePrefix();
    RemoveAllAbsent(NA, MobilePrefix);
    StripOfStripped(NA);
  }

  /** A primary phone shown as `Mobile - <number>` yields the stripped number. */
  lemma CsrPhoneOfMobile(rec: map<string, string>, number: string)
    requires PrimaryPhoneKey in rec && rec[PrimaryPhoneKey] == MobilePrefix + number
    requires !Contains(number, MobilePrefix)
    ensures CsrPhone(rec) == Strip(number)
  {
    RemoveAllLeading(MobilePrefix, number);
    RemoveAllAbsent(number, MobilePrefix);
  }

  /** A primary phone without the prefix is only stripped. */
  lemma CsrPhonePlain(rec: map<string, string>)
    requires PrimaryPhoneKey in rec && !Contains(rec[PrimaryPhoneKey], MobilePrefix)
    ensures CsrPhone(rec) == Strip(rec[PrimaryPhoneKey])
  {
    RemoveAllAbsent(rec[PrimaryPhoneKey], MobilePrefix);
  }

  /** The retried steps of a CSR scrape: the modal and user-icon steps, locating `custId`, typing the customer id into it, then the steps after. */
  function CsrSteps(account: string, before: seq<nat -> Outcome<()>>, fill: string -> nat -> Outcome<()>,
                    after: seq<nat -> Outcome<()>>): seq<nat -> Outcome<()>> {
    before + [fill(LastSeven(account))] + after
  }

  /** Every step succeeds within the three tries of `_with_retries`. */
  predicate StepsDone(steps: seq<nat -> Outcome<()>>) {
    forall i :: 0 <= i < |steps| ==> FirstDone(steps[i], 1, 3).Some?
  }

  /**
    `_scrape_csr(account)`. `dashboard` is the load of the dashboard page,
    which no handler guards; `modalOk` says whether the postal-code modal
    appeared; `before` are the navigation steps up to locating the `custId`
    field, `fill` is typing a text into it and `after` the steps that
    follow (ENTER, the collapse panel), each retried by `_with_retries`;
    `entries` are the panel's key/value elements.
  */
  method ScrapeCsr(account: string, dashboard: Outcome<()>, modalOk: bool, before: seq<nat -> Outcome<()>>,
                   fill: string -> nat -> Outcome<()>, after: seq<nat -> Outcome<()>>, entries: seq<CsrEntry>)
    returns (r: ScrapeResult)
    ensures r.Crashed? <==> dashboard.Threw?
    ensures r.Crashed? ==> r.error == dashboard.error
    ensures r.Scraped? <==>
              dashboard.Done? && modalOk && StepsDone(CsrSteps(account, before, fill, after))
              && CsrFields(account, entries).Some?
    ensures r.Scraped? ==> r.fields == WithCsrContact(CsrFields(account, entries).value) && AccountKey in r.fields
  {
    if dashboard.Threw? {
      return Crashed(dashboard.error);
    }
    if !modalOk {
      return NoRecord;
    }
    var steps := before + [fill(LastSeven(account))] + after;
    var i := 0;
    while i < |steps|
      invariant 0 <= i <= |steps|
      invariant forall j :: 0 <= j < i ==> FirstDone(steps[j], 1, 3).Some?
    {
      var v, calls, sleeps, log := WithRetries(steps[i]);
      CatchAllFindsFirstDone(WithRetriesPolicy, steps[i], v, calls, sleeps);
      if !v.Returned? {
        return NoRecord;
      }
      i := i + 1;
    }
    var parsed := ParseEntries(account, entries);
    match parsed {
      case None =>
        return NoRecord;
      case Some(out) =>
        FoldEntriesIsAssign(Seed(account), entries);
        return Scraped(WithCsrContact(out));
    }
  }
}
