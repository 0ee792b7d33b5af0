/**
  The parsing part of `ClicDetailScraper._scrape_one`: the header of the
  Clic+ result page read as interleaved label/value lines, the
  "phone loaded" poll on the contact block, and the extraction of the email
  and phone from that block, composed into one account scrape. Browser
  interactions are abstract outcomes indexed by the 1-based call number.
*/
module ClicPage {
  import opened Wrappers
  import opened Text
  import opened Fields
  import opened Retry

  const AccountKey: string := "Compte client"
  const EmailKey: string := "Courriel"
  const PhoneKey: string := "T\U{00E9}l\U{00E9}phone"
  /** The sentinel for a missing value. */
  const NA: string := "N/A"

  // ---- the header ----------------------------------------------------

  /** The record seeded with the account, before the header is read. */
  function Seed(account: string): map<string, string> {
    map[AccountKey := account]
  }

  /** The record after the header lines: every even line labels the line after it, later labels overwrite earlier ones. */
  function HeaderFields(account: string, lines: seq<string>): map<string, string> {
    Assign(Seed(account), Pairs(lines))
  }

  /** Line `i` of `lines` is a label the loop visits: even, and followed by a value line. */
  predicate LabelAt(lines: seq<string>, i: int) {
    0 <= i && i % 2 == 0 && i + 1 < |lines|
  }

  /** The header block: `lines = [l.strip() for l in header.text.splitlines() if l.strip()]`, then the pairing loop. */
  method ParseHeader(account: string, text: string) returns (out: map<string, string>)
    ensures out == HeaderFields(account, Parts(text))
  {
    var lines := Parts(text);
    out := ParseHeaderLines(account, lines);
  }

  /** The header loop `for i in range(0, len(lines) - 1, 2): out[lines[i]] = lines[i + 1]`. */
  method ParseHeaderLines(account: string, lines: seq<string>) returns (out: map<string, string>)
    ensures out == HeaderFields(account, lines)
  {
    out := Seed(account);
    var i := 0;
    while i + 1 < |lines|
      invariant 0 <= i <= |lines| && i % 2 == 0
      invariant Assign(out, Pairs(lines[i..])) == HeaderFields(account, lines)
    {
      assert lines[i..][2..] == lines[i + 2..];
      assert Pairs(lines[i..]) == [(lines[i], lines[i + 1])] + Pairs(lines[i + 2..]);
      assert ([(lines[i], lines[i + 1])] + Pairs(lines[i + 2..]))[1..] == Pairs(lines[i + 2..]);
      out := out[lines[i] := lines[i + 1]];
      i := i + 2;
    }
  }

  /** The header record holds the account key and the visited labels, and nothing else; a trailing unpaired line is not a key unless it is also a label. */
  lemma HeaderKeys(account: string, lines: seq<string>, k: string)
    ensures k in HeaderFields(account, lines) <==>
              k == AccountKey || exists i :: LabelAt(lines, i) && lines[i] == k
  {
    var ps := Pairs(lines);
    AssignKeys(Seed(account), ps, k);
    if exists p :: 0 <= p < |ps| && ps[p].0 == k {
      var p :| 0 <= p < |ps| && ps[p].0 == k;
      assert LabelAt(lines, 2 * p) && lines[2 * p] == k;
    }
    if exists i :: LabelAt(lines, i) && lines[i] == k {
      var i :| LabelAt(lines, i) && lines[i] == k;
      assert ps[i / 2].0 == k;
    }
  }

  /** A label's value is the line after its last occurrence as a label. */
  lemma HeaderLastWins(account: string, lines: seq<string>, i: int)
    requires LabelAt(lines, i)
    requires forall j :: i < j && LabelAt(lines, j) ==> lines[j] != lines[i]
    ensures lines[i] in HeaderFields(account, lines) && HeaderFields(account, lines)[lines[i]] == lines[i + 1]
  {
    var ps := Pairs(lines);
    forall q | i / 2 < q < |ps|
      ensures ps[q].0 != ps[i / 2].0
    {
      assert LabelAt(lines, 2 * q);
    }
    AssignLast(Seed(account), ps, i / 2);
  }

  /** The seeded account number survives unless a label overwrites it. */
  lemma HeaderSeedSurvives(account: string, lines: seq<string>)
    requires forall i :: LabelAt(lines, i) ==> lines[i] != AccountKey
    ensures HeaderFields(account, lines)[AccountKey] == account
  {
    var ps := Pairs(lines);
    forall q | 0 <= q < |ps|
      ensures ps[q].0 != AccountKey
    {
      assert LabelAt(lines, 2 * q);
    }
    AssignUntouched(Seed(account), ps, AccountKey);
  }

  // ---- the two phone patterns -----------------------------------------

  /** `n` ASCII digits start at `i`. */
  predicate DigitsAt(s: string, i: nat, n: nat) {
    i + n <= |s| && forall k :: i <= k < i + n ==> IsDigit(s[k])
  }

  /** The regex class `[\s\-]` matches at `j`. */
  predicate SepAt(s: string, j: nat) {
    j < |s| && (IsSpace(s[j]) || s[j] == '-')
  }

  /** `\d{3}[\s\-]?\d{4}` matches at `j`. */
  predicate PhoneTailAt(s: string, j: nat) {
    DigitsAt(s, j, 3) && (DigitsAt(s, j + 3, 4) || (SepAt(s, j + 3) && DigitsAt(s, j + 4, 4)))
  }

  /** `\d{3}[\s\-]?\d{3}[\s\-]?\d{4}` matches at `i`. */
  predicate PhoneAt(s: string, i: nat) {
    DigitsAt(s, i, 3) && (PhoneTailAt(s, i + 3) || (SepAt(s, i + 3) && PhoneTailAt(s, i + 4)))
  }

  /** `re.search(r"\d{3}[\s\-]?\d{3}[\s\-]?\d{4}", s)` succeeds: the phone shape of the extraction. */
  predicate HasPhone(s: string) {
    exists i :: 0 <= i < |s| && PhoneAt(s, i)
  }

  /** `\s*\d{3}-\d{4}` matches at `j`. */
  predicate GateTailAt(s: string, j: nat)
    decreases |s| - j
  {
    (DigitsAt(s, j, 3) && j + 3 < |s| && s[j + 3] == '-' && DigitsAt(s, j + 4, 4))
    || (j < |s| && IsSpace(s[j]) && GateTailAt(s, j + 1))
  }

  /** `\d{3}\s*\d{3}-\d{4}` matches at `i`. */
  predicate GateAt(s: string, i: nat) {
    DigitsAt(s, i, 3) && GateTailAt(s, i + 3)
  }

  /** `re.search(r"\d{3}\s*\d{3}-\d{4}", txt)` succeeds: the shape `phone_loaded` waits for. */
  predicate HasGate(s: string) {
    exists i :: 0 <= i < |s| && GateAt(s, i)
  }

  /** A phone-shaped match needs at least ten characters from where it starts: three, three and four digits. */
  lemma PhoneSpan(s: string, i: nat)
    requires PhoneAt(s, i)
    ensures i + 10 <= |s|
  {
  }

  /** A gate match whose gap is empty or one whitespace character is also a phone-shaped match. */
  lemma NarrowGateIsPhone(s: string, i: nat)
    requires GateAt(s, i)
    requires !(i + 3 < |s| && IsSpace(s[i + 3]) && i + 4 < |s| && IsSpace(s[i + 4]))
    ensures PhoneAt(s, i)
  {
    if i + 3 < |s| && IsSpace(s[i + 3]) {
      assert GateTailAt(s, i + 4);
    }
  }

  /** The gate looks across line breaks: `418` and `588-4462` on separate lines pass it. */
  lemma GateCrossesLines()
    ensures HasGate("418\n588-4462")
  {
    var s := "418\n588-4462";
    assert GateTailAt(s, 4);
    assert GateTailAt(s, 3);
    assert GateAt(s, 0);
  }

  /** A line shorter than ten characters is never phone-shaped. */
  lemma ShortIsNotPhone(p: string)
    requires |p| < 10
    ensures !HasPhone(p)
  {
    forall j | 0 <= j < |p|
      ensures !PhoneAt(p, j)
    {
      if PhoneAt(p, j) {
        PhoneSpan(p, j);
      }
    }
  }

  lemma BlockLines()
    ensures Parts("418\n588-4462") == ["418", "588-4462"]
  {
    var a, b := "418", "588-4462";
    assert "418\n588-4462" == a + ['\n'] + b;
    assert IsStripped(a) && IsStripped(b);
    PartsTwoLines(a, '\n', b);
  }

  /** For the block `418\n588-4462` the poll reports a phone, yet no single line is phone-shaped, so `Téléphone` becomes `"N/A"`. */
  lemma GatePassesExtractionFails()
    ensures HasGate("418\n588-4462")
    ensures LastPhone(Parts("418\n588-4462")) == []
  {
    GateCrossesLines();
    BlockHasNoPhone();
  }

  /** Neither line of the block `418\n588-4462` is phone-shaped. */
  lemma BlockHasNoPhone()
    ensures LastPhone(Parts("418\n588-4462")) == []
  {
    BlockLines();
    ShortPairNoPhone("418", "588-4462");
  }

  /** Two parts both shorter than ten characters yield no phone. */
  lemma ShortPairNoPhone(a: string, b: string)
    requires |a| < 10 && |b| < 10
    ensures LastPhone([a, b]) == []
  {
    ShortIsNotPhone(a);
    ShortIsNotPhone(b);
    var ps := [a, b];
    assert ps[0] == a && ps[1] == b;
  }

  /** The gate needs the dash, the extraction does not: `418 588 4462` is phone-shaped but never passes the gate. */
  lemma GateNeedsDash()
    ensures HasPhone("418 588 4462") && !HasGate("418 588 4462")
  {
    var s := "418 588 4462";
    assert PhoneAt(s, 0);
    forall i | 0 <= i < |s|
      ensures !GateAt(s, i)
    {
      if GateAt(s, i) {
        GateDash(s, i + 3);
      }
    }
  }

  /** A gate tail ends in a dash seven characters before some match end, so a string with no dash has no gate match. */
  lemma {:induction false} GateDash(s: string, j: nat)
    requires GateTailAt(s, j)
    ensures '-' in s
    decreases |s| - j
  {
    if DigitsAt(s, j, 3) && j + 3 < |s| && s[j + 3] == '-' && DigitsAt(s, j + 4, 4) {
      assert s[j + 3] in s;
    } else {
      GateDash(s, j + 1);
    }
  }

  // ---- the "phone loaded" poll ------------------------------------------

  /** What one call of `phone_loaded` observes. */
  datatype Check = Loaded | NotYet | Broke(error: ErrorKind)

  /** `phone_loaded`: a missing contact block is "not yet", any other exception escapes, a text is loaded when it passes the gate. */
  function CheckContact(o: Outcome<string>): Check {
    match o
    case Threw(NoSuchElement) => NotYet
    case Threw(e) => Broke(e)
    case Done(txt) => if HasGate(txt) then Loaded else NotYet
  }

  datatype PollVerdict = PhoneShown | PhoneMissing | PollRaised(error: ErrorKind)

  const PollTries: nat := 3

  /** The poll from try `k` (0-based) on: the first check that is not "not yet" decides, and three "not yet" mean missing. */
  function PollFrom(read: nat -> Outcome<string>, k: nat): PollVerdict
    decreases PollTries - k
  {
    if k >= PollTries then PhoneMissing
    else match CheckContact(read(k + 1))
      case Loaded => PhoneShown
      case Broke(e) => PollRaised(e)
      case NotYet => PollFrom(read, k + 1)
  }

  /** The three polls: after a "not yet" at try `k` the loop sleeps `5 * k` seconds, including after the third. */
  method PollPhone(read: nat -> Outcome<string>) returns (r: PollVerdict, polls: nat, sleeps: seq<nat>)
    ensures r == PollFrom(read, 0)
    ensures 1 <= polls <= PollTries
    ensures forall k :: 1 <= k < polls ==> CheckContact(read(k)) == NotYet
    ensures r == PhoneMissing <==> CheckContact(read(polls)) == NotYet
    ensures |sleeps| == if r == PhoneMissing then PollTries else polls - 1
    ensures forall k :: 0 <= k < |sleeps| ==> sleeps[k] == 5000 * (k + 1)
  {
    polls, sleeps := 0, [];
    r := PhoneMissing;
    var retry := 0;
    while retry < PollTries
      invariant 0 <= retry <= PollTries && polls == retry
      invariant PollFrom(read, retry) == PollFrom(read, 0)
      invariant forall k :: 1 <= k <= polls ==> CheckContact(read(k)) == NotYet
      invariant |sleeps| == retry
      invariant forall k :: 0 <= k < |sleeps| ==> sleeps[k] == 5000 * (k + 1)
    {
      polls := retry + 1;
      var c := CheckContact(read(retry + 1));
      if c == Loaded {
        r := PhoneShown;
        return;
      } else if c.Broke? {
        r := PollRaised(c.error);
        return;
      }
      sleeps := sleeps + [5000 * (retry + 1)];
      retry := retry + 1;
    }
  }

  /** The poll reports a phone exactly when some try passes the gate before any exception other than a missing block. */
  lemma {:induction false} PollShownIff(read: nat -> Outcome<string>, k: nat)
    requires k <= PollTries
    ensures PollFrom(read, k) == PhoneShown <==>
              exists j :: k < j <= PollTries && CheckContact(read(j)) == Loaded
                          && forall i :: k < i < j ==> CheckContact(read(i)) == NotYet
    decreases PollTries - k
  {
    if k < PollTries {
      PollShownIff(read, k + 1);
      if CheckContact(read(k + 1)) == NotYet {
        if exists j :: k + 1 < j <= PollTries && CheckContact(read(j)) == Loaded
                       && forall i :: k + 1 < i < j ==> CheckContact(read(i)) == NotYet {
          var j :| k + 1 < j <= PollTries && CheckContact(read(j)) == Loaded
                   && forall i :: k + 1 < i < j ==> CheckContact(read(i)) == NotYet;
          assert forall i :: k < i < j ==> CheckContact(read(i)) == NotYet;
        }
      }
    }
  }

  // ---- contact extraction -------------------------------------------------

  predicate HasAt(p: string) {
    '@' in p
  }

  /** `next((p for p in parts if "@" in p), "")`. */
  function FirstEmail(parts: seq<string>): (r: string)
    ensures r == [] <==> forall i :: 0 <= i < |parts| ==> !HasAt(parts[i])
    ensures r != [] ==> exists i :: 0 <= i < |parts| && parts[i] == r && HasAt(r)
                                   && forall j :: 0 <= j < i ==> !HasAt(parts[j])
  {
    if parts == [] then []
    else if HasAt(parts[0]) then parts[0]
    else
      var r := FirstEmail(parts[1..]);
      assert forall i :: 1 <= i < |parts| ==> parts[i] == parts[1..][i - 1];
      r
  }

  /** `next((p for p in reversed(parts) if re.search(phone, p)), "")`. */
  function LastPhone(parts: seq<string>): (r: string)
    ensures r == [] <==> forall i :: 0 <= i < |parts| ==> !HasPhone(parts[i])
  {
    if parts == [] then []
    else if HasPhone(parts[|parts| - 1]) then parts[|parts| - 1]
    else
      var init := parts[..|parts| - 1];
      assert forall i :: 0 <= i < |init| ==> parts[i] == init[i];
      LastPhone(init)
  }

  /** A phone found is the last phone-shaped part: no later part is phone-shaped. */
  lemma {:induction false} LastPhoneIsLast(parts: seq<string>)
    ensures var r := LastPhone(parts);
      r != [] ==> exists i :: 0 <= i < |parts| && parts[i] == r && HasPhone(r)
                              && forall j :: i < j < |parts| ==> !HasPhone(parts[j])
  {
    if parts != [] && !HasPhone(parts[|parts| - 1]) {
      var init := parts[..|parts| - 1];
      LastPhoneIsLast(init);
      if LastPhone(init) != [] {
        var i :| 0 <= i < |init| && init[i] == LastPhone(init) && HasPhone(init[i])
                 && forall j :: i < j < |init| ==> !HasPhone(init[j]);
        assert LastPhone(parts) == LastPhone(init) && parts[i] == init[i];
        forall j | i < j < |parts|
          ensures !HasPhone(parts[j])
        {
          if j < |parts| - 1 {
            assert parts[j] == init[j];
          }
        }
      }
    }
  }

  /** Python's `s or "N/A"`. */
  function OrNA(s: string): (r: string)
    ensures r == NA || r == s
    ensures r == NA <==> s == [] || s == NA
  {
    if s == [] then NA else s
  }

  /** The record with `Courriel` and `Téléphone` taken from the contact block's parts. */
  function WithContact(m: map<string, string>, parts: seq<string>): map<string, string> {
    m[EmailKey := OrNA(FirstEmail(parts))][PhoneKey := OrNA(LastPhone(parts))]
  }

  lemma NANotContact()
    ensures !HasAt(NA) && !HasPhone(NA)
  {
    assert forall k :: 0 <= k < |NA| ==> NA[k] != '@';
    forall i | 0 <= i < |NA|
      ensures !PhoneAt(NA, i)
    {
      if PhoneAt(NA, i) {
        PhoneSpan(NA, i);
      }
    }
  }

  /** The contact record: `Courriel` is the first part holding `@`, `Téléphone` the last phone-shaped part, each `"N/A"` when there is none; the rest of the record is unchanged. */
  lemma ContactFields(m: map<string, string>, parts: seq<string>)
    ensures var r := WithContact(m, parts);
            && EmailKey in r && PhoneKey in r
            && (r[EmailKey] == NA <==> forall i :: 0 <= i < |parts| ==> !HasAt(parts[i]))
            && (r[EmailKey] != NA ==> HasAt(r[EmailKey]) && r[EmailKey] in parts)
            && (r[PhoneKey] == NA <==> forall i :: 0 <= i < |parts| ==> !HasPhone(parts[i]))
            && (r[PhoneKey] != NA ==> HasPhone(r[PhoneKey]) && r[PhoneKey] in parts)
            && forall k :: k in m && k != EmailKey && k != PhoneKey ==> k in r && r[k] == m[k]
  {
    NANotContact();
    LastPhoneIsLast(parts);
  }

  // ---- one account ------------------------------------------------------

  /** How a page scrape ends: a record, `None`, or an exception it lets through. */
  datatype ScrapeResult = Scraped(fields: map<string, string>) | NoRecord | Crashed(error: ErrorKind)

  /**
    The search reaches the header wait: the account input became clickable,
    or its wait timed out and reopening the panel brought it back; then the
    account was typed and `Rechercher` clicked.
  */
  predicate SearchDone(input: Outcome<()>, reopenOk: bool, searchOk: bool) {
    (input.Done? || (input.error == Timeout && reopenOk)) && searchOk
  }

  /** The input wait failed with something other than a timeout: only `TimeoutException` is caught there. */
  predicate InputEscapes(input: Outcome<()>) {
    input.Threw? && input.error != Timeout
  }

  /**
    `_scrape_one(account)`. `input` is the first wait for the account input;
    `reopenOk` says whether reopening the panel after a timeout worked;
    `searchOk` whether the account could be typed and searched; `header` is
    the header wait (each try succeeds or raises); `text` is the read of the
    header's text; `contact` is the poll's view of the contact block; `block`
    is the final read of that block.
  */
  method ScrapeOne(account: string, input: Outcome<()>, reopenOk: bool, searchOk: bool,
                   header: nat -> Outcome<()>, text: Outcome<string>,
                   contact: nat -> Outcome<string>, block: Outcome<string>) returns (r: ScrapeResult)
    ensures r.Scraped? <==>
              SearchDone(input, reopenOk, searchOk) && FirstDone(header, 1, 3).Some? && text.Done?
              && PollFrom(contact, 0) == PhoneShown && block.Done?
    ensures r.Crashed? <==>
              InputEscapes(input)
              || (SearchDone(input, reopenOk, searchOk) && FirstDone(header, 1, 3).Some? && text.Done?
                  && PollFrom(contact, 0).PollRaised?)
    ensures r.Crashed? ==> r.error == if InputEscapes(input) then input.error else PollFrom(contact, 0).error
    ensures r.Scraped? ==>
              r.fields == WithContact(HeaderFields(account, Parts(text.value)), Parts(block.value))
              && AccountKey in r.fields
  {
    if InputEscapes(input) {
      return Crashed(input.error);
    }
    if !SearchDone(input, reopenOk, searchOk) {
      return NoRecord;
    }
    var v, calls, sleeps := Attempt(HeaderWaitPolicy, header);
    CatchAllFindsFirstDone(HeaderWaitPolicy, header, v, calls, sleeps);
    if !v.Returned? || text.Threw? {
      return NoRecord;
    }
    var out := ParseHeader(account, text.value);
    var poll, polls, pollSleeps := PollPhone(contact);
    match poll {
      case PollRaised(e) =>
        return Crashed(e);
      case PhoneMissing =>
        return NoRecord;
      case PhoneShown =>
    }
    match block {
      case Threw(_) =>
        return NoRecord;
      case Done(txt) =>
        var parts := Parts(txt);
        return Scraped(WithContact(out, parts));
    }
  }
}
