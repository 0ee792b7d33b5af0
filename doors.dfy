/**
  `SalesforceScraper._scrape_door`: the `<td>` texts of a Salesforce detail
  page paired into a record, and the exclusion of "fizz" clients. A Python
  value that may be `None` is an `Option<string>`.
*/
module Doors {
  import opened Wrappers
  import opened Text
  import opened Fields
  import opened Retry

  const ClientKey: string := "Client"
  const AccountKey: string := "Compte client"
  const Fizz: string := "fizz"

  /** A door record: field labels to cell values, a value being `None` when its cell was empty. */
  type DoorRecord = map<string, Option<string>>

  /** Python truthiness of a string that may be `None`. */
  predicate Truthy(x: Option<string>) {
    x.Some? && x.value != []
  }

  /** `td.text.strip() or None`. */
  function Cell(text: string): (r: Option<string>)
    ensures r.Some? ==> r.value != [] && IsStripped(r.value)
    ensures r.None? <==> Strip(text) == []
  {
    var t := Strip(text);
    if t == [] then None else Some(t)
  }

  function Cells(texts: seq<string>): (r: seq<Option<string>>)
    ensures |r| == |texts|
    ensures forall i :: 0 <= i < |texts| ==> r[i] == Cell(texts[i])
  {
    if texts == [] then [] else [Cell(texts[0])] + Cells(texts[1..])
  }

  /** The pairs the comprehension keeps: those whose key cell is truthy, with the key unwrapped. */
  function KeyedPairs(ps: seq<(Option<string>, Option<string>)>): (r: seq<(string, Option<string>)>)
    ensures |r| <= |ps|
  {
    if ps == [] then []
    else (if Truthy(ps[0].0) then [(ps[0].0.value, ps[0].1)] else []) + KeyedPairs(ps[1..])
  }

  lemma {:induction false} KeyedPairsAppend(a: seq<(Option<string>, Option<string>)>, b: seq<(Option<string>, Option<string>)>)
    ensures KeyedPairs(a + b) == KeyedPairs(a) + KeyedPairs(b)
    decreases |a|
  {
    if a == [] {
      assert a + b == b;
    } else {
      var h: seq<(string, Option<string>)> := if Truthy(a[0].0) then [(a[0].0.value, a[0].1)] else [];
      assert (a + b)[0] == a[0];
      assert (a + b)[1..] == a[1..] + b;
      calc {
        KeyedPairs(a + b);
        h + KeyedPairs(a[1..] + b);
        { KeyedPairsAppend(a[1..], b); }
        h + (KeyedPairs(a[1..]) + KeyedPairs(b));
        (h + KeyedPairs(a[1..])) + KeyedPairs(b);
        KeyedPairs(a) + KeyedPairs(b);
      }
    }
  }

  /** Some kept pair has key `k`. */
  predicate KeptKey(r: seq<(string, Option<string>)>, k: string) {
    exists j :: 0 <= j < |r| && r[j].0 == k
  }

  /** Some pair has the key cell `Some(k)`. */
  predicate CarriesKey(ps: seq<(Option<string>, Option<string>)>, k: string) {
    exists p :: 0 <= p < |ps| && ps[p].0 == Some(k)
  }

  lemma KeptKeyAppend(a: seq<(string, Option<string>)>, b: seq<(string, Option<string>)>, k: string)
    ensures KeptKey(a + b, k) <==> KeptKey(a, k) || KeptKey(b, k)
  {
    if KeptKey(a + b, k) {
      var j :| 0 <= j < |a + b| && (a + b)[j].0 == k;
      if j >= |a| { assert b[j - |a|].0 == k; }
    }
    if KeptKey(a, k) {
      var j :| 0 <= j < |a| && a[j].0 == k;
      assert (a + b)[j].0 == k;
    }
    if KeptKey(b, k) {
      var j :| 0 <= j < |b| && b[j].0 == k;
      assert (a + b)[|a| + j].0 == k;
    }
  }

  lemma CarriesKeyCons(ps: seq<(Option<string>, Option<string>)>, k: string)
    requires ps != []
    ensures CarriesKey(ps, k) <==> ps[0].0 == Some(k) || CarriesKey(ps[1..], k)
  {
    if CarriesKey(ps, k) {
      var p :| 0 <= p < |ps| && ps[p].0 == Some(k);
      if p > 0 { assert ps[1..][p - 1].0 == Some(k); }
    }
    if CarriesKey(ps[1..], k) {
      var p :| 0 <= p < |ps[1..]| && ps[1..][p].0 == Some(k);
      assert ps[p + 1].0 == Some(k);
    }
  }

  /** A key is kept exactly when some pair carries it as a truthy key cell. */
  lemma {:induction false} KeyedPairsKey(ps: seq<(Option<string>, Option<string>)>, k: string)
    ensures KeptKey(KeyedPairs(ps), k) <==> k != [] && CarriesKey(ps, k)
    decreases |ps|
  {
    if ps != [] {
      var head: seq<(string, Option<string>)> := if Truthy(ps[0].0) then [(ps[0].0.value, ps[0].1)] else [];
      var rest := KeyedPairs(ps[1..]);
      assert KeyedPairs(ps) == head + rest;
      KeyedPairsKey(ps[1..], k);
      KeptKeyAppend(head, rest, k);
      CarriesKeyCons(ps, k);
      assert KeptKey(head, k) <==> k != [] && ps[0].0 == Some(k);
    }
  }

  /** `{tds[i]: tds[i + 1] for i in range(0, len(tds), 2) if i + 1 < len(tds) and tds[i]}`. */
  function PairCells(cells: seq<Option<string>>): DoorRecord {
    Assign(map[], KeyedPairs(Pairs(cells)))
  }

  /** Cell `i` is a key the comprehension visits: even, followed by a value cell, and truthy. */
  predicate KeyAt(cells: seq<Option<string>>, i: int) {
    0 <= i && i % 2 == 0 && i + 1 < |cells| && Truthy(cells[i])
  }

  /** The record's keys are exactly the truthy even cells that have a partner; empty or `None` keys and a trailing odd cell are dropped. */
  lemma PairCellsKeys(cells: seq<Option<string>>, k: string)
    ensures k in PairCells(cells) <==> exists i :: KeyAt(cells, i) && cells[i] == Some(k)
  {
    var ps := Pairs(cells);
    var kps := KeyedPairs(ps);
    AssignKeys(map[], kps, k);
    KeyedPairsKey(ps, k);
    if k in PairCells(cells) {
      assert exists j :: 0 <= j < |KeyedPairs(ps)| && KeyedPairs(ps)[j].0 == k;
      var p :| 0 <= p < |ps| && ps[p].0 == Some(k);
      assert KeyAt(cells, 2 * p) && cells[2 * p] == Some(k);
    }
    if exists i :: KeyAt(cells, i) && cells[i] == Some(k) {
      var i :| KeyAt(cells, i) && cells[i] == Some(k);
      assert 2 * (i / 2) == i;
      assert ps[i / 2].0 == Some(k);
      assert k != [];
      assert exists j :: 0 <= j < |KeyedPairs(ps)| && KeyedPairs(ps)[j].0 == k;
    }
  }

  /** A trailing unpaired cell changes nothing. */
  lemma PairCellsTrailing(cells: seq<Option<string>>, last: Option<string>)
    requires |cells| % 2 == 0
    ensures PairCells(cells + [last]) == PairCells(cells)
  {
    PairsAppend(cells, [last]);
    assert Pairs([last]) == [];
    assert Pairs(cells) + [] == Pairs(cells);
  }

  /** The pairs around one key/value pair in the middle of an evenly split cell list. */
  lemma KeyedPairsSplit(pre: seq<Option<string>>, k: string, v: Option<string>, post: seq<Option<string>>)
    requires |pre| % 2 == 0 && k != []
    ensures KeyedPairs(Pairs(pre + [Some(k), v] + post))
            == KeyedPairs(Pairs(pre)) + [(k, v)] + KeyedPairs(Pairs(post))
  {
    var kv: (Option<string>, Option<string>) := (Some(k), v);
    var mid := [Some(k), v] + post;
    assert pre + [Some(k), v] + post == pre + mid;
    PairsAppend(pre, mid);
    assert mid[2..] == post;
    assert Pairs(mid) == [kv] + Pairs(post);
    KeyedPairsAppend(Pairs(pre), [kv] + Pairs(post));
    KeyedPairsAppend([kv], Pairs(post));
    assert [kv][1..] == [];
    assert KeyedPairs([kv]) == [(k, v)];
  }

  /** A later pair with the same key overwrites: a key keeps the value of its last pair. */
  lemma PairCellsLastWins(pre: seq<Option<string>>, k: string, v: Option<string>, post: seq<Option<string>>)
    requires |pre| % 2 == 0 && k != []
    requires forall i :: KeyAt(post, i) ==> post[i] != Some(k)
    ensures var r := PairCells(pre + [Some(k), v] + post); k in r && r[k] == v
  {
    var before := KeyedPairs(Pairs(pre));
    var after := KeyedPairs(Pairs(post));
    KeyedPairsSplit(pre, k, v, post);
    assert PairCells(pre + [Some(k), v] + post) == Assign(map[], before + [(k, v)] + after);
    AssignAppend(map[], before + [(k, v)], after);
    AssignSnoc(map[], before, (k, v));
    NoLaterKey(post, k);
    AssignUntouched(Assign(map[], before)[k := v], after, k);
  }

  lemma NoLaterKey(post: seq<Option<string>>, k: string)
    requires k != []
    requires forall i :: KeyAt(post, i) ==> post[i] != Some(k)
    ensures forall j :: 0 <= j < |KeyedPairs(Pairs(post))| ==> KeyedPairs(Pairs(post))[j].0 != k
  {
    var ps := Pairs(post);
    assert !CarriesKey(ps, k) by {
      forall p | 0 <= p < |ps|
        ensures ps[p].0 != Some(k)
      {
        assert ps[p].0 == post[2 * p];
        assert 2 * p + 1 < |post| by { assert 2 * (|post| / 2) <= |post|; }
        if post[2 * p] == Some(k) {
          assert (2 * p) % 2 == 0;
          assert KeyAt(post, 2 * p);
        }
      }
    }
    KeyedPairsKey(ps, k);
    assert !KeptKey(KeyedPairs(ps), k);
  }

  /** `rec.get(key, "")`: the value, `""` when the key is absent. */
  function GetOrEmpty(rec: DoorRecord, key: string): Option<string> {
    if key in rec then rec[key] else Some([])
  }

  /** `rec.get("Client", "") or rec.get("Compte client", "")`; `None` is a value on which `.lower()` raises. */
  function ClientValue(rec: DoorRecord): Option<string> {
    var client := GetOrEmpty(rec, ClientKey);
    if Truthy(client) then client else GetOrEmpty(rec, AccountKey)
  }

  /**
    `_scrape_door(href)` after the tab is opened: `None` when stop is set,
    when locating the table raises, when the client value is `None` (the
    `.lower()` raises and the handler returns `None`), or when the lower-cased
    client value contains "fizz"; otherwise the paired record.
  */
  function ScrapeDoor(stopped: bool, table: Outcome<seq<string>>): Option<DoorRecord> {
    if stopped then None
    else match table
      case Threw(_) => None
      case Done(texts) =>
        var rec := PairCells(Cells(texts));
        var cv := ClientValue(rec);
        if cv.None? || Contains(Lower(cv.value), Fizz) then None else Some(rec)
  }

  /** A record with no `Client` value and an empty `Compte client` cell is dropped: `None.lower()` raises. */
  lemma EmptyAccountCellDrops(texts: seq<string>)
    requires var rec := PairCells(Cells(texts));
             && ClientKey !in rec && AccountKey in rec && rec[AccountKey].None?
    ensures ScrapeDoor(false, Done(texts)).None?
  {
  }

  /** The four letters from `i` spell "fizz" in some letter case. */
  predicate FizzAt(s: string, i: nat) {
    i + 4 <= |s| && LowerChar(s[i]) == 'f' && LowerChar(s[i + 1]) == 'i' && LowerChar(s[i + 2]) == 'z' && LowerChar(s[i + 3]) == 'z'
  }

  /** "fizz" is found whatever its letter case: `FIZZ`, `Fizz` and `fizz` clients are all dropped. */
  lemma {:induction false} FizzAnyCase(s: string, i: nat)
    requires FizzAt(s, i)
    ensures Contains(Lower(s), Fizz)
    decreases i
  {
    var l := Lower(s);
    if i == 0 {
      assert l[..4] == Fizz;
    } else {
      FizzAnyCase(s[1..], i - 1);
      assert Lower(s[1..]) == l[1..];
    }
  }

  /** And "fizz" is only found where four letters spell it in some case. */
  lemma {:induction false} FizzFound(s: string)
    ensures Contains(Lower(s), Fizz) ==> exists i: nat :: FizzAt(s, i)
    decreases |s|
  {
    var l := Lower(s);
    if StartsWith(l, Fizz) {
      assert l[0] == Fizz[0] && l[1] == Fizz[1] && l[2] == Fizz[2] && l[3] == Fizz[3];
      assert FizzAt(s, 0);
    } else if s != [] && Contains(l, Fizz) {
      assert Lower(s[1..]) == l[1..];
      FizzFound(s[1..]);
      var i: nat :| FizzAt(s[1..], i);
      assert FizzAt(s, i + 1);
    }
  }

  /**
    A door is kept exactly when the run is not stopped, its table is read,
    and its client value is a string in which no four letters spell "fizz"
    in any case; it is then the paired record.
  */
  lemma ScrapeDoorKeeps(stopped: bool, table: Outcome<seq<string>>)
    ensures ScrapeDoor(stopped, table).Some? <==>
              !stopped && table.Done?
              && var cv := ClientValue(PairCells(Cells(table.value)));
                 cv.Some? && forall i: nat :: !FizzAt(cv.value, i)
    ensures ScrapeDoor(stopped, table).Some? ==> ScrapeDoor(stopped, table).value == PairCells(Cells(table.value))
  {
    if !stopped && table.Done? {
      var cv := ClientValue(PairCells(Cells(table.value)));
      if cv.Some? {
        FizzFound(cv.value);
        forall i: nat | FizzAt(cv.value, i) ensures Contains(Lower(cv.value), Fizz) {
          FizzAnyCase(cv.value, i);
        }
      }
    }
  }
}
