/**
  The merge step of `ClicDetailScraper.run`: the scraped phone and email
  joined back onto the door rows on the digits-only account key, checked
  many-to-one, filled with "N/A", the report of rows still without a phone,
  and the fixed 8-column template written to the workbook. A pandas frame
  is a column set with a sequence of rows; a cell absent from a row whose
  column exists is a missing value (NaN).
*/
module Reconcile {
  import opened Wrappers
  import opened Text
  import opened Seqs
  import opened Accounts
  import opened ClicPage

  const AcctDigits: string := "acct_digits"

  /** One row of a frame: its column names mapped to the cells that are not missing. */
  type Record = map<string, string>

  /** The doors file as read: its columns and its rows. */
  datatype DoorTable = DoorTable(columns: set<string>, rows: seq<map<string, string>>)

  /**
    The join key `acct_digits`: `df["Compte client"].str.replace(r"\D", "", regex=True)`;
    a missing account gives a missing key. The same function serves the
    doors and the scraped rows, and a missing key matches a missing key,
    as pandas joins them.
  */
  function Key(row: Record): Option<string> {
    if AccountKey in row then Some(Digits(row[AccountKey])) else None
  }

  /** `validate="many_to_one"`: no two scraped rows share a key. */
  predicate UniqueKeys(specs: seq<Record>) {
    forall i, j :: 0 <= i < j < |specs| ==> Key(specs[i]) != Key(specs[j])
  }

  /** The scraped rows a door key matches, in their order. */
  function Matches(specs: seq<Record>, key: Option<string>): seq<Record> {
    if specs == [] then []
    else (if key == Key(specs[0]) then [specs[0]] else []) + Matches(specs[1..], key)
  }

  /** A scraped row matches exactly when its key is the door's key. */
  lemma {:induction false} MatchesMeaning(specs: seq<Record>, key: Option<string>, s: Record)
    ensures s in Matches(specs, key) <==> s in specs && key == Key(s)
  {
    if specs != [] {
      MatchesMeaning(specs[1..], key, s);
      assert s in specs <==> s == specs[0] || s in specs[1..] by {
        assert specs == [specs[0]] + specs[1..];
      }
    }
  }

  /** With unique keys the scraped row of index `j` is the only match of its key. */
  lemma {:induction false} MatchesUnique(specs: seq<Record>, key: Option<string>)
    requires UniqueKeys(specs)
    ensures |Matches(specs, key)| <= 1
    ensures forall j :: 0 <= j < |specs| && key == Key(specs[j]) ==> Matches(specs, key) == [specs[j]]
  {
    if specs != [] {
      assert UniqueKeys(specs[1..]) by {
        forall i, j | 0 <= i < j < |specs[1..]| ensures Key(specs[1..][i]) != Key(specs[1..][j]) {
          assert specs[1..][i] == specs[i + 1] && specs[1..][j] == specs[j + 1];
        }
      }
      MatchesUnique(specs[1..], key);
      if key == Key(specs[0]) {
        forall j | 0 <= j < |specs[1..]| ensures key != Key(specs[1..][j]) {
          assert specs[1..][j] == specs[j + 1];
        }
        NoMatch(specs[1..], key);
      }
      forall j | 1 <= j < |specs| && key == Key(specs[j])
        ensures Matches(specs, key) == [specs[j]]
      {
        assert specs[1..][j - 1] == specs[j];
      }
    }
  }

  lemma {:induction false} NoMatch(specs: seq<Record>, key: Option<string>)
    requires forall j :: 0 <= j < |specs| ==> key != Key(specs[j])
    ensures Matches(specs, key) == []
  {
    if specs != [] {
      forall j | 0 <= j < |specs[1..]| ensures key != Key(specs[1..][j]) {
        assert specs[1..][j] == specs[j + 1];
      }
      NoMatch(specs[1..], key);
    }
  }

  /** Both back-ends seed their rows with the account, so a door without an account matches none of them. */
  lemma UnkeyedDoorUnmatched(specs: seq<Record>)
    requires forall j :: 0 <= j < |specs| ==> AccountKey in specs[j]
    ensures Matches(specs, None) == []
  {
    NoMatch(specs, None);
  }

  /** The join's phone for a match: the scraped `Téléphone`, "N/A" when the column was missing (added as "N/A") or the cell was (filled with "N/A"). */
  function SpecPhone(s: Record): string {
    if PhoneKey in s then s[PhoneKey] else NA
  }

  function SpecEmail(s: Record): string {
    if EmailKey in s then s[EmailKey] else NA
  }

  /** A merged row: the door's cells, its key, and the matched phone and email, or "N/A" for both without a match. */
  function Joined(d: map<string, string>, m: Option<Record>): (r: map<string, string>)
    ensures PhoneKey in r && r[PhoneKey] == (if m.Some? then SpecPhone(m.value) else NA)
    ensures EmailKey in r && r[EmailKey] == (if m.Some? then SpecEmail(m.value) else NA)
    ensures forall k :: k in d && k != PhoneKey && k != EmailKey && k != AcctDigits ==> k in r && r[k] == d[k]
    ensures r.Keys <= d.Keys + {AcctDigits, PhoneKey, EmailKey}
    ensures AcctDigits in r <==> Key(d).Some?
    ensures Key(d).Some? ==> r[AcctDigits] == Key(d).value
  {
    var base := if Key(d).Some? then d[AcctDigits := Key(d).value] else d - {AcctDigits};
    base[PhoneKey := if m.Some? then SpecPhone(m.value) else NA][EmailKey := if m.Some? then SpecEmail(m.value) else NA]
  }

  /** The rows one door contributes to a left join: one per match, in order, or one unmatched row. */
  function JoinRow(d: map<string, string>, specs: seq<Record>): (r: seq<map<string, string>>)
    ensures |r| >= 1
  {
    var ms := Matches(specs, Key(d));
    if ms == [] then [Joined(d, None)]
    else seq(|ms|, k requires 0 <= k < |ms| => Joined(d, Some(ms[k])))
  }

  /** `pd.merge(doors_df, specs_df[...], on="acct_digits", how="left")`: the door rows in order, each followed by its matches. */
  function LeftJoin(rows: seq<map<string, string>>, specs: seq<Record>): (r: seq<map<string, string>>)
    ensures |r| >= |rows|
  {
    if rows == [] then [] else JoinRow(rows[0], specs) + LeftJoin(rows[1..], specs)
  }

  /** The match of a door key, if any. */
  function MatchOf(specs: seq<Record>, key: Option<string>): Option<Record> {
    var ms := Matches(specs, key);
    if ms == [] then None else Some(ms[0])
  }

  /** With unique keys the left join has one row per door: the door joined with its match. */
  lemma {:induction false} LeftJoinUnique(rows: seq<map<string, string>>, specs: seq<Record>)
    requires UniqueKeys(specs)
    ensures |LeftJoin(rows, specs)| == |rows|
    ensures forall i :: 0 <= i < |rows| ==> LeftJoin(rows, specs)[i] == Joined(rows[i], MatchOf(specs, Key(rows[i])))
  {
    if rows != [] {
      LeftJoinUnique(rows[1..], specs);
      MatchesUnique(specs, Key(rows[0]));
      var head := JoinRow(rows[0], specs);
      assert head == [Joined(rows[0], MatchOf(specs, Key(rows[0])))];
      forall i | 1 <= i < |rows|
        ensures LeftJoin(rows, specs)[i] == Joined(rows[i], MatchOf(specs, Key(rows[i])))
      {
        assert rows[1..][i - 1] == rows[i];
        assert LeftJoin(rows, specs)[i] == LeftJoin(rows[1..], specs)[i - 1];
      }
    }
  }

  datatype MergeError = DuplicateKey | ColumnClash

  /**
    The main-path merge: `validate="many_to_one"` raises on a repeated
    scraped key; a door file that already has a `Téléphone` or `Courriel`
    column gets suffixed columns, and `merged["Téléphone"]` then raises.
  */
  function Merge(t: DoorTable, specs: seq<Record>): Result<seq<map<string, string>>, MergeError> {
    if !UniqueKeys(specs) then Err(DuplicateKey)
    else if PhoneKey in t.columns || EmailKey in t.columns then Err(ColumnClash)
    else Ok(LeftJoin(t.rows, specs))
  }

  /**
    The merge succeeds exactly when the scraped keys are unique and the
    doors have no phone or email column of their own; it then has one row
    per door, which keeps the door's cells and carries the phone and email
    of the scraped row with the same digits, "N/A" when there is none.
  */
  lemma MergeMeaning(t: DoorTable, specs: seq<Record>, i: nat)
    requires i < |t.rows|
    ensures Merge(t, specs).Ok? <==> UniqueKeys(specs) && PhoneKey !in t.columns && EmailKey !in t.columns
    ensures Merge(t, specs).Ok? ==>
      var r := Merge(t, specs).value;
      && |r| == |t.rows|
      && (forall k :: k in t.rows[i] && k != PhoneKey && k != EmailKey && k != AcctDigits ==> k in r[i] && r[i][k] == t.rows[i][k])
      && PhoneKey in r[i] && EmailKey in r[i]
      && (forall j :: 0 <= j < |specs| && Key(t.rows[i]) == Key(specs[j]) ==>
            r[i][PhoneKey] == SpecPhone(specs[j]) && r[i][EmailKey] == SpecEmail(specs[j]))
      && ((forall j :: 0 <= j < |specs| ==> Key(t.rows[i]) != Key(specs[j])) ==>
            r[i][PhoneKey] == NA && r[i][EmailKey] == NA)
  {
    if Merge(t, specs).Ok? {
      LeftJoinUnique(t.rows, specs);
      MatchesUnique(specs, Key(t.rows[i]));
      if forall j :: 0 <= j < |specs| ==> Key(t.rows[i]) != Key(specs[j]) {
        NoMatch(specs, Key(t.rows[i]));
      }
    }
  }

  predicate NoPhone(m: map<string, string>) {
    PhoneKey in m && m[PhoneKey] == NA
  }

  /** `merged[merged["Téléphone"] == "N/A"]`. */
  function Missing(merged: seq<map<string, string>>): seq<map<string, string>> {
    Filter(NoPhone, merged)
  }

  /** After a successful merge a door's row is in the missing report exactly when no scraped row has its digits or the scraped phone is "N/A". */
  lemma MissingIff(t: DoorTable, specs: seq<Record>, i: nat)
    requires i < |t.rows| && Merge(t, specs).Ok?
    ensures var r := Merge(t, specs).value;
      i < |r| &&
      (r[i] in Missing(r) <==>
        MatchOf(specs, Key(t.rows[i])).None? || SpecPhone(MatchOf(specs, Key(t.rows[i])).value) == NA)
  {
    var r := Merge(t, specs).value;
    LeftJoinUnique(t.rows, specs);
    FilterMember(NoPhone, r, r[i]);
  }

  // ---- the 8-column template -------------------------------------------

  const TemplateHeader: seq<string> := [
    "ADRESSE", "CLIENT", "NUM\U{00C9}RO DE T\U{00C9}L\U{00C9}PHONE", "COURRIEL",
    "NUM\U{00C9}RO DE COMPTE", "SERVICES ACTUELS", "DERNIER STATUT", "SERVICE AVANT DEBRANCHEMENT"]

  /** The merged column each template column is taken from. */
  const TemplateSources: seq<string> := [
    "R\U{00E9}sidence", "Client", PhoneKey, EmailKey,
    AccountKey, "Services actuels", "Dernier statut", "Services avant d\U{00E9}branchement"]

  /**
    One template cell: the merged column's value; a missing value stays
    missing (`None`) on the main path and becomes "N/A" on the recovery
    path (`fillna("N/A")`); a column the merged frame lacks gives "" on
    the main path and "N/A" on the recovery path.
  */
  function TemplateCell(row: map<string, string>, columns: set<string>, src: string, recovery: bool): Option<string> {
    if src in columns then
      if src in row then Some(row[src]) else if recovery then Some(NA) else None
    else Some(if recovery then NA else [])
  }

  function TemplateRow(row: map<string, string>, columns: set<string>, recovery: bool): seq<Option<string>> {
    seq(|TemplateSources|, j requires 0 <= j < |TemplateSources| => TemplateCell(row, columns, TemplateSources[j], recovery))
  }

  /** The workbook's rows, one per merged row. */
  function Template(rows: seq<map<string, string>>, columns: set<string>, recovery: bool): seq<seq<Option<string>>> {
    seq(|rows|, i requires 0 <= i < |rows| => TemplateRow(rows[i], columns, recovery))
  }

  /** The merged frame's columns: the doors' columns, the key, the phone and the email. */
  function MergedColumns(columns: set<string>): set<string> {
    columns + {AcctDigits, PhoneKey, EmailKey}
  }

  /**
    The template has one row per merged row and eight columns; its phone
    and email columns are the merged phone and email; on the recovery path
    no cell is missing.
  */
  lemma TemplateShape(rows: seq<map<string, string>>, columns: set<string>, recovery: bool)
    requires PhoneKey in columns && EmailKey in columns
    requires forall i :: 0 <= i < |rows| ==> PhoneKey in rows[i] && EmailKey in rows[i]
    ensures var w := Template(rows, columns, recovery);
      && |w| == |rows| && |TemplateHeader| == |TemplateSources| == 8
      && (forall i :: 0 <= i < |w| ==> |w[i]| == 8)
      && (forall i :: 0 <= i < |w| ==> w[i][2] == Some(rows[i][PhoneKey]) && w[i][3] == Some(rows[i][EmailKey]))
      && (recovery ==> forall i, j :: 0 <= i < |w| && 0 <= j < 8 ==> w[i][j].Some?)
  {
  }

  /** On the main path a door column that is absent from the file is written as "", and a blank cell of a present column stays blank. */
  lemma TemplateMainBlanks(row: map<string, string>, columns: set<string>, j: nat)
    requires j < 8 && TemplateSources[j] !in row
    ensures TemplateSources[j] !in columns ==> TemplateRow(row, columns, false)[j] == Some([])
    ensures TemplateSources[j] in columns ==> TemplateRow(row, columns, false)[j].None?
  {
  }

  /** The recovery path without scraped rows: every door with `Téléphone` and `Courriel` set to "N/A". */
  function Overwritten(rows: seq<map<string, string>>): (r: seq<map<string, string>>)
    ensures |r| == |rows|
    ensures forall i :: 0 <= i < |rows| ==>
              && r[i].Keys == rows[i].Keys + {PhoneKey, EmailKey}
              && r[i][PhoneKey] == NA && r[i][EmailKey] == NA
              && forall k :: k in rows[i] && k != PhoneKey && k != EmailKey ==> r[i][k] == rows[i][k]
  {
    seq(|rows|, i requires 0 <= i < |rows| => rows[i][PhoneKey := NA][EmailKey := NA])
  }
}
