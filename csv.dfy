/**
  The CSV file the door listing writes: the fixed `city`, `street`, `rta`
  columns followed by the sorted union of all record keys, and one row per
  door.
*/
module Csv {
  import opened Wrappers
  import opened Text
  import opened Doors

  const FixedColumns: seq<string> := ["city", "street", "rta"]

  /** `set().union(*(rec.keys() for rec in doors))`. */
  function AllKeys(doors: seq<DoorRecord>): set<string> {
    if doors == [] then {} else doors[0].Keys + AllKeys(doors[1..])
  }

  /** The header keys are the keys of some record, and every key of every record is among them. */
  lemma {:induction false} AllKeysMeaning(doors: seq<DoorRecord>, k: string)
    ensures k in AllKeys(doors) <==> exists i :: 0 <= i < |doors| && k in doors[i]
  {
    if doors != [] {
      AllKeysMeaning(doors[1..], k);
      assert forall i :: 1 <= i < |doors| ==> doors[1..][i - 1] == doors[i];
      if k in AllKeys(doors[1..]) {
        var i :| 0 <= i < |doors[1..]| && k in doors[1..][i];
        assert k in doors[i + 1];
      }
    }
  }

  predicate StrictlySorted(ks: seq<string>) {
    forall i, j {:trigger LexLess(ks[i], ks[j])} :: 0 <= i < j < |ks| ==> LexLess(ks[i], ks[j])
  }

  /** `sorted(keys)` of a set: strictly increasing, holding exactly the set's elements. */
  ghost predicate SortedOf(ks: seq<string>, keys: set<string>) {
    StrictlySorted(ks) && (forall k :: k in ks <==> k in keys)
  }

  /** `x` inserted into a sorted sequence that does not hold it. */
  function Insert(ks: seq<string>, x: string): (r: seq<string>)
    requires StrictlySorted(ks) && x !in ks
    ensures StrictlySorted(r)
    ensures forall k :: k in r <==> k in ks || k == x
    ensures |r| == |ks| + 1
  {
    if ks == [] then [x]
    else if LexLess(x, ks[0]) then
      assert forall j :: 0 <= j < |ks| ==> LexLess(x, ks[j]) by {
        forall j | 0 < j < |ks| ensures LexLess(x, ks[j]) {
          LexLessTransitive(x, ks[0], ks[j]);
        }
      }
      [x] + ks
    else
      LexLessTotal(x, ks[0]);
      var rest := Insert(ks[1..], x);
      assert forall k :: k in rest ==> LexLess(ks[0], k) by {
        forall k | k in rest ensures LexLess(ks[0], k) {
          if k != x {
            var j :| 0 <= j < |ks[1..]| && ks[1..][j] == k;
            assert ks[j + 1] == k;
          }
        }
      }
      assert forall k :: k in ks <==> k == ks[0] || k in ks[1..] by {
        assert ks == [ks[0]] + ks[1..];
      }
      [ks[0]] + rest
  }

  /** The header's key part: the keys of a set placed one by one into a sorted sequence. */
  method SortedKeys(keys: set<string>) returns (ks: seq<string>)
    ensures SortedOf(ks, keys)
  {
    ks := [];
    var rest := keys;
    while rest != {}
      invariant StrictlySorted(ks)
      invariant forall k :: k in keys <==> k in ks || k in rest
      invariant forall k :: k in rest ==> k !in ks
      decreases |rest|
    {
      var x :| x in rest;
      ks := Insert(ks, x);
      rest := rest - {x};
    }
  }

  /** Two sorted sequences of the same set are equal: the header is determined by the records. */
  lemma {:induction false} SortedUnique(a: seq<string>, b: seq<string>)
    requires StrictlySorted(a) && StrictlySorted(b)
    requires forall k :: k in a <==> k in b
    ensures a == b
    decreases |a|
  {
    if a != [] { assert a[0] in b; }
    if b != [] { assert b[0] in a; }
    if a != [] && b != [] {
      forall j | 0 < j < |b| ensures LexLess(b[0], b[j]) {}
      var i :| 0 <= i < |b| && b[i] == a[0];
      var i' :| 0 <= i' < |a| && a[i'] == b[0];
      if i != 0 {
        assert i' != 0 by { LexLessIrreflexive(a[0]); }
        LexLessAsymmetric(b[0], b[i]);
      }
      assert a[0] == b[0];
      forall k ensures k in a[1..] <==> k in b[1..] {
        if k in a[1..] {
          var j :| 0 <= j < |a[1..]| && a[1..][j] == k;
          assert LexLess(a[0], a[j + 1]);
          LexLessIrreflexive(k);
          assert k in b;
        }
        if k in b[1..] {
          var j :| 0 <= j < |b[1..]| && b[1..][j] == k;
          assert LexLess(b[0], b[j + 1]);
          LexLessIrreflexive(k);
          assert k in a;
        }
      }
      SortedUnique(a[1..], b[1..]);
      assert a == [a[0]] + a[1..] && b == [b[0]] + b[1..];
    }
  }

  /** `self.street or ""`. */
  function OrEmpty(x: Option<string>): string {
    x.GetOr([])
  }

  /** `rec.get(k, "")` as the CSV writer prints it: an absent key and a `None` value both become an empty field. */
  function CsvCell(rec: DoorRecord, k: string): string {
    if k in rec && rec[k].Some? then rec[k].value else []
  }

  /** One door's row: the city, the street or "", the area code or "", then the record's value under each header key. */
  function Row(city: string, street: Option<string>, rta: Option<string>, rec: DoorRecord, keys: seq<string>): seq<string> {
    [city, OrEmpty(street), OrEmpty(rta)] + seq(|keys|, j requires 0 <= j < |keys| => CsvCell(rec, keys[j]))
  }

  /** A row is as wide as the header and carries the record's value under each header key. */
  lemma RowShape(city: string, street: Option<string>, rta: Option<string>, rec: DoorRecord, keys: seq<string>)
    ensures var r := Row(city, street, rta, rec, keys);
      |r| == |FixedColumns| + |keys|
      && r[..3] == [city, OrEmpty(street), OrEmpty(rta)]
      && forall j :: 0 <= j < |keys| ==> r[3 + j] == CsvCell(rec, keys[j])
  {
  }

  /** `t` is the CSV of `doors`: its header is the fixed columns and the sorted keys, and it has one row per door under that header. */
  ghost predicate CsvFor(t: seq<seq<string>>, city: string, street: Option<string>, rta: Option<string>, doors: seq<DoorRecord>) {
    |t| == |doors| + 1
    && |t[0]| >= |FixedColumns| && t[0][..3] == FixedColumns
    && SortedOf(t[0][3..], AllKeys(doors))
    && forall i :: 0 <= i < |doors| ==> t[i + 1] == Row(city, street, rta, doors[i], t[0][3..])
  }

  /**
    The CSV writing of the export: the header row, then `w.writerow(...)`
    for each record in turn. With no doors it is the header of three
    fixed columns alone, the `else` branch of the export.
  */
  method WriteCsv(city: string, street: Option<string>, rta: Option<string>, doors: seq<DoorRecord>)
    returns (t: seq<seq<string>>)
    ensures CsvFor(t, city, street, rta, doors)
    ensures doors == [] ==> t == [FixedColumns]
    ensures forall i :: 0 <= i < |t| ==> |t[i]| == |t[0]|
  {
    if doors == [] {
      t := [FixedColumns];
      CsvOfRows(t, [], city, street, rta, doors);
      return;
    }
    var keys := SortedKeys(AllKeys(doors));
    var header := FixedColumns + keys;
    assert header[..3] == FixedColumns && header[3..] == keys;
    t := [header];
    var i := 0;
    while i < |doors|
      invariant 0 <= i <= |doors|
      invariant |t| == i + 1 && t[0] == header
      invariant forall r :: 0 <= r < i ==> t[r + 1] == Row(city, street, rta, doors[r], keys)
    {
      t := t + [Row(city, street, rta, doors[i], keys)];
      i := i + 1;
    }
    CsvOfRows(t, keys, city, street, rta, doors);
  }

  lemma CsvOfRows(t: seq<seq<string>>, keys: seq<string>, city: string, street: Option<string>, rta: Option<string>, doors: seq<DoorRecord>)
    requires SortedOf(keys, AllKeys(doors))
    requires |t| == |doors| + 1 && t[0] == FixedColumns + keys
    requires forall r :: 0 <= r < |doors| ==> t[r + 1] == Row(city, street, rta, doors[r], keys)
    ensures CsvFor(t, city, street, rta, doors)
    ensures forall i :: 0 <= i < |t| ==> |t[i]| == |t[0]|
  {
    assert t[0][..3] == FixedColumns && t[0][3..] == keys;
    assert SortedOf(t[0][3..], AllKeys(doors));
    forall i | 0 <= i < |doors| ensures t[i + 1] == Row(city, street, rta, doors[i], t[0][3..]) {
      assert t[i + 1] == Row(city, street, rta, doors[i], keys);
    }
    forall i | 0 < i < |t| ensures |t[i]| == |t[0]| {
      var r := i - 1;
      assert t[r + 1] == Row(city, street, rta, doors[r], keys);
      RowShape(city, street, rta, doors[r], keys);
    }
  }

  /** The CSV of a door list is unique: two exports of the same doors write the same file contents. */
  lemma CsvForUnique(t1: seq<seq<string>>, t2: seq<seq<string>>, city: string, street: Option<string>, rta: Option<string>, doors: seq<DoorRecord>)
    requires CsvFor(t1, city, street, rta, doors) && CsvFor(t2, city, street, rta, doors)
    ensures t1 == t2
  {
    SortedUnique(t1[0][3..], t2[0][3..]);
    assert t1[0] == t1[0][..3] + t1[0][3..];
    assert t2[0] == t2[0][..3] + t2[0][3..];
    assert forall i :: 0 <= i < |t1| ==> t1[i] == t2[i] by {
      forall i | 0 < i < |t1| ensures t1[i] == t2[i] {
        var r := i - 1;
        assert t1[r + 1] == Row(city, street, rta, doors[r], t1[0][3..]);
        assert t2[r + 1] == Row(city, street, rta, doors[r], t2[0][3..]);
      }
    }
  }

  /** A column of the header holds, in each row, that door's value under the key: its string, or "" when the key is absent or the cell was empty. */
  lemma CsvColumn(t: seq<seq<string>>, city: string, street: Option<string>, rta: Option<string>, doors: seq<DoorRecord>, i: nat, j: nat)
    requires CsvFor(t, city, street, rta, doors)
    requires i < |doors| && 3 <= j < |t[0]|
    ensures j < |t[i + 1]|
    ensures t[0][j] in doors[i] && doors[i][t[0][j]].Some? ==> t[i + 1][j] == doors[i][t[0][j]].value
    ensures !(t[0][j] in doors[i] && doors[i][t[0][j]].Some?) ==> t[i + 1][j] == []
  {
    var keys := t[0][3..];
    var row := Row(city, street, rta, doors[i], keys);
    assert t[i + 1] == row;
    RowShape(city, street, rta, doors[i], keys);
    assert keys[j - 3] == t[0][j];
    assert row[3 + (j - 3)] == CsvCell(doors[i], keys[j - 3]);
  }
}
