/**
  Records built by assigning `out[key] = val` in order, later assignments
  overwriting earlier ones, as the Clic+ header parser and the CSR entry
  parser both do, plus the label/value pairing of interleaved lines.
*/
module Fields {

  /** The record `m` after the assignments `kvs`, in order. */
  function Assign<K, V>(m: map<K, V>, kvs: seq<(K, V)>): (r: map<K, V>)
    ensures m.Keys <= r.Keys
    decreases |kvs|
  {
    if kvs == [] then m else Assign(m[kvs[0].0 := kvs[0].1], kvs[1..])
  }

  /** Assigning a concatenation is assigning one part after the other. */
  lemma {:induction false} AssignAppend<K, V>(m: map<K, V>, a: seq<(K, V)>, b: seq<(K, V)>)
    ensures Assign(m, a + b) == Assign(Assign(m, a), b)
    decreases |a|
  {
    if a != [] {
      assert (a + b)[0] == a[0];
      assert (a + b)[1..] == a[1..] + b;
      AssignAppend(m[a[0].0 := a[0].1], a[1..], b);
    } else {
      assert a + b == b;
    }
  }

  /** One more assignment at the end updates one key. */
  lemma AssignSnoc<K, V>(m: map<K, V>, kvs: seq<(K, V)>, kv: (K, V))
    ensures Assign(m, kvs + [kv]) == Assign(m, kvs)[kv.0 := kv.1]
  {
    AssignAppend(m, kvs, [kv]);
    assert [kv][1..] == [];
  }

  /** The keys of the result are the seed's keys and the assigned keys, nothing else. */
  lemma {:induction false} AssignKeys<K, V>(m: map<K, V>, kvs: seq<(K, V)>, k: K)
    ensures k in Assign(m, kvs) <==> k in m || exists i :: 0 <= i < |kvs| && kvs[i].0 == k
    decreases |kvs|
  {
    if kvs != [] {
      AssignKeys(m[kvs[0].0 := kvs[0].1], kvs[1..], k);
      if exists i :: 0 <= i < |kvs| && kvs[i].0 == k {
        var i :| 0 <= i < |kvs| && kvs[i].0 == k;
        if i > 0 {
          assert kvs[1..][i - 1].0 == k;
        }
      }
      if exists i :: 0 <= i < |kvs[1..]| && kvs[1..][i].0 == k {
        var i :| 0 <= i < |kvs[1..]| && kvs[1..][i].0 == k;
        assert kvs[i + 1].0 == k;
      }
    }
  }

  /** A key keeps the value of its last assignment: later duplicates overwrite earlier ones. */
  lemma {:induction false} AssignLast<K, V>(m: map<K, V>, kvs: seq<(K, V)>, i: nat)
    requires i < |kvs|
    requires forall j :: i < j < |kvs| ==> kvs[j].0 != kvs[i].0
    ensures kvs[i].0 in Assign(m, kvs) && Assign(m, kvs)[kvs[i].0] == kvs[i].1
    decreases |kvs|
  {
    if i == 0 {
      forall j | 0 <= j < |kvs[1..]|
        ensures kvs[1..][j].0 != kvs[0].0
      {
        assert kvs[1..][j] == kvs[j + 1];
      }
      AssignUntouched(m[kvs[0].0 := kvs[0].1], kvs[1..], kvs[0].0);
    } else {
      forall j | i - 1 < j < |kvs[1..]|
        ensures kvs[1..][j].0 != kvs[1..][i - 1].0
      {
        assert kvs[1..][j] == kvs[j + 1];
      }
      AssignLast(m[kvs[0].0 := kvs[0].1], kvs[1..], i - 1);
    }
  }

  /** A key that is never assigned keeps its seed value. */
  lemma {:induction false} AssignUntouched<K, V>(m: map<K, V>, kvs: seq<(K, V)>, k: K)
    requires k in m
    requires forall j :: 0 <= j < |kvs| ==> kvs[j].0 != k
    ensures k in Assign(m, kvs) && Assign(m, kvs)[k] == m[k]
    decreases |kvs|
  {
    if kvs != [] {
      forall j | 0 <= j < |kvs[1..]|
        ensures kvs[1..][j].0 != k
      {
        assert kvs[1..][j] == kvs[j + 1];
      }
      AssignUntouched(m[kvs[0].0 := kvs[0].1], kvs[1..], k);
    }
  }

  /**
    The label/value pairs of interleaved lines, as `for i in range(0, len(lines) - 1, 2)`
    visits them: `(lines[0], lines[1])`, `(lines[2], lines[3])`, ...; a trailing
    unpaired line is not visited.
  */
  function Pairs<T>(lines: seq<T>): (r: seq<(T, T)>)
    ensures |r| == |lines| / 2
    ensures forall i :: 0 <= i < |r| ==> r[i] == (lines[2 * i], lines[2 * i + 1])
    decreases |lines|
  {
    if |lines| < 2 then [] else [(lines[0], lines[1])] + Pairs(lines[2..])
  }

  /** Pairing a concatenation whose first part has even length pairs the parts separately. */
  lemma {:induction false} PairsAppend<T>(a: seq<T>, b: seq<T>)
    requires |a| % 2 == 0
    ensures Pairs(a + b) == Pairs(a) + Pairs(b)
    decreases |a|
  {
    if a == [] {
      assert a + b == b;
    } else {
      assert (a + b)[2..] == a[2..] + b;
      PairsAppend(a[2..], b);
    }
  }
}
