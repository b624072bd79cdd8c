/**
 * PHP arrays with string keys and string values: ordered dictionaries.
 * An array is a sequence of entries in insertion order; writing to a key that
 * is already present updates that entry where it stands, writing to a new key
 * appends an entry. `ksort` reorders the entries by key.
 */
module PhpArrays {
  import opened Wrappers

  /** One `key => value` pair. */
  datatype Entry = Entry(key: string, value: string)

  /** `$a[$k]`, or `None` where `isset($a[$k])` is false. The first entry with the key is the one read. */
  function Get(a: seq<Entry>, k: string): Option<string> {
    if a == [] then None
    else if a[0].key == k then Some(a[0].value)
    else Get(a[1..], k)
  }

  /** The value of the last entry with key `k`. */
  function GetLast(a: seq<Entry>, k: string): Option<string> {
    if a == [] then None
    else
      var later := GetLast(a[1..], k);
      if later.Some? then later
      else if a[0].key == k then Some(a[0].value)
      else None
  }

  /** `array_keys($a)`. */
  function Keys(a: seq<Entry>): (ks: seq<string>)
    ensures |ks| == |a|
    ensures forall i :: 0 <= i < |a| ==> ks[i] == a[i].key
  {
    if a == [] then [] else [a[0].key] + Keys(a[1..])
  }

  /** No key occurs twice: what every PHP array satisfies. */
  predicate UniqueKeys(a: seq<Entry>) {
    forall i, j :: 0 <= i < j < |a| ==> a[i].key != a[j].key
  }

  /** A key can be read exactly when some entry carries it. */
  lemma {:induction false} GetDefined(a: seq<Entry>, k: string)
    ensures Get(a, k).Some? <==> k in Keys(a)
  {
    if a != [] {
      GetDefined(a[1..], k);
      assert Keys(a) == [a[0].key] + Keys(a[1..]);
    }
  }

  /** In an array with unique keys, reading `k` gives `v` exactly when `k => v` is an entry. */
  lemma {:induction false} GetUnique(a: seq<Entry>, k: string, v: string)
    requires UniqueKeys(a)
    ensures Get(a, k) == Some(v) <==> Entry(k, v) in a
  {
    if a != [] {
      GetUnique(a[1..], k, v);
      assert a == [a[0]] + a[1..];
      if a[0].key == k {
        assert Entry(k, v) !in a[1..] by {
          forall i | 0 <= i < |a[1..]| ensures a[1..][i].key != k {
            assert a[1..][i] == a[i + 1];
          }
        }
      }
    }
  }

  /** `$a[$k] = $v`. */
  function Put(a: seq<Entry>, k: string, v: string): (r: seq<Entry>)
    ensures Get(r, k) == Some(v)
    ensures forall j :: j != k ==> Get(r, j) == Get(a, j)
    ensures k in Keys(a) ==> Keys(r) == Keys(a)
    ensures k !in Keys(a) ==> r == a + [Entry(k, v)]
  {
    if a == [] then [Entry(k, v)]
    else
      assert Keys(a) == [a[0].key] + Keys(a[1..]);
      if a[0].key == k then
        var r := [Entry(k, v)] + a[1..];
        assert r[1..] == a[1..];
        assert Keys(r) == [k] + Keys(r[1..]);
        r
      else
        var rest := Put(a[1..], k, v);
        var r := [a[0]] + rest;
        assert r[1..] == rest;
        assert Keys(r) == [a[0].key] + Keys(rest);
        assert k !in Keys(a) ==> rest == a[1..] + [Entry(k, v)] && a == [a[0]] + a[1..];
        r
  }

  /** Writing a key keeps the keys of an array unique. */
  lemma PutUnique(a: seq<Entry>, k: string, v: string)
    requires UniqueKeys(a)
    ensures UniqueKeys(Put(a, k, v))
  {
    var r := Put(a, k, v);
    if k !in Keys(a) {
      forall i, j | 0 <= i < j < |r| ensures r[i].key != r[j].key {
        if j == |a| {
          assert Keys(a)[i] == a[i].key;
        }
      }
    } else {
      assert Keys(r) == Keys(a);
      forall i, j | 0 <= i < j < |r| ensures r[i].key != r[j].key {
        assert Keys(r)[i] == r[i].key && Keys(r)[j] == r[j].key;
      }
    }
  }

  /** The strict order PHP's `ksort` puts string keys in: byte-wise lexicographic. */
  predicate Less(a: string, b: string) {
    if a == [] then b != []
    else if b == [] then false
    else if a[0] != b[0] then a[0] < b[0]
    else Less(a[1..], b[1..])
  }

  lemma {:induction false} LessIrreflexive(a: string)
    ensures !Less(a, a)
  {
    if a != [] {
      LessIrreflexive(a[1..]);
    }
  }

  lemma {:induction false} LessTransitive(a: string, b: string, c: string)
    requires Less(a, b) && Less(b, c)
    ensures Less(a, c)
  {
    if a != [] && b != [] && c != [] && a[0] == b[0] && b[0] == c[0] {
      LessTransitive(a[1..], b[1..], c[1..]);
    }
  }

  lemma {:induction false} LessTotal(a: string, b: string)
    requires a != b
    ensures Less(a, b) || Less(b, a)
  {
    if a != [] && b != [] && a[0] == b[0] {
      assert a == [a[0]] + a[1..] && b == [b[0]] + b[1..];
      LessTotal(a[1..], b[1..]);
    }
  }

  /** Keys strictly ascending, hence each key exactly once. */
  predicate SortedByKey(a: seq<Entry>) {
    forall i, j :: 0 <= i < j < |a| ==> Less(a[i].key, a[j].key)
  }

  function Insert(e: Entry, a: seq<Entry>): seq<Entry> {
    if a == [] then [e]
    else if Less(e.key, a[0].key) then [e] + a
    else [a[0]] + Insert(e, a[1..])
  }

  /** `ksort($a)`. */
  function KSort(a: seq<Entry>): seq<Entry> {
    if a == [] then [] else Insert(a[0], KSort(a[1..]))
  }

  lemma {:induction false} InsertPermutes(e: Entry, a: seq<Entry>)
    ensures multiset(Insert(e, a)) == multiset(a) + multiset{e}
  {
    if a != [] && !Less(e.key, a[0].key) {
      InsertPermutes(e, a[1..]);
      assert a == [a[0]] + a[1..];
    }
  }

  /** Inserting an entry whose key lies above `x` into entries whose keys lie above `x`. */
  lemma {:induction false} InsertAbove(e: Entry, a: seq<Entry>, x: string)
    requires forall i :: 0 <= i < |a| ==> Less(x, a[i].key)
    requires Less(x, e.key)
    ensures forall i :: 0 <= i < |Insert(e, a)| ==> Less(x, Insert(e, a)[i].key)
  {
    if a != [] && !Less(e.key, a[0].key) {
      InsertAbove(e, a[1..], x);
    }
  }

  lemma {:induction false} InsertSorted(e: Entry, a: seq<Entry>)
    requires SortedByKey(a)
    requires e.key !in Keys(a)
    ensures SortedByKey(Insert(e, a))
  {
    if a == [] {
    } else if Less(e.key, a[0].key) {
      var r := [e] + a;
      forall i, j | 0 <= i < j < |r| ensures Less(r[i].key, r[j].key) {
        if i == 0 && j > 1 {
          LessTransitive(e.key, a[0].key, a[j - 1].key);
        }
      }
    } else {
      assert Keys(a)[0] == a[0].key;
      LessTotal(e.key, a[0].key);
      assert Keys(a[1..]) == Keys(a)[1..];
      InsertSorted(e, a[1..]);
      InsertAbove(e, a[1..], a[0].key);
    }
  }

  /** Entries with the same elements carry the same keys. */
  lemma SameEntriesSameKeys(a: seq<Entry>, b: seq<Entry>, k: string)
    requires multiset(a) == multiset(b)
    ensures k in Keys(a) <==> k in Keys(b)
  {
    if k in Keys(a) {
      var i :| 0 <= i < |a| && Keys(a)[i] == k;
      assert a[i] in multiset(b);
      var j :| 0 <= j < |b| && b[j] == a[i];
      assert Keys(b)[j] == k;
    }
    if k in Keys(b) {
      var j :| 0 <= j < |b| && Keys(b)[j] == k;
      assert b[j] in multiset(a);
      var i :| 0 <= i < |a| && a[i] == b[j];
      assert Keys(a)[i] == k;
    }
  }

  /** `ksort` orders the keys strictly and keeps every entry. */
  lemma {:induction false} KSortSorted(a: seq<Entry>)
    requires UniqueKeys(a)
    ensures SortedByKey(KSort(a))
    ensures multiset(KSort(a)) == multiset(a)
  {
    if a != [] {
      KSortSorted(a[1..]);
      var rest := KSort(a[1..]);
      assert Keys(a) == [a[0].key] + Keys(a[1..]);
      assert a[0].key !in Keys(a[1..]) by {
        forall i | 0 <= i < |a[1..]| ensures Keys(a[1..])[i] != a[0].key {
          assert Keys(a[1..])[i] == a[i + 1].key;
        }
      }
      SameEntriesSameKeys(rest, a[1..], a[0].key);
      InsertSorted(a[0], rest);
      InsertPermutes(a[0], rest);
      assert a == [a[0]] + a[1..];
    }
  }

  /** Strictly ascending keys are unique keys. */
  lemma SortedUnique(a: seq<Entry>)
    requires SortedByKey(a)
    ensures UniqueKeys(a)
  {
    forall i, j | 0 <= i < j < |a| ensures a[i].key != a[j].key {
      if a[i].key == a[j].key {
        LessIrreflexive(a[i].key);
      }
    }
  }

  /** `ksort` changes no value: every key reads the same before and after. */
  lemma KSortGet(a: seq<Entry>, k: string)
    requires UniqueKeys(a)
    ensures Get(KSort(a), k) == Get(a, k)
  {
    var r := KSort(a);
    KSortSorted(a);
    SortedUnique(r);
    GetDefined(r, k);
    GetDefined(a, k);
    SameEntriesSameKeys(r, a, k);
    if Get(a, k).Some? {
      var v := Get(a, k).value;
      GetUnique(a, k, v);
      assert Entry(k, v) in multiset(r);
      GetUnique(r, k, v);
    }
  }
}
