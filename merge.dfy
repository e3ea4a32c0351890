/**
  The merge the import ends with: the old records followed by the imported
  ones are put through a JS `Map` keyed by a record's key string, and the
  map's values are the new collection. `Map.prototype.set` overwrites the
  value of a key already present where it stands and appends a new key at the
  end, so each key keeps the place of its first appearance and the value of its
  last one.
 */
module Merge {
  import opened Wrappers
  import opened Seqs
  import opened Records

  /** No two entries share a key. */
  predicate UniqueKeys<T>(xs: seq<T>, key: T -> string)
  {
    forall i, j :: 0 <= i < j < |xs| ==> key(xs[i]) != key(xs[j])
  }

  /** The position of the first entry with key `k`. */
  function IndexOfKey<T>(xs: seq<T>, key: T -> string, k: string): (r: Option<nat>)
    ensures r.Some? ==> r.value < |xs| && key(xs[r.value]) == k
    ensures r.Some? ==> forall j :: 0 <= j < r.value ==> key(xs[j]) != k
    ensures r.None? ==> forall j :: 0 <= j < |xs| ==> key(xs[j]) != k
  {
    if xs == [] then None
    else if key(xs[0]) == k then Some(0)
    else
      match IndexOfKey(xs[1..], key, k)
      case None => None
      case Some(i) => Some(i + 1)
  }

  /** `map.set(key(x), x)`: overwrite the entry with the same key where it stands, or add `x` at the end. */
  function Put<T>(entries: seq<T>, key: T -> string, x: T): seq<T>
  {
    match IndexOfKey(entries, key, key(x))
    case Some(i) => entries[i := x]
    case None => entries + [x]
  }

  /** `[...new Map(xs.map(x => [key(x), x])).values()]`: every entry set into an empty map, in order. */
  function Dedup<T>(xs: seq<T>, key: T -> string): seq<T>
  {
    if xs == [] then [] else Put(Dedup(xs[..|xs| - 1], key), key, xs[|xs| - 1])
  }

  /** The keys in the order of their first appearance, each once. */
  function Distinct(ks: seq<string>): seq<string>
  {
    if ks == [] then []
    else
      var d := Distinct(ks[..|ks| - 1]);
      if ks[|ks| - 1] in d then d else d + [ks[|ks| - 1]]
  }

  /** The last entry with key `k`. */
  function LastWithKey<T>(xs: seq<T>, key: T -> string, k: string): Option<T>
  {
    if xs == [] then None
    else if key(xs[|xs| - 1]) == k then Some(xs[|xs| - 1])
    else LastWithKey(xs[..|xs| - 1], key, k)
  }

  /** Whether the first entry with key `a` comes before the first entry with key `b`. */
  predicate KeyBefore<T>(xs: seq<T>, key: T -> string, a: string, b: string)
  {
    var p := IndexOfKey(xs, key, a);
    var q := IndexOfKey(xs, key, b);
    p.Some? && q.Some? && p.value < q.value
  }

  /** The import's merge: old records, then imported ones, deduplicated. */
  function MergeImport<T>(existing: seq<T>, imported: seq<T>, key: T -> string): seq<T>
  {
    Dedup(existing + imported, key)
  }

  lemma IndexOfKeyIn<T>(xs: seq<T>, key: T -> string, k: string)
    ensures IndexOfKey(xs, key, k).Some? <==> k in Map(xs, key)
  {
    var r := IndexOfKey(xs, key, k);
    if r.Some? {
      assert Map(xs, key)[r.value] == k;
    }
  }

  /** Adding an entry at the end leaves the first position of every key already present, and gives a new key the last one. */
  lemma IndexOfKeySnoc<T>(xs: seq<T>, key: T -> string, x: T, k: string)
    ensures IndexOfKey(xs + [x], key, k) ==
      if IndexOfKey(xs, key, k).Some? then IndexOfKey(xs, key, k)
      else if key(x) == k then Some(|xs|)
      else None
  {
    var r := IndexOfKey(xs + [x], key, k);
    var s := IndexOfKey(xs, key, k);
    if s.Some? {
      assert (xs + [x])[s.value] == xs[s.value];
      assert r.Some?;
    } else if key(x) == k {
      assert (xs + [x])[|xs|] == x;
      assert r.Some?;
    } else {
      assert forall j :: 0 <= j < |xs| ==> (xs + [x])[j] == xs[j];
    }
  }

  /** Putting an entry adds its key at the end of the key list when it is new and leaves the key list alone otherwise. */
  lemma PutKeys<T>(e: seq<T>, key: T -> string, x: T)
    ensures Map(Put(e, key, x), key) == if key(x) in Map(e, key) then Map(e, key) else Map(e, key) + [key(x)]
  {
    IndexOfKeyIn(e, key, key(x));
    match IndexOfKey(e, key, key(x))
    case Some(i) =>
      assert forall j :: 0 <= j < |e| ==> Map(e[i := x], key)[j] == Map(e, key)[j];
    case None =>
      MapAppend(e, [x], key);
  }

  /** In a collection with unique keys, putting `x` gives `x` for its key and the old entry at its old place for every other key. */
  lemma PutShape<T>(e: seq<T>, key: T -> string, x: T)
    requires UniqueKeys(e, key)
    ensures var p := Put(e, key, x);
      (|p| == |e| && IndexOfKey(e, key, key(x)).Some?) || (|p| == |e| + 1 && IndexOfKey(e, key, key(x)).None?)
    ensures var p := Put(e, key, x);
      forall i :: 0 <= i < |p| ==>
        (key(p[i]) == key(x) ==> p[i] == x) && (key(p[i]) != key(x) ==> i < |e| && p[i] == e[i])
  {
  }

  lemma {:induction false} DistinctUnique(ks: seq<string>)
    ensures forall i, j :: 0 <= i < j < |Distinct(ks)| ==> Distinct(ks)[i] != Distinct(ks)[j]
  {
    if ks != [] {
      DistinctUnique(ks[..|ks| - 1]);
    }
  }

  lemma {:induction false} DistinctContents(ks: seq<string>)
    ensures forall k :: k in Distinct(ks) <==> k in ks
  {
    if ks != [] {
      var p := ks[..|ks| - 1];
      DistinctContents(p);
      assert ks == p + [ks[|ks| - 1]];
    }
  }

  /** The keys of the merged collection are the distinct keys of the input, in order of first appearance. */
  lemma {:induction false} KeysOfDedup<T>(xs: seq<T>, key: T -> string)
    ensures Map(Dedup(xs, key), key) == Distinct(Map(xs, key))
  {
    if xs != [] {
      var p, x := xs[..|xs| - 1], xs[|xs| - 1];
      KeysOfDedup(p, key);
      PutKeys(Dedup(p, key), key, x);
      var ks := Map(xs, key);
      assert ks[..|ks| - 1] == Map(p, key);
    }
  }

  /** After the merge no two records share a key. */
  lemma DedupUniqueKeys<T>(xs: seq<T>, key: T -> string)
    ensures UniqueKeys(Dedup(xs, key), key)
  {
    var d := Dedup(xs, key);
    KeysOfDedup(xs, key);
    DistinctUnique(Map(xs, key));
    forall i, j | 0 <= i < j < |d| ensures key(d[i]) != key(d[j])
    {
      assert key(d[i]) == Map(d, key)[i] && key(d[j]) == Map(d, key)[j];
    }
  }

  /** Exactly the keys of the input survive the merge. */
  lemma DedupKeys<T>(xs: seq<T>, key: T -> string)
    ensures forall k :: k in Map(Dedup(xs, key), key) <==> k in Map(xs, key)
  {
    KeysOfDedup(xs, key);
    DistinctContents(Map(xs, key));
  }

  /** Every record after the merge is the last input record with its key. */
  lemma {:induction false} DedupLastWins<T>(xs: seq<T>, key: T -> string)
    ensures forall i :: 0 <= i < |Dedup(xs, key)| ==> LastWithKey(xs, key, key(Dedup(xs, key)[i])) == Some(Dedup(xs, key)[i])
  {
    if xs != [] {
      var p, x := xs[..|xs| - 1], xs[|xs| - 1];
      var d0 := Dedup(p, key);
      DedupLastWins(p, key);
      DedupUniqueKeys(p, key);
      PutShape(d0, key, x);
    }
  }

  /** A key present before an entry is added keeps its first position in the longer input. */
  lemma BeforeSnoc<T>(xs: seq<T>, key: T -> string, x: T, a: string, b: string)
    requires KeyBefore(xs, key, a, b)
    ensures KeyBefore(xs + [x], key, a, b)
  {
    IndexOfKeySnoc(xs, key, x, a);
    IndexOfKeySnoc(xs, key, x, b);
  }

  /** A key first seen in the added entry comes after every key seen before it. */
  lemma NewKeyLast<T>(xs: seq<T>, key: T -> string, x: T, a: string)
    requires IndexOfKey(xs, key, a).Some? && IndexOfKey(xs, key, key(x)).None?
    ensures KeyBefore(xs + [x], key, a, key(x))
  {
    IndexOfKeySnoc(xs, key, x, a);
    IndexOfKeySnoc(xs, key, x, key(x));
  }

  /** The merged records keep the order in which their keys first appear in the input. */
  lemma {:induction false} DedupFirstOrder<T>(xs: seq<T>, key: T -> string)
    ensures forall i :: 0 <= i < |Dedup(xs, key)| ==> IndexOfKey(xs, key, key(Dedup(xs, key)[i])).Some?
    ensures forall i, j :: 0 <= i < j < |Dedup(xs, key)| ==>
      KeyBefore(xs, key, key(Dedup(xs, key)[i]), key(Dedup(xs, key)[j]))
  {
    if xs != [] {
      var p, x := xs[..|xs| - 1], xs[|xs| - 1];
      assert xs == p + [x];
      var d0 := Dedup(p, key);
      var d := Dedup(xs, key);
      DedupFirstOrder(p, key);
      DedupUniqueKeys(p, key);
      DedupUniqueKeys(xs, key);
      PutShape(d0, key, x);
      IndexOfKeySnoc(p, key, x, key(x));
      forall i | 0 <= i < |d| ensures IndexOfKey(xs, key, key(d[i])).Some?
      {
        IndexOfKeySnoc(p, key, x, key(d[i]));
      }
      forall i, j | 0 <= i < j < |d| ensures KeyBefore(xs, key, key(d[i]), key(d[j]))
      {
        FirstOrderStep(p, x, key, i, j);
      }
    }
  }

  /** The induction step of `DedupFirstOrder` for one pair of positions. */
  lemma FirstOrderStep<T>(p: seq<T>, x: T, key: T -> string, i: nat, j: nat)
    requires UniqueKeys(Dedup(p, key), key) && UniqueKeys(Dedup(p + [x], key), key)
    requires forall i :: 0 <= i < |Dedup(p, key)| ==> IndexOfKey(p, key, key(Dedup(p, key)[i])).Some?
    requires forall i, j :: 0 <= i < j < |Dedup(p, key)| ==>
      KeyBefore(p, key, key(Dedup(p, key)[i]), key(Dedup(p, key)[j]))
    requires i < j < |Dedup(p + [x], key)|
    ensures KeyBefore(p + [x], key, key(Dedup(p + [x], key)[i]), key(Dedup(p + [x], key)[j]))
  {
    var xs := p + [x];
    assert xs[..|xs| - 1] == p && xs[|xs| - 1] == x;
    var d0 := Dedup(p, key);
    var d := Dedup(xs, key);
    assert d == Put(d0, key, x);
    PutShape(d0, key, x);
    var a, b := key(d[i]), key(d[j]);
    if a != key(x) && b != key(x) {
      BeforeSnoc(p, key, x, a, b);
    } else if a == key(x) {
      // `x` overwrote the entry at `i`, which already had its key
      var idx := IndexOfKey(d0, key, key(x)).value;
      assert |d| == |d0|;
      assert d[idx] == x;
      assert i == idx;
      assert key(d0[i]) == a;
      BeforeSnoc(p, key, x, a, b);
    } else if IndexOfKey(d0, key, key(x)).Some? {
      var idx := IndexOfKey(d0, key, key(x)).value;
      assert d[idx] == x;
      assert j == idx;
      assert key(d0[j]) == b;
      BeforeSnoc(p, key, x, a, b);
    } else {
      // `x` brought a new key, added at the end
      NewKeyIsNew(p, key, x);
      NewKeyLast(p, key, x, a);
    }
  }

  /** A key missing from the merged prefix is missing from the prefix itself. */
  lemma NewKeyIsNew<T>(p: seq<T>, key: T -> string, x: T)
    requires IndexOfKey(Dedup(p, key), key, key(x)).None?
    ensures IndexOfKey(p, key, key(x)).None?
  {
    IndexOfKeyIn(Dedup(p, key), key, key(x));
    IndexOfKeyIn(p, key, key(x));
    DedupKeys(p, key);
  }

  /** A collection whose keys are already unique goes through the merge unchanged. */
  lemma {:induction false} DedupOfUnique<T>(xs: seq<T>, key: T -> string)
    requires UniqueKeys(xs, key)
    ensures Dedup(xs, key) == xs
  {
    if xs != [] {
      var p, x := xs[..|xs| - 1], xs[|xs| - 1];
      assert UniqueKeys(p, key);
      DedupOfUnique(p, key);
      assert IndexOfKey(p, key, key(x)).None?;
      assert p + [x] == xs;
    }
  }

  /** Merging twice is merging once. */
  lemma DedupIdempotent<T>(xs: seq<T>, key: T -> string)
    ensures Dedup(Dedup(xs, key), key) == Dedup(xs, key)
  {
    DedupUniqueKeys(xs, key);
    DedupOfUnique(Dedup(xs, key), key);
  }

  /** Importing nothing into a merged collection leaves it as it is. */
  lemma MergeNothing<T>(existing: seq<T>, key: T -> string)
    requires UniqueKeys(existing, key)
    ensures MergeImport(existing, [], key) == existing
  {
    assert existing + [] == existing;
    DedupOfUnique(existing, key);
  }

  /** Keys already seen add nothing to the list of distinct keys. */
  lemma {:induction false} DistinctAbsorbs(a: seq<string>, b: seq<string>)
    requires forall k :: k in b ==> k in a
    ensures Distinct(a + b) == Distinct(a)
  {
    if b == [] {
      assert a + b == a;
    } else {
      var b', y := b[..|b| - 1], b[|b| - 1];
      assert (a + b)[..|a + b| - 1] == a + b';
      assert (a + b)[|a + b| - 1] == y;
      DistinctAbsorbs(a, b');
      DistinctContents(a);
    }
  }

  /** The last entry with a key that occurs in `b` is found in `b`, whatever comes before it. */
  lemma {:induction false} LastWithKeyOfAppend<T>(a: seq<T>, b: seq<T>, key: T -> string, k: string)
    requires k in Map(b, key)
    ensures LastWithKey(a + b, key, k) == LastWithKey(b, key, k)
  {
    var b', y := b[..|b| - 1], b[|b| - 1];
    assert (a + b)[..|a + b| - 1] == a + b';
    assert (a + b)[|a + b| - 1] == y;
    if key(y) != k {
      MapAppend(b', [y], key);
      assert b' + [y] == b;
      LastWithKeyOfAppend(a, b', key, k);
    }
  }

  /** Feeding the same records through the merge twice gives what feeding them once does. */
  lemma DedupOfDoubled<T>(xs: seq<T>, key: T -> string)
    ensures Dedup(xs + xs, key) == Dedup(xs, key)
  {
    var d1, d2 := Dedup(xs, key), Dedup(xs + xs, key);
    KeysOfDedup(xs, key);
    KeysOfDedup(xs + xs, key);
    MapAppend(xs, xs, key);
    DistinctAbsorbs(Map(xs, key), Map(xs, key));
    assert Map(d1, key) == Map(d2, key);
    DedupLastWins(xs, key);
    DedupLastWins(xs + xs, key);
    DedupKeys(xs, key);
    forall i | 0 <= i < |d1|
      ensures d2[i] == d1[i]
    {
      var k := key(d1[i]);
      assert k == Map(d1, key)[i] == Map(d2, key)[i] == key(d2[i]);
      assert k in Map(xs, key);
      LastWithKeyOfAppend(xs, xs, key, k);
    }
  }

  /** Importing into a merged collection the very records it holds changes nothing. */
  lemma ReimportChangesNothing<T>(existing: seq<T>, key: T -> string)
    requires UniqueKeys(existing, key)
    ensures MergeImport(existing, existing, key) == existing
  {
    DedupOfDoubled(existing, key);
    DedupOfUnique(existing, key);
  }
}
