/**
 * A Python `dict[str, str]`: key/value pairs in insertion order.
 * Assigning to an existing key replaces its value where it stands;
 * assigning to a new key appends it. Iterating a dict visits the keys in
 * that order, which the key-normalisation loops depend on.
 */
module PyDict {
  import opened Wrappers

  type Dict = seq<(string, string)>

  function Keys(d: Dict): (ks: seq<string>)
    ensures |ks| == |d|
    ensures forall i :: 0 <= i < |d| ==> ks[i] == d[i].0
  {
    if d == [] then [] else [d[0].0] + Keys(d[1..])
  }

  /** No key occurs twice. */
  predicate UniqueKeys(d: Dict) {
    forall i, j :: 0 <= i < j < |d| ==> d[i].0 != d[j].0
  }

  /** `d.get(k)`. */
  function Get(d: Dict, k: string): (r: Option<string>)
    ensures r.Some? <==> k in Keys(d)
    ensures r.Some? ==> (k, r.value) in d
  {
    if d == [] then None
    else if d[0].0 == k then Some(d[0].1)
    else Get(d[1..], k)
  }

  /** `d.get(k, default)`. */
  function GetOr(d: Dict, k: string, default: string): string {
    Get(d, k).GetOr(default)
  }

  /** `d[k] = v`: the new value is found under `k` and every other key keeps its value. */
  function Put(d: Dict, k: string, v: string): (r: Dict)
    ensures Get(r, k) == Some(v)
    ensures forall k' :: k' != k ==> Get(r, k') == Get(d, k')
  {
    if d == [] then [(k, v)]
    else if d[0].0 == k then [(k, v)] + d[1..]
    else [d[0]] + Put(d[1..], k, v)
  }

  /** Assignment keeps the key order, appending a key that was not there. */
  lemma {:induction false} PutKeys(d: Dict, k: string, v: string)
    ensures Keys(Put(d, k, v)) == if k in Keys(d) then Keys(d) else Keys(d) + [k]
  {
    if d != [] {
      var rest := d[1..];
      assert Keys(d) == [d[0].0] + Keys(rest);
      if d[0].0 == k {
        assert Put(d, k, v) == [(k, v)] + rest;
        assert Keys(Put(d, k, v)) == [k] + Keys(rest);
      } else {
        PutKeys(rest, k, v);
        assert Keys(Put(d, k, v)) == [d[0].0] + Keys(Put(rest, k, v));
        assert k in Keys(d) <==> k in Keys(rest);
      }
    }
  }

  /** Assignment never duplicates a key. */
  lemma PutUnique(d: Dict, k: string, v: string)
    requires UniqueKeys(d)
    ensures UniqueKeys(Put(d, k, v))
  {
    var r := Put(d, k, v);
    PutKeys(d, k, v);
    forall i, j | 0 <= i < j < |r| ensures r[i].0 != r[j].0 {
      assert Keys(r)[i] == r[i].0 && Keys(r)[j] == r[j].0;
      if j < |d| {
        assert Keys(d)[i] == d[i].0 && Keys(d)[j] == d[j].0;
      } else {
        assert k !in Keys(d);
        assert Keys(d)[i] == d[i].0;
      }
    }
  }

  /** The value the last pair with key `k` carries, if any. */
  function LastValue(pairs: seq<(string, string)>, k: string): Option<string> {
    if pairs == [] then None
    else if pairs[|pairs| - 1].0 == k then Some(pairs[|pairs| - 1].1)
    else LastValue(pairs[..|pairs| - 1], k)
  }

  /** The dict that assigning `pairs` in order to an empty dict produces. */
  function FromPairs(pairs: seq<(string, string)>): Dict {
    if pairs == [] then []
    else
      var last := pairs[|pairs| - 1];
      Put(FromPairs(pairs[..|pairs| - 1]), last.0, last.1)
  }

  lemma FromPairsSnoc(pairs: seq<(string, string)>, p: (string, string))
    ensures FromPairs(pairs + [p]) == Put(FromPairs(pairs), p.0, p.1)
  {
    assert (pairs + [p])[..|pairs|] == pairs;
  }

  /** Assigning pairs in order: a later pair for a key overwrites every earlier one, and a key never assigned is absent. */
  lemma {:induction false} FromPairsGet(pairs: seq<(string, string)>, k: string)
    ensures Get(FromPairs(pairs), k) == LastValue(pairs, k)
  {
    if pairs != [] {
      FromPairsGet(pairs[..|pairs| - 1], k);
    }
  }

  /** A dict built by assignments never holds a key twice. */
  lemma {:induction false} FromPairsUnique(pairs: seq<(string, string)>)
    ensures UniqueKeys(FromPairs(pairs))
  {
    if pairs != [] {
      var last := pairs[|pairs| - 1];
      FromPairsUnique(pairs[..|pairs| - 1]);
      PutUnique(FromPairs(pairs[..|pairs| - 1]), last.0, last.1);
    }
  }

  /** Assigning a new key appends it. */
  lemma {:induction false} PutAbsent(d: Dict, k: string, v: string)
    requires forall i :: 0 <= i < |d| ==> d[i].0 != k
    ensures Put(d, k, v) == d + [(k, v)]
  {
    if d != [] {
      var rest := d[1..];
      assert d[0].0 != k;
      PutAbsent(rest, k, v);
      calc {
        Put(d, k, v);
        [d[0]] + Put(rest, k, v);
        [d[0]] + (rest + [(k, v)]);
        ([d[0]] + rest) + [(k, v)];
        { assert [d[0]] + rest == d; }
        d + [(k, v)];
      }
    }
  }

  /** Pairs with distinct keys build the dict that lists them in order. */
  lemma {:induction false} FromPairsDistinct(pairs: seq<(string, string)>)
    requires UniqueKeys(pairs)
    ensures FromPairs(pairs) == pairs
  {
    if pairs != [] {
      var init := pairs[..|pairs| - 1];
      var last := pairs[|pairs| - 1];
      assert UniqueKeys(init) by {
        forall i, j | 0 <= i < j < |init| ensures init[i].0 != init[j].0 {
          assert init[i] == pairs[i] && init[j] == pairs[j];
        }
      }
      forall i | 0 <= i < |init| ensures init[i].0 != last.0 {
        assert init[i] == pairs[i];
      }
      FromPairsDistinct(init);
      PutAbsent(init, last.0, last.1);
      calc {
        FromPairs(pairs);
        Put(FromPairs(init), last.0, last.1);
        init + [last];
        { assert init + [last] == pairs; }
        pairs;
      }
    }
  }
}
