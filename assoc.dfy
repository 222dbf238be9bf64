/**
 * PHP's ordered associative array with string keys, as the parser fills it
 * (`$data[$key] = $value`): assigning to a new key appends it, assigning to an
 * existing key replaces its value where it stands.
 */
module Assoc {
  import opened Wrappers

  type Entries = seq<(string, string)>

  /** `$m[$k]`, or None when `isset($m[$k])` is false. */
  function Lookup(m: Entries, k: string): (r: Option<string>)
    ensures r.None? <==> forall i :: 0 <= i < |m| ==> m[i].0 != k
  {
    if |m| == 0 then None
    else if m[0].0 == k then Some(m[0].1)
    else Lookup(m[1..], k)
  }

  /** No key occurs twice. */
  predicate UniqueKeys(m: Entries) {
    forall i, j :: 0 <= i < j < |m| ==> m[i].0 != m[j].0
  }

  function Keys(m: Entries): (r: seq<string>)
    ensures |r| == |m| && forall i :: 0 <= i < |m| ==> r[i] == m[i].0
  {
    if |m| == 0 then [] else [m[0].0] + Keys(m[1..])
  }

  /** `$m[$k] = $v`. */
  function Put(m: Entries, k: string, v: string): (r: Entries)
    ensures Lookup(r, k) == Some(v)
    ensures forall k' :: k' != k ==> Lookup(r, k') == Lookup(m, k')
    ensures Lookup(m, k).None? ==> r == m + [(k, v)]
  {
    if |m| == 0 then [(k, v)]
    else if m[0].0 == k then
      LookupCons((k, v), m[1..]);
      [(k, v)] + m[1..]
    else
      var r := Put(m[1..], k, v);
      LookupCons(m[0], r);
      assert Lookup(m, k).None? ==> m + [(k, v)] == [m[0]] + (m[1..] + [(k, v)]);
      [m[0]] + r
  }

  /** Assigning keeps the keys distinct. */
  lemma {:induction false} PutUnique(m: Entries, k: string, v: string)
    requires UniqueKeys(m)
    ensures UniqueKeys(Put(m, k, v))
  {
    if |m| > 0 {
      UniqueTail(m);
      if m[0].0 == k {
        UniqueCons((k, v), m[1..]);
      } else {
        PutUnique(m[1..], k, v);
        UniqueCons(m[0], Put(m[1..], k, v));
      }
    }
  }

  /** Assigning keeps every key where it stands. */
  lemma {:induction false} PutSameKeys(m: Entries, k: string, v: string)
    ensures |m| <= |Put(m, k, v)| && forall i :: 0 <= i < |m| ==> Put(m, k, v)[i].0 == m[i].0
  {
    if |m| > 0 {
      var r := Put(m, k, v);
      if m[0].0 == k {
        assert forall i :: 0 < i < |m| ==> r[i] == m[i];
      } else {
        PutSameKeys(m[1..], k, v);
        assert forall i :: 0 < i < |m| ==> r[i] == Put(m[1..], k, v)[i - 1] && m[i] == m[1..][i - 1];
      }
    }
  }

  /** The rest of an array without repeated keys has none, and lacks its first key. */
  lemma UniqueTail(m: Entries)
    requires |m| > 0 && UniqueKeys(m)
    ensures UniqueKeys(m[1..]) && Lookup(m[1..], m[0].0).None?
  {
    assert forall i :: 0 <= i < |m| - 1 ==> m[1..][i] == m[i + 1];
  }

  /** Putting an entry with a new key in front keeps the keys distinct. */
  lemma UniqueCons(x: (string, string), m: Entries)
    requires UniqueKeys(m) && Lookup(m, x.0).None?
    ensures UniqueKeys([x] + m)
  {
    assert forall i :: 0 < i <= |m| ==> ([x] + m)[i] == m[i - 1];
  }

  /** Looking up a key in an array that starts with the entry `x`. */
  lemma LookupCons(x: (string, string), m: Entries)
    ensures forall k :: Lookup([x] + m, k) == if x.0 == k then Some(x.1) else Lookup(m, k)
  {
    assert ([x] + m)[1..] == m;
  }

  /** The array a `foreach` of `$data[$key] = $value` builds from an empty array over `pairs`. */
  function FromPairs(pairs: seq<(string, string)>): Entries
  {
    if |pairs| == 0 then [] else
      var last := pairs[|pairs| - 1];
      Put(FromPairs(pairs[..|pairs| - 1]), last.0, last.1)
  }

  /** The value of the last pair in `pairs` whose key is `k`. */
  function LastValue(pairs: seq<(string, string)>, k: string): (r: Option<string>)
    ensures r.None? <==> forall i :: 0 <= i < |pairs| ==> pairs[i].0 != k
    ensures r.Some? ==> exists i :: 0 <= i < |pairs| && pairs[i] == (k, r.value)
  {
    if |pairs| == 0 then None
    else if pairs[|pairs| - 1].0 == k then Some(pairs[|pairs| - 1].1)
    else LastValue(pairs[..|pairs| - 1], k)
  }

  /** Assigning every pair in turn keeps each key once, with the value assigned last. */
  lemma {:induction false} FromPairsLookup(pairs: seq<(string, string)>, k: string)
    ensures Lookup(FromPairs(pairs), k) == LastValue(pairs, k)
    ensures UniqueKeys(FromPairs(pairs))
  {
    if |pairs| > 0 {
      var last := pairs[|pairs| - 1];
      FromPairsLookup(pairs[..|pairs| - 1], k);
      PutUnique(FromPairs(pairs[..|pairs| - 1]), last.0, last.1);
    }
  }

  /** Assigning never moves or drops a key already present. */
  lemma PutKeepsKeys(m: Entries, k: string, v: string)
    ensures |m| <= |Put(m, k, v)|
    ensures Keys(Put(m, k, v))[..|m|] == Keys(m)
  {
    var r := Put(m, k, v);
    PutSameKeys(m, k, v);
    assert forall i :: 0 <= i < |m| ==> Keys(r)[i] == r[i].0 == m[i].0;
  }

  /** A key is kept at the position where it was first assigned. */
  lemma {:induction false} FromPairsOrder(pairs: seq<(string, string)>, more: seq<(string, string)>)
    ensures |FromPairs(pairs)| <= |FromPairs(pairs + more)|
    ensures Keys(FromPairs(pairs)) == Keys(FromPairs(pairs + more))[..|FromPairs(pairs)|]
    decreases |more|
  {
    if |more| == 0 {
      assert pairs + more == pairs;
    } else {
      var init := pairs + more[..|more| - 1];
      var last := more[|more| - 1];
      FromPairsStep(pairs, more);
      FromPairsOrder(pairs, more[..|more| - 1]);
      PutKeepsKeys(FromPairs(init), last.0, last.1);
      KeysPrefixTrans(FromPairs(pairs), FromPairs(init), FromPairs(pairs + more));
    }
  }

  /** The last pair of `pairs + more` is assigned after all the others. */
  lemma FromPairsStep(pairs: seq<(string, string)>, more: seq<(string, string)>)
    requires |more| > 0
    ensures var last := more[|more| - 1];
      FromPairs(pairs + more) == Put(FromPairs(pairs + more[..|more| - 1]), last.0, last.1)
  {
    assert (pairs + more)[..|pairs + more| - 1] == pairs + more[..|more| - 1];
    assert (pairs + more)[|pairs + more| - 1] == more[|more| - 1];
  }

  /** Key order that is kept from `a` to `b` and from `b` to `c` is kept from `a` to `c`. */
  lemma KeysPrefixTrans(a: Entries, b: Entries, c: Entries)
    requires |a| <= |b| <= |c|
    requires Keys(a) == Keys(b)[..|a|] && Keys(b) == Keys(c)[..|b|]
    ensures Keys(a) == Keys(c)[..|a|]
  {
    assert Keys(c)[..|a|] == Keys(c)[..|b|][..|a|];
  }

  /** The `foreach` loop itself: assigns the pairs one by one. */
  method Fill(pairs: seq<(string, string)>) returns (m: Entries)
    ensures m == FromPairs(pairs)
  {
    m := [];
    var i := 0;
    while i < |pairs|
      invariant 0 <= i <= |pairs|
      invariant m == FromPairs(pairs[..i])
    {
      assert pairs[..i + 1][..i] == pairs[..i];
      m := Put(m, pairs[i].0, pairs[i].1);
      i := i + 1;
    }
    assert pairs[..i] == pairs;
  }
}
