/**
 * Python dictionaries with string keys, as the plugin uses them: an insertion-ordered list of
 * entries with distinct keys. Assigning to a present key replaces its value where it stands;
 * assigning to a new key appends it. `Dict` is the mutable object that callers share.
 */
module Dicts {
  import opened Wrappers

  datatype Entry<V> = Entry(key: string, val: V)

  function Keys<V>(d: seq<Entry<V>>): seq<string> {
    seq(|d|, i requires 0 <= i < |d| => d[i].key)
  }

  predicate Distinct(ks: seq<string>) {
    forall i, j :: 0 <= i < j < |ks| ==> ks[i] != ks[j]
  }

  /** Position of the first `k` in `ks`, or `|ks|` when it is absent. */
  function IndexOf(ks: seq<string>, k: string): (i: nat)
    ensures i <= |ks|
    ensures i < |ks| <==> k in ks
    ensures i < |ks| ==> ks[i] == k
    ensures forall j :: 0 <= j < i ==> ks[j] != k
    decreases |ks|
  {
    if ks == [] then 0 else if ks[0] == k then 0 else 1 + IndexOf(ks[1..], k)
  }

  lemma IndexOfAppend(ks: seq<string>, x: string, k: string)
    requires x !in ks
    ensures IndexOf(ks + [x], k) == if k in ks then IndexOf(ks, k) else if k == x then |ks| else |ks| + 1
  {
    var i := IndexOf(ks + [x], k);
    var ks' := ks + [x];
    if k in ks {
      var j := IndexOf(ks, k);
      assert ks'[j] == k;
    } else if k == x {
      assert ks'[|ks|] == k;
    } else {
      assert k !in ks';
    }
  }

  /** `d[k]`, or None when `k` is not a key. */
  function Lookup<V>(d: seq<Entry<V>>, k: string): Option<V> {
    var i := IndexOf(Keys(d), k);
    if i < |d| then Some(d[i].val) else None
  }

  /** `d[k] = v` on a dictionary value. */
  function Put<V>(d: seq<Entry<V>>, k: string, v: V): (r: seq<Entry<V>>)
    ensures Lookup(r, k) == Some(v)
    ensures forall k' :: k' != k ==> Lookup(r, k') == Lookup(d, k')
    ensures Keys(r) == if k in Keys(d) then Keys(d) else Keys(d) + [k]
    ensures Distinct(Keys(d)) ==> Distinct(Keys(r))
    ensures forall e :: e in r ==> e == Entry(k, v) || e in d
  {
    var i := IndexOf(Keys(d), k);
    if i < |d| then
      assert Keys(d[i := Entry(k, v)]) == Keys(d);
      d[i := Entry(k, v)]
    else
      assert Keys(d + [Entry(k, v)]) == Keys(d) + [k];
      assert forall k' :: IndexOf(Keys(d) + [k], k') == if k' in Keys(d) then IndexOf(Keys(d), k') else if k' == k then |d| else |d| + 1 by {
        forall k' { IndexOfAppend(Keys(d), k, k'); }
      }
      d + [Entry(k, v)]
  }

  /** The dictionary built by assigning each entry in turn: `for e in es: d[e.key] = e.val`. */
  function FromEntries<V>(es: seq<Entry<V>>): (d: seq<Entry<V>>)
    ensures Distinct(Keys(d))
    ensures forall k :: k in Keys(d) <==> k in Keys(es)
    decreases |es|
  {
    if es == [] then []
    else
      var prefix := es[..|es| - 1];
      assert Keys(es) == Keys(prefix) + [es[|es| - 1].key];
      Put(FromEntries(prefix), es[|es| - 1].key, es[|es| - 1].val)
  }

  /** The value of the last entry with key `k`. */
  function LastValue<V>(es: seq<Entry<V>>, k: string): Option<V>
    decreases |es|
  {
    if es == [] then None
    else if es[|es| - 1].key == k then Some(es[|es| - 1].val)
    else LastValue(es[..|es| - 1], k)
  }

  /** Building a dictionary keeps, for every key, the value of its last entry. */
  lemma {:induction false} LookupFromEntries<V>(es: seq<Entry<V>>, k: string)
    ensures Lookup(FromEntries(es), k) == LastValue(es, k)
    decreases |es|
  {
    if es != [] {
      LookupFromEntries(es[..|es| - 1], k);
    }
  }

  /** The distinct strings of `ks`, each where it first appears. */
  function FirstOccurrences(ks: seq<string>): (r: seq<string>)
    ensures Distinct(r)
    ensures forall k :: k in r <==> k in ks
    decreases |ks|
  {
    if ks == [] then []
    else
      var prefix := ks[..|ks| - 1];
      var last := ks[|ks| - 1];
      assert ks == prefix + [last];
      if last in prefix then FirstOccurrences(prefix) else FirstOccurrences(prefix) + [last]
  }

  /** Keys that are already distinct are kept as they are, in order. */
  lemma {:induction false} FirstOccurrencesOfDistinct(ks: seq<string>)
    requires Distinct(ks)
    ensures FirstOccurrences(ks) == ks
    decreases |ks|
  {
    if ks != [] {
      var prefix := ks[..|ks| - 1];
      assert Distinct(prefix) by {
        forall i, j | 0 <= i < j < |prefix|
          ensures prefix[i] != prefix[j]
        {
          assert prefix[i] == ks[i] && prefix[j] == ks[j];
        }
      }
      FirstOccurrencesOfDistinct(prefix);
      assert ks[|ks| - 1] !in prefix by {
        forall i | 0 <= i < |prefix|
          ensures prefix[i] != ks[|ks| - 1]
        {
          assert prefix[i] == ks[i];
        }
      }
      assert ks == prefix + [ks[|ks| - 1]];
    }
  }

  /** The keys of a built dictionary are the entries' keys in order of first insertion. */
  lemma {:induction false} KeysFromEntries<V>(es: seq<Entry<V>>)
    ensures Keys(FromEntries(es)) == FirstOccurrences(Keys(es))
    decreases |es|
  {
    if es != [] {
      var prefix, last := es[..|es| - 1], es[|es| - 1];
      KeysFromEntries(prefix);
      var ks := Keys(es);
      assert ks[..|ks| - 1] == Keys(prefix);
      assert ks[|ks| - 1] == last.key;
      assert FromEntries(es) == Put(FromEntries(prefix), last.key, last.val);
      assert (last.key in Keys(FromEntries(prefix))) == (last.key in Keys(prefix));
    }
  }

  /** A Python dict object: the value that every holder of a reference sees. */
  class Dict<V> {
    var entries: seq<Entry<V>>

    constructor (es: seq<Entry<V>>)
      ensures entries == es
    {
      entries := es;
    }

    /** `self[k] = v`, in place. */
    method Set(k: string, v: V)
      modifies this
      ensures entries == Put(old(entries), k, v)
    {
      entries := Put(entries, k, v);
    }
  }
}
