/** Bounded association lists: the abstract value of the two tables that hal_info keeps as arrays.
    An entry is found and removed by its key; the first entry with that key counts. */
module Assoc {

  datatype Option<+T> = None | Some(value: T)

  datatype Entry<K, V> = Entry(key: K, val: V)

  /** What a handler is registered for: a netlink command, and for vendor commands an id and a subcommand. */
  datatype Key = Key(nlCmd: int, vendorId: int, subcmd: int)

  /** Sizes of the two tables of hal_info. */
  const DEFAULT_EVENT_CB_SIZE: nat := 64
  const DEFAULT_CMD_SIZE: nat := 64

  /** The position of the first entry with key k, or |s| when there is none. */
  function IndexOf<K(==), V>(s: seq<Entry<K, V>>, k: K): (i: nat)
    ensures i <= |s|
    ensures forall j :: 0 <= j < i ==> s[j].key != k
    ensures i < |s| ==> s[i].key == k
  {
    if s == [] then 0
    else if s[0].key == k then 0
    else 1 + IndexOf(s[1..], k)
  }

  function Lookup<K(==), V>(s: seq<Entry<K, V>>, k: K): Option<V> {
    var i := IndexOf(s, k);
    if i < |s| then Some(s[i].val) else None
  }

  function RemoveFirst<K(==), V>(s: seq<Entry<K, V>>, k: K): seq<Entry<K, V>> {
    var i := IndexOf(s, k);
    if i < |s| then s[..i] + s[i + 1..] else s
  }

  /** Registration: refused without a trace when the table is full. */
  function Append<K, V>(s: seq<Entry<K, V>>, capacity: nat, e: Entry<K, V>): seq<Entry<K, V>> {
    if |s| < capacity then s + [e] else s
  }

  ghost predicate HasKey<K, V>(s: seq<Entry<K, V>>, k: K) {
    exists i :: 0 <= i < |s| && s[i].key == k
  }

  ghost predicate DistinctKeys<K, V>(s: seq<Entry<K, V>>) {
    forall i, j :: 0 <= i < j < |s| ==> s[i].key != s[j].key
  }

  /** A position with key k that has no earlier one is the position IndexOf computes. */
  lemma IndexOfUnique<K, V>(s: seq<Entry<K, V>>, k: K, i: nat)
    requires i <= |s|
    requires forall j :: 0 <= j < i ==> s[j].key != k
    requires i < |s| ==> s[i].key == k
    ensures IndexOf(s, k) == i
  {
  }

  /** Without an entry for k, removing k changes nothing. */
  lemma RemoveAbsent<K, V>(s: seq<Entry<K, V>>, k: K)
    requires !HasKey(s, k)
    ensures RemoveFirst(s, k) == s
  {
  }

  /** Registering an absent key and removing it again gives the table back, full or not. */
  lemma RemoveAppended<K, V>(s: seq<Entry<K, V>>, capacity: nat, e: Entry<K, V>)
    requires !HasKey(s, e.key)
    ensures RemoveFirst(Append(s, capacity, e), e.key) == s
  {
    if |s| < capacity {
      IndexOfUnique(s + [e], e.key, |s|);
    } else {
      RemoveAbsent(s, e.key);
    }
  }

  /** Removing k leaves every entry with another key. */
  lemma RemoveKeepsOthers<K, V>(s: seq<Entry<K, V>>, k: K, e: Entry<K, V>)
    ensures e in RemoveFirst(s, k) ==> e in s
    ensures e in s && e.key != k ==> e in RemoveFirst(s, k)
  {
    var i := IndexOf(s, k);
    if i < |s| {
      assert s == s[..i] + [s[i]] + s[i + 1..];
      assert e in s <==> e in s[..i] || e == s[i] || e in s[i + 1..];
    }
  }

  /** Removing from a table with distinct keys keeps the keys distinct and leaves no entry for k. */
  lemma RemoveKeepsDistinct<K, V>(s: seq<Entry<K, V>>, k: K)
    requires DistinctKeys(s)
    ensures DistinctKeys(RemoveFirst(s, k)) && !HasKey(RemoveFirst(s, k), k)
  {
  }

  /** When k is not in the front part, removing it works on the rest alone. */
  lemma RemoveFromTail<K, V>(s: seq<Entry<K, V>>, t: seq<Entry<K, V>>, k: K)
    requires !HasKey(s, k)
    ensures RemoveFirst(s + t, k) == s + RemoveFirst(t, k)
  {
    var i := IndexOf(t, k);
    IndexOfUnique(s + t, k, |s| + i);
    if i < |t| {
      assert (s + t)[..|s| + i] == s + t[..i] && (s + t)[|s| + i + 1..] == t[i + 1..];
    }
  }
}
