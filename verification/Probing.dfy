/**
 * Open addressing with linear probing and tombstones, over values: what it means for
 * every key to be found, and why filling a tombstone or burying a key keeps it so.
 */
module Probing {

  /** One slot as the dispatch tables read it. */
  datatype Slot<K> = Empty | Tomb | Full(key: K, owner: nat)

  /** The slot visited by one probe; the tables mask with a power of two less one. */
  function At(start: nat, probe: nat, n: nat): (slot: nat)
    requires start < n && probe < n
    ensures slot < n && Reach(start, slot, n) == probe
  {
    if start + probe < n then start + probe else start + probe - n
  }

  /** How many probes from `start` reach `slot`. */
  function Reach(start: nat, slot: nat, n: nat): (probe: nat)
    requires start < n && slot < n
    ensures probe < n
  {
    if start <= slot then slot - start else slot + n - start
  }

  /** No key sits in two slots. */
  ghost predicate Unique<K(!new)>(s: seq<Slot<K>>) {
    forall i, j :: 0 <= i < |s| && 0 <= j < |s| && s[i].Full? && s[j].Full? && s[i].key == s[j].key ==> i == j
  }

  /** Nothing empty lies before slot `i` on the way from `start`. */
  ghost predicate Open<K(!new)>(s: seq<Slot<K>>, start: nat, i: nat)
    requires start < |s| && i < |s|
  {
    forall p | 0 <= p < Reach(start, i, |s|) :: !s[At(start, p, |s|)].Empty?
  }

  /** Slot `i` holds no key, and every slot before it on the way from `start` does. */
  ghost predicate Foremost<K(!new)>(s: seq<Slot<K>>, start: nat, i: nat)
    requires start < |s| && i < |s|
  {
    !s[i].Full? && forall p | 0 <= p < Reach(start, i, |s|) :: s[At(start, p, |s|)].Full?
  }

  /** Every live key is reachable from its own start slot. */
  ghost predicate Reachable<K(!new)>(s: seq<Slot<K>>, hash: K -> nat) {
    forall i | 0 <= i < |s| && s[i].Full? :: hash(s[i].key) < |s| && Open(s, hash(s[i].key), i)
  }

  /** The finite map a table stands for. */
  ghost predicate Stands<K(!new)>(s: seq<Slot<K>>, m: map<K, nat>) {
    && (forall i | 0 <= i < |s| && s[i].Full? :: s[i].key in m && m[s[i].key] == s[i].owner)
    && (forall k | k in m :: exists i :: 0 <= i < |s| && s[i] == Full(k, m[k]))
  }

  ghost predicate Table<K(!new)>(s: seq<Slot<K>>, hash: K -> nat, m: map<K, nat>) {
    Unique(s) && Reachable(s, hash) && Stands(s, m)
  }

  /** The first `p` probes for `k` met neither `k` nor an empty slot. */
  ghost predicate Missed<K(!new)>(s: seq<Slot<K>>, k: K, start: nat, p: nat)
    requires start < |s| && p <= |s|
  {
    forall q | 0 <= q < p :: !s[At(start, q, |s|)].Empty? && !Keyed(s[At(start, q, |s|)], k)
  }

  ghost predicate Keyed<K(!new)>(slot: Slot<K>, k: K) {
    slot.Full? && slot.key == k
  }

  /** A key missed up to an empty slot, or all the way round, is not in the table. */
  lemma Absent<K(!new)>(s: seq<Slot<K>>, hash: K -> nat, m: map<K, nat>, k: K, p: nat)
    requires Table(s, hash, m) && hash(k) < |s| && p <= |s| && Missed(s, k, hash(k), p)
    requires p < |s| ==> s[At(hash(k), p, |s|)].Empty?
    ensures k !in m
  {
    forall i | 0 <= i < |s| ensures !Keyed(s[i], k) {
      var d := Reach(hash(k), i, |s|);
      assert At(hash(k), d, |s|) == i;
      if p < d {
        assert !Open(s, hash(k), i);
      }
    }
  }

  /** The first `p` probes met neither the pair nor an empty slot. */
  ghost predicate Passed<K(!new)>(s: seq<Slot<K>>, k: K, owner: nat, start: nat, p: nat)
    requires start < |s| && p <= |s|
  {
    forall q | 0 <= q < p :: !s[At(start, q, |s|)].Empty? && s[At(start, q, |s|)] != Full(k, owner)
  }

  /** A pair passed by up to an empty slot, or all the way round, is not in the table. */
  lemma NotHeld<K(!new)>(s: seq<Slot<K>>, hash: K -> nat, m: map<K, nat>, k: K, owner: nat, p: nat)
    requires Table(s, hash, m) && hash(k) < |s| && p <= |s| && Passed(s, k, owner, hash(k), p)
    requires p < |s| ==> s[At(hash(k), p, |s|)].Empty?
    ensures k in m ==> m[k] != owner
  {
    forall i | 0 <= i < |s| ensures s[i] != Full(k, owner) {
      var d := Reach(hash(k), i, |s|);
      assert At(hash(k), d, |s|) == i;
      if p < d {
        assert !Open(s, hash(k), i);
      }
    }
  }

  /** Placing an absent key where every earlier probe met a used slot keeps the table. */
  lemma Placed<K(!new)>(s: seq<Slot<K>>, hash: K -> nat, m: map<K, nat>, k: K, owner: nat, p: nat)
    requires Table(s, hash, m) && hash(k) < |s| && p < |s| && k !in m
    requires !s[At(hash(k), p, |s|)].Full? && forall q | 0 <= q < p :: !s[At(hash(k), q, |s|)].Empty?
    ensures Table(s[At(hash(k), p, |s|) := Full(k, owner)], hash, m[k := owner])
  {
    var at := At(hash(k), p, |s|);
    var t := s[at := Full(k, owner)];
    var w := m[k := owner];
    forall i | 0 <= i < |t| && t[i].Full? ensures hash(t[i].key) < |t| && Open(t, hash(t[i].key), i) {
      if i != at {
        assert Open(s, hash(s[i].key), i);
      }
    }
    forall x | x in w ensures exists i :: 0 <= i < |t| && t[i] == Full(x, w[x]) {
      if x == k {
        assert t[at] == Full(x, w[x]);
      } else {
        var i :| 0 <= i < |s| && s[i] == Full(x, m[x]);
        assert t[i] == Full(x, w[x]);
      }
    }
  }

  /** Burying a key under a tombstone removes it and strands no other key. */
  lemma Buried<K(!new)>(s: seq<Slot<K>>, hash: K -> nat, m: map<K, nat>, i: nat)
    requires Table(s, hash, m) && i < |s| && s[i].Full?
    ensures Table(s[i := Tomb], hash, m - {s[i].key})
  {
    var t := s[i := Tomb];
    var w := m - {s[i].key};
    forall j | 0 <= j < |t| && t[j].Full? ensures hash(t[j].key) < |t| && Open(t, hash(t[j].key), j) {
      assert Open(s, hash(s[j].key), j);
    }
    forall x | x in w ensures exists j :: 0 <= j < |t| && t[j] == Full(x, w[x]) {
      var j :| 0 <= j < |s| && s[j] == Full(x, m[x]);
      assert t[j] == Full(x, w[x]);
    }
  }

  /** An all-empty table stands for the empty map. */
  lemma Cleared<K(!new)>(s: seq<Slot<K>>, hash: K -> nat)
    requires forall i | 0 <= i < |s| :: s[i].Empty?
    ensures Table(s, hash, map[])
  {
  }

  ghost function Keys<K(!new)>(s: seq<Slot<K>>, n: nat): (keys: set<K>)
    requires n <= |s|
  {
    set i | 0 <= i < n && s[i].Full? :: s[i].key
  }

  lemma {:induction false} Tally<K(!new)>(s: seq<Slot<K>>, n: nat)
    requires n <= |s| && Unique(s) && forall i | 0 <= i < |s| :: s[i].Full?
    ensures |Keys(s, n)| == n
  {
    if n > 0 {
      Tally(s, n - 1);
      assert Keys(s, n) == Keys(s, n - 1) + {s[n - 1].key};
    }
  }

  /** A table with no free slot holds as many keys as it has slots. */
  lemma Capacity<K(!new)>(s: seq<Slot<K>>, hash: K -> nat, m: map<K, nat>)
    requires Table(s, hash, m) && forall i | 0 <= i < |s| :: s[i].Full?
    ensures |m| == |s|
  {
    Tally(s, |s|);
    assert Keys(s, |s|) == m.Keys;
  }
}
