/** Counting timed hits of a key. */
module Tally {
  datatype Hit<+K> = Hit(key: K, at: int)

  /** Hits of the key from `lo` up to but not at `hi`. */
  function Count<K(==)>(log: seq<Hit<K>>, key: K, lo: int, hi: int): nat {
    if log == [] then 0
    else
      var last := log[|log| - 1];
      Count(log[..|log| - 1], key, lo, hi) + if last.key == key && lo <= last.at < hi then 1 else 0
  }

  lemma CountAppend<K>(log: seq<Hit<K>>, h: Hit<K>, key: K, lo: int, hi: int)
    ensures Count(log + [h], key, lo, hi) == Count(log, key, lo, hi) + if h.key == key && lo <= h.at < hi then 1 else 0
  {
    assert (log + [h])[..|log|] == log;
  }

  lemma {:induction false} CountSplit<K>(log: seq<Hit<K>>, key: K, lo: int, mid: int, hi: int)
    requires lo <= mid <= hi
    ensures Count(log, key, lo, hi) == Count(log, key, lo, mid) + Count(log, key, mid, hi)
  {
    if log != [] { CountSplit(log[..|log| - 1], key, lo, mid, hi); }
  }

  lemma {:induction false} CountNone<K>(log: seq<Hit<K>>, key: K, lo: int, hi: int)
    requires hi <= lo || forall i :: 0 <= i < |log| ==> log[i].at < lo
    ensures Count(log, key, lo, hi) == 0
  {
    if log != [] { CountNone(log[..|log| - 1], key, lo, hi); }
  }

  lemma CountWithin<K>(log: seq<Hit<K>>, key: K, lo: int, hi: int, lo': int, hi': int)
    requires lo' <= lo <= hi <= hi'
    ensures Count(log, key, lo, hi) <= Count(log, key, lo', hi')
  {
    CountSplit(log, key, lo', lo, hi');
    CountSplit(log, key, lo, hi, hi');
  }
}
