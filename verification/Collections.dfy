/** Small facts about sequences and sets. */
module Collections {

  /** `s.slice(0, n)` */
  function Take<T>(s: seq<T>, n: nat): seq<T> {
    if |s| <= n then s else s[..n]
  }

  lemma OneElement<T>(s: set<T>, x: T)
    requires x in s
    ensures |s| == 1 <==> s == {x}
  {
    if |s| == 1 { assert |s - {x}| == 0; }
  }

  lemma RestOf<T>(before: seq<T>, x: T, after: seq<T>)
    requires before != []
    ensures (before + [x] + after)[0] == before[0]
    ensures (before + [x] + after)[1..] == before[1..] + [x] + after
  {
  }

  lemma Regroup<T>(a: seq<T>, b: seq<T>, c: seq<T>, d: seq<T>)
    ensures a + (b + c + d) == a + b + c + d
  {
  }
}
