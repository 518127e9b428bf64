/** Locating every occurrence of one marker character in the level string. */
module Scanner {

  /** The string search `s.find(c, start)`: the first index at or after
      start that holds c, or -1 when there is none. */
  function Find(s: string, c: char, start: nat): (r: int)
    ensures r == -1 || (start <= r < |s| && s[r] == c)
    decreases |s| - start
  {
    if start >= |s| then -1
    else if s[start] == c then start
    else Find(s, c, start + 1)
  }

  /** The search returns the FIRST occurrence at or after start: no index
      it passes over holds c, and -1 means c does not occur there at all. */
  lemma {:induction false} FindIsFirst(s: string, c: char, start: nat, k: nat)
    requires start <= k < |s|
    requires Find(s, c, start) == -1 || k < Find(s, c, start)
    ensures s[k] != c
    decreases |s| - start
  {
    if k > start {
      FindIsFirst(s, c, start + 1, k);
    }
  }

  predicate Increasing(xs: seq<nat>)
  {
    forall p, q :: 0 <= p < q < |xs| ==> xs[p] < xs[q]
  }

  /** The indices k >= start with s[k] == c, in ascending order. */
  function IndicesFrom(s: string, c: char, start: nat): seq<nat>
    decreases |s| - start
  {
    if start >= |s| then []
    else if s[start] == c then [start] + IndicesFrom(s, c, start + 1)
    else IndicesFrom(s, c, start + 1)
  }

  /** IndicesFrom lists exactly the occurrences at or after start, each
      once, in strictly increasing order. */
  lemma {:induction false} IndicesFromExact(s: string, c: char, start: nat)
    ensures forall k :: k in IndicesFrom(s, c, start) <==> start <= k < |s| && s[k] == c
    ensures Increasing(IndicesFrom(s, c, start))
    decreases |s| - start
  {
    if start < |s| {
      IndicesFromExact(s, c, start + 1);
      var rest := IndicesFrom(s, c, start + 1);
      if s[start] == c {
        forall q | 0 <= q < |rest|
          ensures start < rest[q]
        {
          assert rest[q] in rest;
        }
      }
    }
  }

  /** The indices of every occurrence of c in s, in ascending order. */
  function IndicesOf(s: string, c: char): seq<nat>
  {
    IndicesFrom(s, c, 0)
  }

  /** findAllChars returns every index of c in s and no other, each once,
      in strictly increasing order; it returns nothing exactly when c does
      not occur in s. */
  lemma IndicesOfExact(s: string, c: char)
    ensures forall k :: k in IndicesOf(s, c) <==> 0 <= k < |s| && s[k] == c
    ensures Increasing(IndicesOf(s, c))
    ensures IndicesOf(s, c) == [] <==> c !in s
  {
    IndicesFromExact(s, c, 0);
    var r := IndicesOf(s, c);
    if c in s {
      var k :| 0 <= k < |s| && s[k] == c;
      assert k in r;
    }
    if r != [] {
      assert r[0] in r;
      assert s[r[0]] in s;
    }
  }

  /** A search skips no occurrence: the occurrences at or after start are
      those at or after the index the search returns. */
  lemma {:induction false} IndicesFromFind(s: string, c: char, start: nat)
    ensures var f := Find(s, c, start);
            IndicesFrom(s, c, start) == if f == -1 then [] else IndicesFrom(s, c, f as nat)
    decreases |s| - start
  {
    if start < |s| && s[start] != c {
      IndicesFromFind(s, c, start + 1);
    }
  }

  /** The occurrences still to be collected when the search stands at
      location. */
  function Pending(s: string, c: char, location: int): seq<nat>
  {
    if 0 <= location then IndicesFrom(s, c, location as nat) else []
  }

  /** One round of findAllChars: appending the hit and searching again
      just after it leaves the same occurrences still to be collected. */
  lemma CollectStep(s: string, c: char, all: seq<nat>, collected: seq<nat>, hit: nat)
    requires hit < |s| && s[hit] == c
    requires all == collected + Pending(s, c, hit)
    ensures all == (collected + [hit]) + Pending(s, c, Find(s, c, hit + 1))
  {
    var f := Find(s, c, hit + 1);
    IndicesFromFind(s, c, hit + 1);
    assert IndicesFrom(s, c, hit + 1) == Pending(s, c, f);
    assert Pending(s, c, hit) == [hit] + Pending(s, c, f);
    assert collected + ([hit] + Pending(s, c, f)) == (collected + [hit]) + Pending(s, c, f);
  }

  /** findAllChars: repeated searches, each starting just after the
      previous hit, collect the index of every occurrence of c. */
  method FindAllChars(s: string, c: char) returns (result: seq<nat>)
    ensures result == IndicesOf(s, c)
  {
    result := [];
    var location := Find(s, c, 0);
    IndicesFromFind(s, c, 0);
    while location != -1
      invariant location == -1 || (0 <= location < |s| && s[location] == c)
      invariant IndicesOf(s, c) == result + Pending(s, c, location)
      decreases if location == -1 then 0 else |s| + 1 - location
    {
      CollectStep(s, c, IndicesOf(s, c), result, location);
      result := result + [location];
      location := Find(s, c, location + 1);
    }
  }
}
