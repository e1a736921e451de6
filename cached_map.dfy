/**
 * A bounded key-to-value cache: the resident lines in insertion order, the
 * budget in megabytes and the size of one line.
 *
 * The hooks a concrete cache supplies (`load`, `onDrop`, `isOlderThan`) call
 * into the subclass's own state, so the loops that call them live with that
 * subclass (the disk-bound model); this class owns the lines, the budget and
 * the oldest-line scan.
 */
module CachedMaps {
  import opened KotlinInt

  /**
   * The number of lines the budget allows: `maxCacheSizeMB / lineSizeMB` in
   * truncating `Int` division, raised to 1 when that is not positive.
   */
  function MaxCacheLineCount(maxCacheSizeMB: Int32, lineSizeMB: Int32): int
    requires lineSizeMB > 0
  {
    var count := Quot(maxCacheSizeMB, lineSizeMB);
    if count <= 0 then 1 else count
  }

  /**
   * At least one line is always allowed; when the budget holds at least one
   * line it allows the largest count of whole lines that fits, and otherwise
   * exactly one.
   */
  lemma MaxCacheLineCountMeaning(maxCacheSizeMB: Int32, lineSizeMB: Int32)
    requires lineSizeMB > 0
    ensures MaxCacheLineCount(maxCacheSizeMB, lineSizeMB) >= 1
    ensures maxCacheSizeMB >= lineSizeMB ==>
      var n := MaxCacheLineCount(maxCacheSizeMB, lineSizeMB);
      n * lineSizeMB <= maxCacheSizeMB < (n + 1) * lineSizeMB
    ensures maxCacheSizeMB < lineSizeMB ==> MaxCacheLineCount(maxCacheSizeMB, lineSizeMB) == 1
  {
    var q := Quot(maxCacheSizeMB, lineSizeMB);
    if q >= 1 {
      MulAtLeast(q, lineSizeMB);
      assert q * lineSizeMB >= lineSizeMB;
    } else {
      MulNonPositive(q, lineSizeMB);
      assert q * lineSizeMB <= 0;
    }
    MulSucc(q, lineSizeMB);
  }

  lemma MulSucc(q: int, d: int)
    ensures (q + 1) * d == q * d + d
  {
  }

  lemma MulNonPositive(q: int, d: int)
    requires q <= 0 && d > 0
    ensures q * d <= 0
  {
  }

  lemma MulAtLeast(q: int, d: int)
    requires q >= 1 && d > 0
    ensures q * d >= d
  {
  }

  /** The elements of a sequence. */
  function Elems<K>(s: seq<K>): set<K> {
    if |s| == 0 then {} else {s[0]} + Elems(s[1..])
  }

  lemma {:induction false} ElemsContains<K>(s: seq<K>, x: K)
    ensures x in Elems(s) <==> x in s
  {
    if |s| > 0 {
      ElemsContains(s[1..], x);
      assert s == [s[0]] + s[1..];
    }
  }

  /** A sequence one element longer has that element besides. */
  lemma {:induction false} ElemsPrefix<K>(s: seq<K>, i: int)
    requires 0 <= i < |s|
    ensures Elems(s[..i + 1]) == Elems(s[..i]) + {s[i]}
  {
    if i > 0 {
      assert s[..i + 1][1..] == s[1..][..i];
      assert s[..i][1..] == s[1..][..i - 1];
      ElemsPrefix(s[1..], i - 1);
    }
  }

  /** No element occurs twice. */
  predicate Distinct<K(==)>(s: seq<K>) {
    |s| == 0 || (s[0] !in Elems(s[1..]) && Distinct(s[1..]))
  }

  /** Appending an element a sequence does not hold keeps it free of repeats. */
  lemma {:induction false} DistinctAppend<K>(s: seq<K>, k: K)
    requires Distinct(s) && k !in Elems(s)
    ensures Distinct(s + [k]) && Elems(s + [k]) == Elems(s) + {k}
  {
    if |s| > 0 {
      assert (s + [k])[1..] == s[1..] + [k];
      DistinctAppend(s[1..], k);
    }
  }

  /** In a sequence without repeats no element occurs before its own position. */
  lemma {:induction false} DistinctPrefixFresh<K>(s: seq<K>, i: int)
    requires Distinct(s) && 0 <= i < |s|
    ensures s[i] !in Elems(s[..i])
  {
    if i > 0 {
      assert s[..i][1..] == s[1..][..i - 1];
      DistinctPrefixFresh(s[1..], i - 1);
      ElemsContains(s[1..], s[i]);
    }
  }

  /** A sequence without repeats is as long as its set of elements is large. */
  lemma {:induction false} DistinctCard<K>(s: seq<K>)
    requires Distinct(s)
    ensures |Elems(s)| == |s|
  {
    if |s| > 0 {
      DistinctCard(s[1..]);
    }
  }

  /** The sequence with every occurrence of k dropped, the rest in their order. */
  function Without<K(==,!new)>(s: seq<K>, k: K): (r: seq<K>)
    ensures Elems(r) == Elems(s) - {k}
    ensures Distinct(s) ==> Distinct(r)
    ensures k !in Elems(s) ==> r == s
  {
    if |s| == 0 then []
    else if s[0] == k then Without(s[1..], k)
    else
      var rest := Without(s[1..], k);
      assert ([s[0]] + rest)[1..] == rest;
      [s[0]] + rest
  }

  /** Every line of `lines` is a line of `before`, with the same value. */
  predicate KeptLines<K, V(==)>(lines: map<K, V>, before: map<K, V>) {
    forall k :: k in lines ==> k in before && lines[k] == before[k]
  }

  class CachedMap<K(==,!new), V> {
    var maxCacheSizeMB: Int32
    const lineSizeMB: Int32
    /** `loadedCacheLines`. */
    var lines: map<K, V>
    /** The keys of `lines` in the order they were inserted (a `LinkedHashMap`'s iteration order). */
    var order: seq<K>

    ghost predicate Valid()
      reads this`lines, this`order
    {
      lineSizeMB > 0 && Distinct(order) && Elems(order) == lines.Keys
    }

    constructor (initialMaxCacheSizeMB: Int32, lineSizeMB: Int32)
      requires lineSizeMB > 0
      ensures Valid() && lines == map[] && order == []
      ensures maxCacheSizeMB == initialMaxCacheSizeMB && this.lineSizeMB == lineSizeMB
    {
      maxCacheSizeMB := initialMaxCacheSizeMB;
      this.lineSizeMB := lineSizeMB;
      lines := map[];
      order := [];
    }

    /** The current line budget. */
    function MaxLines(): int
      reads this`maxCacheSizeMB
      requires lineSizeMB > 0
    {
      MaxCacheLineCount(maxCacheSizeMB, lineSizeMB)
    }

    /** `loadedCacheLines[key] = value`: a new key goes to the end of the order, a present one keeps its place. */
    method Put(key: K, value: V)
      requires Valid()
      modifies this`lines, this`order
      ensures Valid()
      ensures lines == old(lines)[key := value]
      ensures order == if key in old(lines) then old(order) else old(order) + [key]
    {
      if key !in lines {
        DistinctAppend(order, key);
        order := order + [key];
      }
      lines := lines[key := value];
    }

    /** `loadedCacheLines.remove(key)`: only that key goes; the other lines and their order stay. */
    method Remove(key: K)
      requires Valid()
      modifies this`lines, this`order
      ensures Valid()
      ensures lines == old(lines) - {key}
      ensures order == Without(old(order), key)
    {
      order := Without(order, key);
      lines := lines - {key};
    }

    /**
     * `maxOfWith(cacheLineAgeComparator)`: the line with no strictly older
     * line, scanning in insertion order and keeping the first of equally old
     * lines. `ages` holds each line's age.
     */
    method OldestKey(ages: map<K, int>) returns (oldest: K)
      requires Valid() && |lines| > 0
      requires forall k :: k in lines ==> k in ages
      ensures oldest in lines
      ensures forall k :: k in lines ==> ages[oldest] <= ages[k]
      ensures exists i :: 0 <= i < |order| && order[i] == oldest &&
                          forall h :: 0 <= h < i ==> order[h] in ages && ages[order[h]] > ages[oldest]
    {
      DistinctCard(order);
      assert lines.Keys == Elems(order);
      assert forall h :: 0 <= h < |order| ==> order[h] in lines by {
        forall h | 0 <= h < |order| ensures order[h] in lines {
          ElemsContains(order, order[h]);
        }
      }
      oldest := order[0];
      ghost var at := 0;
      var i := 1;
      while i < |order|
        invariant 1 <= i <= |order| && 0 <= at < i && order[at] == oldest
        invariant forall h :: 0 <= h < i ==> ages[oldest] <= ages[order[h]]
        invariant forall h :: 0 <= h < at ==> ages[order[h]] > ages[oldest]
      {
        if ages[order[i]] < ages[oldest] {
          oldest := order[i];
          at := i;
        }
        i := i + 1;
      }
      forall k | k in lines
        ensures ages[oldest] <= ages[k]
      {
        ElemsContains(order, k);
      }
    }
  }
}
