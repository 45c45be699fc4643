/**
  The corpus side of the searcher: the contract of the substring index's
  lookup, and the 500-byte context windows that `Searcher.Search` cuts out
  of the corpus around every match offset.
 */
module Corpus {

  newtype byte = x: int | 0 <= x < 256

  /** Bytes of context kept on each side of a match offset. */
  const Radius: int := 250

  function Max(a: int, b: int): int { if a < b then b else a }
  function Min(a: int, b: int): int { if a < b then a else b }

  /** `pattern` occurs in `corpus` starting at offset `i`. */
  predicate OccursAt(corpus: seq<byte>, pattern: seq<byte>, i: int)
  {
    0 <= i && i + |pattern| <= |corpus| && corpus[i..i + |pattern|] == pattern
  }

  /** No offset is listed twice. */
  predicate Distinct(idxs: seq<int>)
  {
    forall a, b :: 0 <= a < b < |idxs| ==> idxs[a] != idxs[b]
  }

  /** What the suffix-array lookup `Lookup(pattern, -1)` may return: every
      offset at which a non-empty pattern occurs, each exactly once, in an
      order the index chooses; nothing for the empty pattern. Every offset
      leaves room for the whole pattern before the corpus ends. */
  predicate IsLookupResult(corpus: seq<byte>, pattern: seq<byte>, idxs: seq<int>): (r: bool)
    ensures r ==> forall k :: 0 <= k < |idxs| ==> 0 <= idxs[k] <= |corpus| - |pattern|
  {
    && (|pattern| == 0 ==> idxs == [])
    && (forall k :: 0 <= k < |idxs| ==> OccursAt(corpus, pattern, idxs[k]))
    && (|pattern| > 0 ==> forall i :: 0 <= i <= |corpus| && OccursAt(corpus, pattern, i) ==> i in idxs)
    && Distinct(idxs)
  }

  /** A naive stand-in for the suffix-array lookup: scans every offset in
      turn. It shows that the lookup contract can be met. */
  method NaiveLookup(corpus: seq<byte>, pattern: seq<byte>) returns (idxs: seq<int>)
    ensures IsLookupResult(corpus, pattern, idxs)
  {
    idxs := [];
    if |pattern| == 0 {
      return;
    }
    var i := 0;
    while i + |pattern| <= |corpus|
      invariant 0 <= i
      invariant i > 0 ==> i + |pattern| <= |corpus| + 1
      invariant forall k :: 0 <= k < |idxs| ==> OccursAt(corpus, pattern, idxs[k]) && idxs[k] < i
      invariant forall j :: 0 <= j < i && OccursAt(corpus, pattern, j) ==> j in idxs
      invariant forall a, b :: 0 <= a < b < |idxs| ==> idxs[a] < idxs[b]
      decreases |corpus| - i
    {
      if corpus[i..i + |pattern|] == pattern {
        idxs := idxs + [i];
      }
      i := i + 1;
    }
  }

  /** A duplicate-free list has as many elements as its set of elements. */
  lemma {:induction false} DistinctCardinality(idxs: seq<int>)
    requires Distinct(idxs)
    ensures |set i | i in idxs| == |idxs|
    decreases |idxs|
  {
    if idxs != [] {
      var rest := idxs[1..];
      DistinctCardinality(rest);
      assert (set i | i in idxs) == (set i | i in rest) + {idxs[0]};
      assert idxs[0] !in rest;
    }
  }

  /** Any two lookup results for the same corpus and pattern list the same
      offsets, and as many of them: the index is deterministic up to order. */
  lemma LookupDeterministic(corpus: seq<byte>, pattern: seq<byte>, a: seq<int>, b: seq<int>)
    requires IsLookupResult(corpus, pattern, a) && IsLookupResult(corpus, pattern, b)
    ensures forall i :: i in a <==> i in b
    ensures |a| == |b|
  {
    assert forall i :: i in a ==> OccursAt(corpus, pattern, i);
    assert forall i :: i in b ==> OccursAt(corpus, pattern, i);
    assert (set i | i in a) == (set i | i in b);
    DistinctCardinality(a);
    DistinctCardinality(b);
  }

  // ---------------------------------------------------------------------
  // Context windows, as written: `CompleteWorks[idx-250 : idx+250]`
  // ---------------------------------------------------------------------

  /** The Go slice `corpus[idx-250 : idx+250]` is in bounds. */
  predicate InWindow(corpus: seq<byte>, idx: int)
  {
    Radius <= idx && idx + Radius <= |corpus|
  }

  /** The result of a search: one snippet per offset, or the runtime panic
      raised by the first out-of-bounds slice. */
  datatype Outcome = Snippets(snippets: seq<seq<byte>>) | SlicePanic(offset: int)

  /** `snippets` followed by the snippets of `rest`, unless `rest` panics. */
  function Extend(snippets: seq<seq<byte>>, rest: Outcome): (r: Outcome)
  {
    match rest
    case Snippets(more) => Snippets(snippets + more)
    case SlicePanic(_) => rest
  }

  /** The loop of `Search`, offset by offset: one snippet per offset on
      success, and otherwise a panic at one of the offsets. */
  function SearchOutcome(corpus: seq<byte>, idxs: seq<int>): (r: Outcome)
    ensures r.Snippets? ==> |r.snippets| == |idxs|
    ensures r.SlicePanic? ==> r.offset in idxs && !InWindow(corpus, r.offset)
    decreases |idxs|
  {
    if idxs == [] then Snippets([])
    else if !InWindow(corpus, idxs[0]) then SlicePanic(idxs[0])
    else Extend([corpus[idxs[0] - Radius .. idxs[0] + Radius]], SearchOutcome(corpus, idxs[1..]))
  }

  /** A search succeeds exactly when every offset has 250 bytes on both
      sides; it then yields one snippet per offset, in the offsets' order,
      each the window around its offset. Otherwise it panics at the first
      offset whose window leaves the corpus. */
  lemma {:induction false} SearchOutcomeMeaning(corpus: seq<byte>, idxs: seq<int>)
    ensures SearchOutcome(corpus, idxs).Snippets?
            <==> forall k :: 0 <= k < |idxs| ==> InWindow(corpus, idxs[k])
    ensures SearchOutcome(corpus, idxs).Snippets? ==>
              && |SearchOutcome(corpus, idxs).snippets| == |idxs|
              && forall k :: 0 <= k < |idxs| ==>
                   && InWindow(corpus, idxs[k])
                   && SearchOutcome(corpus, idxs).snippets[k] == corpus[idxs[k] - Radius .. idxs[k] + Radius]
    ensures SearchOutcome(corpus, idxs).SlicePanic? ==>
              exists k :: && 0 <= k < |idxs|
                          && SearchOutcome(corpus, idxs).offset == idxs[k]
                          && !InWindow(corpus, idxs[k])
                          && forall j :: 0 <= j < k ==> InWindow(corpus, idxs[j])
    decreases |idxs|
  {
    if idxs != [] {
      var rest := idxs[1..];
      SearchOutcomeMeaning(corpus, rest);
      if InWindow(corpus, idxs[0]) {
        var o := SearchOutcome(corpus, idxs);
        if o.Snippets? {
          forall k | 0 <= k < |idxs|
            ensures InWindow(corpus, idxs[k])
            ensures o.snippets[k] == corpus[idxs[k] - Radius .. idxs[k] + Radius]
          {
            if k > 0 {
              assert idxs[k] == rest[k - 1];
            }
          }
        } else {
          var k :| && 0 <= k < |rest|
                   && SearchOutcome(corpus, rest).offset == rest[k]
                   && !InWindow(corpus, rest[k])
                   && forall j :: 0 <= j < k ==> InWindow(corpus, rest[j]);
          assert idxs[k + 1] == rest[k];
          assert forall j :: 0 <= j < k + 1 ==> InWindow(corpus, idxs[j]) by {
            forall j | 0 <= j < k + 1 ensures InWindow(corpus, idxs[j]) {
              if j > 0 {
                assert idxs[j] == rest[j - 1];
              }
            }
          }
          assert !(forall k :: 0 <= k < |idxs| ==> InWindow(corpus, idxs[k]));
        }
      }
    }
  }

  /** A slice of a slice is a slice. */
  lemma SliceOfSlice(s: seq<byte>, a: int, b: int, c: int, d: int)
    requires 0 <= a <= b <= |s| && 0 <= c <= d <= b - a
    ensures s[a..b][c..d] == s[a + c .. a + d]
  {
    assert forall i :: 0 <= i < d - c ==> s[a..b][c..d][i] == s[a + c .. a + d][i];
  }

  /** The first `m` bytes of a slice are a shorter slice. */
  lemma PrefixOfSlice(s: seq<byte>, a: int, n: int, m: int)
    requires 0 <= a && a + n <= |s| && 0 <= m <= n
    ensures s[a .. a + n][..m] == s[a .. a + m]
  {
    var l, r := s[a .. a + n][..m], s[a .. a + m];
    assert forall i :: 0 <= i < m ==> l[i] == r[i];
  }

  /** When the offsets come from the lookup and the search succeeds, every
      snippet is 500 bytes long and shows the query (as much of it as fits
      in the 250 bytes after the match) starting at position 250. */
  lemma SnippetsShowQuery(corpus: seq<byte>, query: seq<byte>, idxs: seq<int>)
    requires IsLookupResult(corpus, query, idxs)
    requires SearchOutcome(corpus, idxs).Snippets?
    ensures |SearchOutcome(corpus, idxs).snippets| == |idxs|
    ensures forall k :: 0 <= k < |idxs| ==>
              var s := SearchOutcome(corpus, idxs).snippets[k];
              var m := Min(|query|, Radius);
              |s| == 2 * Radius && s[Radius .. Radius + m] == query[..m]
  {
    SearchOutcomeMeaning(corpus, idxs);
    var ss := SearchOutcome(corpus, idxs).snippets;
    var m := Min(|query|, Radius);
    forall k | 0 <= k < |idxs|
      ensures |ss[k]| == 2 * Radius && ss[k][Radius .. Radius + m] == query[..m]
    {
      var idx := idxs[k];
      assert OccursAt(corpus, query, idx);
      SliceOfSlice(corpus, idx - Radius, idx + Radius, Radius, Radius + m);
      PrefixOfSlice(corpus, idx, |query|, m);
    }
  }

  /** A match closer than 250 bytes to either end of the corpus makes the
      whole search panic: no snippets are returned for any offset. */
  lemma NearEdgeMatchPanics(corpus: seq<byte>, query: seq<byte>, idxs: seq<int>, i: int)
    requires IsLookupResult(corpus, query, idxs)
    requires |query| > 0 && OccursAt(corpus, query, i) && !InWindow(corpus, i)
    ensures SearchOutcome(corpus, idxs).SlicePanic?
  {
    SearchOutcomeMeaning(corpus, idxs);
    var k :| 0 <= k < |idxs| && idxs[k] == i;
  }

  /** The bytes of "to be or not to be". */
  const ToBe: seq<byte> := [116, 111, 32, 98, 101, 32, 111, 114, 32, 110, 111, 116, 32, 116, 111, 32, 98, 101]

  /** The bytes of "be". */
  const Be: seq<byte> := [98, 101]

  /** Searching "to be or not to be" for "be" (matches at offsets 3 and 16)
      panics, whatever order the index lists the offsets in. */
  lemma ToBePanics(idxs: seq<int>)
    requires IsLookupResult(ToBe, Be, idxs)
    ensures SearchOutcome(ToBe, idxs).SlicePanic?
  {
    assert ToBe[3..5] == Be;
    NearEdgeMatchPanics(ToBe, Be, idxs, 3);
  }

  // ---------------------------------------------------------------------
  // Context windows, corrected: clamped to the corpus
  // ---------------------------------------------------------------------

  /** The window around `idx`, cut short where the corpus ends: at most 500
      bytes, and the as-written window wherever that one is in bounds. */
  function ClampedSnippet(corpus: seq<byte>, idx: int): (r: seq<byte>)
    requires 0 <= idx <= |corpus|
    ensures |r| <= 2 * Radius
    ensures InWindow(corpus, idx) ==> r == corpus[idx - Radius .. idx + Radius]
  {
    corpus[Max(0, idx - Radius) .. Min(|corpus|, idx + Radius)]
  }

  /** One clamped snippet per offset, in the offsets' order; it never
      fails, and no snippet exceeds 500 bytes. */
  function ClampedSearch(corpus: seq<byte>, idxs: seq<int>): (r: seq<seq<byte>>)
    requires forall k :: 0 <= k < |idxs| ==> 0 <= idxs[k] <= |corpus|
    ensures |r| == |idxs|
    ensures forall k :: 0 <= k < |idxs| ==> |r[k]| <= 2 * Radius
  {
    seq(|idxs|, k requires 0 <= k < |idxs| => ClampedSnippet(corpus, idxs[k]))
  }

  /** The clamped window around an occurrence of `query` holds the query
      (as much as fits in 250 bytes) after at most 250 bytes of context. */
  lemma ClampedSnippetShowsQuery(corpus: seq<byte>, query: seq<byte>, idx: int)
    requires OccursAt(corpus, query, idx)
    ensures var s := ClampedSnippet(corpus, idx);
            var before := Min(idx, Radius);
            var m := Min(|query|, Radius);
            && |s| <= 2 * Radius
            && before + m <= |s|
            && s[before .. before + m] == query[..m]
  {
    var lo := Max(0, idx - Radius);
    var hi := Min(|corpus|, idx + Radius);
    var before := Min(idx, Radius);
    var m := Min(|query|, Radius);
    SliceOfSlice(corpus, lo, hi, before, before + m);
    PrefixOfSlice(corpus, idx, |query|, m);
  }

  /** The clamped search never fails on the lookup's offsets: it yields one
      snippet per offset, each at most 500 bytes, holding the query (as much
      as fits in 250 bytes) at the match, with up to 250 bytes of context
      before it. Where the as-written search succeeds, both agree. */
  lemma ClampedSearchShowsQuery(corpus: seq<byte>, query: seq<byte>, idxs: seq<int>)
    requires IsLookupResult(corpus, query, idxs)
    ensures forall k :: 0 <= k < |idxs| ==> 0 <= idxs[k] <= |corpus|
    ensures |ClampedSearch(corpus, idxs)| == |idxs|
    ensures forall k :: 0 <= k < |idxs| ==>
              var s := ClampedSearch(corpus, idxs)[k];
              var before := Min(idxs[k], Radius);
              var m := Min(|query|, Radius);
              && |s| <= 2 * Radius
              && before + m <= |s|
              && s[before .. before + m] == query[..m]
    ensures SearchOutcome(corpus, idxs).Snippets? ==>
              SearchOutcome(corpus, idxs).snippets == ClampedSearch(corpus, idxs)
  {
    var cs := ClampedSearch(corpus, idxs);
    forall k | 0 <= k < |idxs|
      ensures var before := Min(idxs[k], Radius);
              var m := Min(|query|, Radius);
              && |cs[k]| <= 2 * Radius
              && before + m <= |cs[k]|
              && cs[k][before .. before + m] == query[..m]
    {
      ClampedSnippetShowsQuery(corpus, query, idxs[k]);
    }
    SearchOutcomeMeaning(corpus, idxs);
  }
}
