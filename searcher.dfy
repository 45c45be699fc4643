/**
  The `Searcher` of the service: the corpus, its substring index, the
  table-of-contents scanner and the works map it fills.
 */
module Searching {
  import opened Text
  import opened Toc
  import opened Corpus

  datatype Option<T> = None | Some(value: T)

  class Searcher {
    /** The whole corpus. */
    var completeWorks: seq<byte>
    /** The substring index, as the bytes it was built over; `None` is the
        nil index of a searcher that has not loaded a corpus. */
    var suffixArray: Option<seq<byte>>
    /** The lines the table-of-contents scanner has still to deliver, with
        their line terminators removed. */
    var scanner: seq<string>
    /** Title -> entries, filled by `GenerateWorksArray`. */
    var worksMap: Works

    /** The index, once built, is over the corpus being searched. */
    ghost predicate Valid()
      reads this
    {
      suffixArray.Some? ==> suffixArray.value == completeWorks
    }

    /** The zero `Searcher{}`: no corpus, no index, no lines, no works. */
    constructor ()
      ensures Valid()
      ensures completeWorks == [] && suffixArray == None && scanner == [] && worksMap == map[]
    {
      completeWorks := [];
      suffixArray := None;
      scanner := [];
      worksMap := map[];
    }

    /** Scans every remaining line with the table-of-contents state machine,
        adding titles to the works map in place. */
    method GenerateWorksArray()
      modifies this`scanner, this`worksMap
      ensures scanner == []
      ensures worksMap == Run(Scan(old(worksMap), false), TrimAll(old(scanner))).works
    {
      var inContents := false;
      while scanner != []
        invariant Run(Scan(worksMap, inContents), TrimAll(scanner))
                  == Run(Scan(old(worksMap), false), TrimAll(old(scanner)))
        decreases |scanner|
      {
        var currentLine := Trim(scanner[0]);
        scanner := scanner[1..];
        if currentLine == Marker {
          inContents := true;
        }
        var found := currentLine in worksMap;
        if found && currentLine != "\n" && currentLine != "" {
          inContents := false;
        }
        if inContents && currentLine != "\n" {
          worksMap := worksMap[currentLine := []];
        }
      }
    }

    /** Resets the works map, scans `tocLines`, then installs the corpus and
        its index when `corpusFile` (the outcome of reading the corpus file)
        holds its bytes. Returns whether that read failed. */
    method Load(tocLines: seq<string>, corpusFile: Option<seq<byte>>) returns (failed: bool)
      requires Valid()
      modifies this
      ensures Valid()
      ensures scanner == []
      ensures worksMap == Run(Start, TrimAll(tocLines)).works
      ensures worksMap == AsWorks(TocKeys(TrimAll(tocLines)))
      ensures failed == corpusFile.None?
      ensures corpusFile.Some? ==> completeWorks == corpusFile.value && suffixArray == Some(corpusFile.value)
      ensures corpusFile.None? ==> completeWorks == old(completeWorks) && suffixArray == old(suffixArray)
    {
      scanner := tocLines;
      worksMap := map[];
      GenerateWorksArray();
      RunMatchesTocKeys(TrimAll(tocLines));
      if corpusFile.None? {
        return true;
      }
      completeWorks := corpusFile.value;
      suffixArray := Some(corpusFile.value);
      return false;
    }

    /** Cuts the 500-byte window around every offset `idxs` the index
        returned for `query`, in the index's order; panics at the first
        offset within 250 bytes of either end of the corpus. */
    method Search(query: seq<byte>, idxs: seq<int>) returns (r: Outcome)
      requires Valid() && suffixArray.Some?
      requires IsLookupResult(completeWorks, query, idxs)
      ensures r == SearchOutcome(completeWorks, idxs)
      ensures r.Snippets? <==> forall k :: 0 <= k < |idxs| ==> InWindow(completeWorks, idxs[k])
      ensures r.Snippets? ==> |r.snippets| == |idxs|
      ensures r.Snippets? ==> forall k :: 0 <= k < |idxs| ==>
                |r.snippets[k]| == 2 * Radius
                && r.snippets[k][Radius .. Radius + Min(|query|, Radius)] == query[..Min(|query|, Radius)]
    {
      var results: seq<seq<byte>> := [];
      var i := 0;
      while i < |idxs|
        invariant 0 <= i <= |idxs|
        invariant SearchOutcome(completeWorks, idxs) == Extend(results, SearchOutcome(completeWorks, idxs[i..]))
      {
        var idx := idxs[i];
        if idx < Radius || idx + Radius > |completeWorks| {
          r := SlicePanic(idx);
          SearchOutcomeMeaning(completeWorks, idxs);
          return;
        }
        assert idxs[i..][1..] == idxs[i + 1..];
        results := results + [completeWorks[idx - Radius .. idx + Radius]];
        i := i + 1;
      }
      assert results + [] == results;
      r := Snippets(results);
      SearchOutcomeMeaning(completeWorks, idxs);
      SnippetsShowQuery(completeWorks, query, idxs);
    }
  }
}
