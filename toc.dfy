/**
  The table-of-contents scanner of `Searcher.GenerateWorksArray`, as a pure
  state machine over trimmed lines.

  The state is the works map (title -> entries) and the flag `inContents`.
  For each line, in this order:
    1. the line is trimmed of leading and trailing spaces;
    2. the literal line "Contents" sets the flag;
    3. a line that is already a key, other than "" and "\n", clears it;
    4. while the flag is set, any line other than "\n" is stored as a key
       with an empty entry list.
  Consequences worth knowing: the "Contents" line itself becomes a key, a
  blank line read while collecting becomes the key "", and a later
  "Contents" line (already a key) sets and clears the flag in one step.
 */
module Toc {
  import opened Text

  /** Title -> entries. The scanner only ever stores empty entry lists. */
  type Works = map<string, seq<string>>

  /** The line that opens the table of contents. */
  const Marker: string := "Contents"

  /** The scanner's state: the works map and the `inContents` flag. */
  datatype Scan = Scan(works: Works, inContents: bool)

  /** The state before the first line: an empty map, not collecting. */
  const Start: Scan := Scan(map[], false)

  /** One loop iteration, on the already trimmed line `line`. */
  function Step(st: Scan, line: string): (r: Scan)
    // at most the line is added, with no entries, and only if it was new or
    // is the blank line
    ensures || r.works == st.works
            || (&& r.inContents
                && r.works == st.works[line := []]
                && (line !in st.works || line == ""))
    // collection is only ever switched on by the marker line
    ensures r.inContents ==> st.inContents || line == Marker
  {
    var marked := if line == Marker then true else st.inContents;
    var collecting := if line in st.works && line != "\n" && line != "" then false else marked;
    Scan(if collecting && line != "\n" then st.works[line := []] else st.works, collecting)
  }

  /** Every line trimmed, as the loop trims it before stepping. */
  function TrimAll(lines: seq<string>): (r: seq<string>)
    ensures |r| == |lines|
    decreases |lines|
  {
    if lines == [] then [] else [Trim(lines[0])] + TrimAll(lines[1..])
  }

  /** The `j`-th trimmed line is the `j`-th line, trimmed. */
  lemma {:induction false} TrimAllAt(lines: seq<string>, j: int)
    requires 0 <= j < |lines|
    ensures TrimAll(lines)[j] == Trim(lines[j])
    decreases |lines|
  {
    if j > 0 {
      TrimAllAt(lines[1..], j - 1);
    }
  }

  /** The whole loop: `Step` over every trimmed line, first to last. No key
      is ever removed, and collection can only be on at the end if it was on
      at the start or some line is the marker. */
  function Run(st: Scan, lines: seq<string>): (r: Scan)
    ensures st.works.Keys <= r.works.Keys
    ensures r.inContents ==> st.inContents || Marker in lines
    decreases |lines|
  {
    if lines == [] then st else Run(Step(st, lines[0]), lines[1..])
  }

  /** A key set as a works map whose every entry list is empty. */
  function AsWorks(keys: set<string>): (w: Works)
    ensures w.Keys == keys
    ensures forall k :: k in w ==> w[k] == []
  {
    map k | k in keys :: []
  }

  // ---------------------------------------------------------------------
  // Reference definition: skip to the first marker line, then collect the
  // trimmed lines until a non-blank one repeats.
  // ---------------------------------------------------------------------

  /** The titles collected from `body` when `seen` already holds the titles
      collected so far. Collection stops at the first non-blank line that
      repeats one of them; the line "\n" is never collected. */
  function Collected(seen: set<string>, body: seq<string>): (r: set<string>)
    ensures seen <= r
    decreases |body|
  {
    if body == [] then seen
    else
      var t := body[0];
      if t != "" && t != "\n" && t in seen then seen
      else Collected(if t == "\n" then seen else seen + {t}, body[1..])
  }

  /** The titles of the table of contents in `lines`: nothing before the
      first marker line, then the marker and what `Collected` gathers. */
  function TocKeys(lines: seq<string>): (r: set<string>)
    ensures r != {} <==> Marker in lines
    decreases |lines|
  {
    if lines == [] then {}
    else if lines[0] == Marker then Collected({Marker}, lines[1..])
    else TocKeys(lines[1..])
  }

  // ---------------------------------------------------------------------
  // Single steps
  // ---------------------------------------------------------------------

  /** The first marker line opens collection and becomes a key; a later one
      (already a key) closes collection at once and changes nothing else. */
  lemma StepAtMarker(st: Scan)
    ensures Marker !in st.works ==> Step(st, Marker) == Scan(st.works[Marker := []], true)
    ensures Marker in st.works ==> Step(st, Marker) == Scan(st.works, false)
  {
  }

  /** A non-blank line that is already a key closes collection and adds
      nothing. */
  lemma StepAtRepeat(st: Scan, line: string)
    requires line in st.works && line != "" && line != "\n"
    ensures Step(st, line) == Scan(st.works, false)
  {
  }

  /** A blank line never closes collection; while collecting it is stored as
      the key "", otherwise it is ignored. */
  lemma StepAtBlank(st: Scan)
    ensures st.inContents ==> Step(st, "") == Scan(st.works["" := []], true)
    ensures !st.inContents ==> Step(st, "") == st
  {
  }

  // ---------------------------------------------------------------------
  // Whole runs
  // ---------------------------------------------------------------------

  /** `w'` keeps every key of `w`, with its entries (only the blank key ""
      may be reset to no entries), and every key it adds has no entries. */
  predicate Grows(w: Works, w': Works)
  {
    && (forall k :: k in w ==> k in w' && (w'[k] == w[k] || (k == "" && w'[k] == [])))
    && (forall k :: k in w' && k !in w ==> w'[k] == [])
  }

  lemma GrowsTransitive(w1: Works, w2: Works, w3: Works)
    requires Grows(w1, w2) && Grows(w2, w3)
    ensures Grows(w1, w3)
  {
  }

  /** Keys are never removed. An existing key keeps its entries, except the
      blank key "", which a later blank line resets to no entries. Every new
      key has no entries. */
  lemma {:induction false} RunKeepsEntries(st: Scan, lines: seq<string>)
    ensures Grows(st.works, Run(st, lines).works)
    decreases |lines|
  {
    if lines == [] {
    } else {
      var st' := Step(st, lines[0]);
      assert Grows(st.works, st'.works);
      RunKeepsEntries(st', lines[1..]);
      GrowsTransitive(st.works, st'.works, Run(st', lines[1..]).works);
    }
  }

  /** Every new key is one of the scanned lines. */
  lemma {:induction false} RunKeysFromLines(st: Scan, lines: seq<string>)
    ensures forall k :: k in Run(st, lines).works && k !in st.works ==> k in lines
    decreases |lines|
  {
    if lines != [] {
      var st' := Step(st, lines[0]);
      RunKeysFromLines(st', lines[1..]);
      assert lines == [lines[0]] + lines[1..];
    }
  }

  /** Starting from an empty map, every stored entry list is empty. */
  lemma AllEntriesEmpty(lines: seq<string>)
    ensures forall k :: k in Run(Start, lines).works ==> Run(Start, lines).works[k] == []
  {
    RunKeepsEntries(Start, lines);
  }

  /** Outside the table of contents and without a marker line, nothing
      changes at all. */
  lemma {:induction false} RunWithoutMarker(st: Scan, lines: seq<string>)
    requires !st.inContents
    requires Marker !in lines
    ensures Run(st, lines) == st
    decreases |lines|
  {
    if lines != [] {
      assert lines[0] in lines;
      RunWithoutMarker(Step(st, lines[0]), lines[1..]);
    }
  }

  /** Without a marker line the works map stays empty. */
  lemma NoMarkerNoWorks(lines: seq<string>)
    requires Marker !in lines
    ensures Run(Start, lines).works == map[]
  {
    RunWithoutMarker(Start, lines);
  }

  /** Lines before the first marker line have no effect: the result is the
      one of scanning from that marker on. */
  lemma {:induction false} BeforeFirstMarker(lines: seq<string>, c: nat)
    requires c <= |lines|
    requires Marker !in lines[..c]
    ensures Run(Start, lines) == Run(Start, lines[c..])
    decreases c
  {
    if c > 0 {
      assert lines[0] in lines[..c];
      assert Step(Start, lines[0]) == Start;
      assert lines[1..][..c - 1] == lines[..c][1..];
      BeforeFirstMarker(lines[1..], c - 1);
      assert lines[1..][c - 1..] == lines[c..];
    }
  }

  /** Once collection has been closed after the marker became a key, no
      later line changes anything: a second marker line cannot reopen it. */
  lemma {:induction false} ClosedStaysClosed(st: Scan, lines: seq<string>)
    requires !st.inContents && Marker in st.works
    ensures Run(st, lines) == st
    decreases |lines|
  {
    if lines != [] {
      assert Step(st, lines[0]) == st;
      ClosedStaysClosed(st, lines[1..]);
    }
  }

  /** Keys never start or end with a space, provided the initial keys do
      not: every new key is a trimmed line. */
  lemma RunKeysTrimmed(st: Scan, raw: seq<string>)
    requires forall k :: k in st.works ==> NoEdgeSpace(k)
    ensures forall k :: k in Run(st, TrimAll(raw)).works ==> NoEdgeSpace(k)
  {
    RunKeysFromLines(st, TrimAll(raw));
    forall k | k in Run(st, TrimAll(raw)).works && k !in st.works
      ensures NoEdgeSpace(k)
    {
      var j :| 0 <= j < |raw| && TrimAll(raw)[j] == k;
      TrimAllAt(raw, j);
      TrimIsSpaceFreeInfix(raw[j]);
    }
  }

  /** While collecting with exactly the keys `seen` (the marker among them),
      scanning `body` yields exactly `Collected(seen, body)`. */
  lemma {:induction false} CollectingMatches(seen: set<string>, body: seq<string>)
    requires Marker in seen
    ensures Run(Scan(AsWorks(seen), true), body).works == AsWorks(Collected(seen, body))
    decreases |body|
  {
    if body != [] {
      var st := Scan(AsWorks(seen), true);
      var t := body[0];
      if t != "" && t != "\n" && t in seen {
        assert Step(st, body[0]) == Scan(st.works, false);
        ClosedStaysClosed(Scan(st.works, false), body[1..]);
      } else {
        var seen' := if t == "\n" then seen else seen + {t};
        assert Step(st, body[0]) == Scan(AsWorks(seen'), true);
        CollectingMatches(seen', body[1..]);
      }
    }
  }

  /** The state machine computes the reference definition: the works map is
      exactly the table-of-contents titles, each with no entries. */
  lemma {:induction false} RunMatchesTocKeys(lines: seq<string>)
    ensures Run(Start, lines).works == AsWorks(TocKeys(lines))
    decreases |lines|
  {
    if lines != [] {
      if lines[0] == Marker {
        assert Step(Start, lines[0]) == Scan(AsWorks({Marker}), true);
        CollectingMatches({Marker}, lines[1..]);
      } else {
        assert Step(Start, lines[0]) == Start;
        RunMatchesTocKeys(lines[1..]);
      }
    }
  }

  /** If any line is the marker, the marker itself becomes a key. */
  lemma {:induction false} MarkerBecomesKey(lines: seq<string>)
    requires Marker in lines
    ensures Marker in Run(Start, lines).works
  {
    MarkerInTocKeys(lines);
    RunMatchesTocKeys(lines);
  }

  lemma {:induction false} MarkerInTocKeys(lines: seq<string>)
    requires Marker in lines
    ensures Marker in TocKeys(lines)
    decreases |lines|
  {
    if lines[0] != Marker {
      assert lines == [lines[0]] + lines[1..];
      MarkerInTocKeys(lines[1..]);
    }
  }

  /** A sample stream: a preface, the marker, two titles, a blank line and
      the first title again as a body heading. */
  const SampleLines: seq<string> := ["Preface", "Contents", "Sonnet 1", "Sonnet 2", "", "Sonnet 1", "text..."]

  /** Every sample line is already trimmed. */
  lemma SampleTrimmed()
    ensures TrimAll(SampleLines) == SampleLines
  {
  }

  /** One step of `Collected` at a line that stops collection. */
  lemma CollectedStops(seen: set<string>, body: seq<string>)
    requires body != [] && body[0] in seen && body[0] != "" && body[0] != "\n"
    ensures Collected(seen, body) == seen
  {
  }

  /** One step of `Collected` at a line that is collected. */
  lemma CollectedGoesOn(seen: set<string>, body: seq<string>)
    requires body != [] && (body[0] !in seen || body[0] == "") && body[0] != "\n"
    ensures Collected(seen, body) == Collected(seen + {body[0]}, body[1..])
  {
  }

  /** Two distinct titles, a blank line and the first title again:
      the three are collected, and the repeat stops collection. */
  lemma CollectedTwoTitles(seen: set<string>, a: string, b: string, rest: seq<string>)
    requires a !in seen && b !in seen && a != b
    requires a != "" && a != "\n" && b != "" && b != "\n"
    ensures Collected(seen, [a, b, "", a] + rest) == seen + {a, b, ""}
  {
    var body := [a, b, "", a] + rest;
    assert body[1..] == [b, "", a] + rest;
    CollectedGoesOn(seen, body);
    assert body[1..][1..] == ["", a] + rest;
    CollectedGoesOn(seen + {a}, body[1..]);
    assert body[1..][1..][1..] == [a] + rest;
    CollectedGoesOn(seen + {a} + {b}, body[1..][1..]);
    CollectedStops(seen + {a} + {b} + {""}, body[1..][1..][1..]);
    assert seen + {a} + {b} + {""} == seen + {a, b, ""};
  }

  /** On the sample, the keys are the marker, both titles and the blank
      line, each with no entries; "Preface" comes before the marker and
      "text..." after the repeated title, so neither is a key. */
  lemma SampleWorks()
    ensures Run(Start, TrimAll(SampleLines)).works == AsWorks({Marker, "Sonnet 1", "Sonnet 2", ""})
  {
    SampleTrimmed();
    var ls := SampleLines;
    assert ls[0][0] != Marker[0];
    assert ls[1..][0] == ls[1] && ls[1..][1..] == ls[2..];
    assert TocKeys(ls) == Collected({Marker}, ls[2..]);
    assert "Sonnet 1"[0] != Marker[0];
    assert "Sonnet 2"[7] != "Sonnet 1"[7];
    assert ls[2..] == ["Sonnet 1", "Sonnet 2", "", "Sonnet 1"] + ["text..."];
    CollectedTwoTitles({Marker}, "Sonnet 1", "Sonnet 2", ["text..."]);
    assert {Marker} + {"Sonnet 1", "Sonnet 2", ""} == {Marker, "Sonnet 1", "Sonnet 2", ""};
    RunMatchesTocKeys(ls);
  }
}
