/** checkForValidRecognitionResults (inky.js:714-729): a first-match search
    of the recogniser's output against the conversion dictionary. The loops
    run over segments, then each segment's text candidates, then the
    dictionary's keys, then each key's variants, and return the key of the
    first variant equal to a candidate. The dictionary is a sequence of
    (key, variants) entries, in the order `for (key in ...)` visits them. */
module Recognition {
  import opened Options

  /** One conversion-dictionary entry: an accepted symbol and the
      recogniser outputs that count as that symbol. */
  datatype Entry = Entry(key: string, variants: seq<string>)

  /** The innermost two loops (inky.js:719-725) for one candidate: the key of
      the first entry that has a variant equal to the candidate. */
  function KeyFor(candidate: string, dict: seq<Entry>): (r: Option<string>)
    ensures r.None? <==> forall k :: 0 <= k < |dict| ==> candidate !in dict[k].variants
    ensures r.Some? ==> exists k :: 0 <= k < |dict| && FirstEntryFor(candidate, dict, k) && r.value == dict[k].key
  {
    if dict == [] then None
    else if candidate in dict[0].variants then
      assert FirstEntryFor(candidate, dict, 0);
      Some(dict[0].key)
    else
      var r := KeyFor(candidate, dict[1..]);
      assert r.Some? ==> exists k :: FirstEntryFor(candidate, dict, k) && r.value == dict[k].key by {
        if r.Some? {
          var k :| 0 <= k < |dict[1..]| && FirstEntryFor(candidate, dict[1..], k) && r.value == dict[1..][k].key;
          assert FirstEntryFor(candidate, dict, k + 1);
        }
      }
      r
  }

  /** Entry k is the first entry of dict that lists the candidate. */
  ghost predicate FirstEntryFor(candidate: string, dict: seq<Entry>, k: int) {
    && 0 <= k < |dict|
    && candidate in dict[k].variants
    && forall k' :: 0 <= k' < k ==> candidate !in dict[k'].variants
  }

  /** The candidate loop (inky.js:718-726) for one segment: the key found
      for the first candidate that has one. */
  function KeyForCandidates(candidates: seq<string>, dict: seq<Entry>): (r: Option<string>)
    ensures r.None? <==> forall j :: 0 <= j < |candidates| ==> KeyFor(candidates[j], dict).None?
    ensures r.Some? ==> exists j :: FirstCandidateWithKey(candidates, dict, j) && r == KeyFor(candidates[j], dict)
  {
    if candidates == [] then None
    else
      var head := KeyFor(candidates[0], dict);
      if head.Some? then
        assert FirstCandidateWithKey(candidates, dict, 0);
        head
      else
        var r := KeyForCandidates(candidates[1..], dict);
        assert forall j :: 1 <= j < |candidates| ==> candidates[j] == candidates[1..][j - 1];
        assert r.Some? ==> exists j :: FirstCandidateWithKey(candidates, dict, j) && r == KeyFor(candidates[j], dict) by {
          if r.Some? {
            var j :| FirstCandidateWithKey(candidates[1..], dict, j) && r == KeyFor(candidates[1..][j], dict);
            forall j' | 0 <= j' < j + 1 ensures KeyFor(candidates[j'], dict).None? {
              if j' > 0 { assert candidates[j'] == candidates[1..][j' - 1]; }
            }
            assert candidates[j + 1] == candidates[1..][j];
            assert FirstCandidateWithKey(candidates, dict, j + 1);
          }
        }
        r
  }

  /** Candidate j is the first candidate that some entry lists. */
  ghost predicate FirstCandidateWithKey(candidates: seq<string>, dict: seq<Entry>, j: int) {
    && 0 <= j < |candidates|
    && KeyFor(candidates[j], dict).Some?
    && forall j' :: 0 <= j' < j ==> KeyFor(candidates[j'], dict).None?
  }

  /** checkForValidRecognitionResults (inky.js:714-729): the key found in the
      first segment whose candidates yield one, or None (the source's `null`). */
  function CheckForValidRecognitionResults(results: seq<seq<string>>, dict: seq<Entry>): (r: Option<string>)
    ensures r.None? <==> forall i :: 0 <= i < |results| ==> KeyForCandidates(results[i], dict).None?
    ensures r.Some? ==> exists i :: FirstSegmentWithKey(results, dict, i) && r == KeyForCandidates(results[i], dict)
  {
    if results == [] then None
    else
      var head := KeyForCandidates(results[0], dict);
      if head.Some? then
        assert FirstSegmentWithKey(results, dict, 0);
        head
      else
        var r := CheckForValidRecognitionResults(results[1..], dict);
        SegmentsShift(results, dict, r);
        r
  }

  /** Dropping a first segment that has no key changes neither whether a
      key is found nor which one: the first segment with a key in
      `results[1..]`, one place further on, is the first in `results`. */
  lemma SegmentsShift(results: seq<seq<string>>, dict: seq<Entry>, r: Option<string>)
    requires |results| > 0 && KeyForCandidates(results[0], dict).None?
    requires r.Some? ==> exists i :: FirstSegmentWithKey(results[1..], dict, i) && r == KeyForCandidates(results[1..][i], dict)
    ensures r.Some? ==> exists i :: FirstSegmentWithKey(results, dict, i) && r == KeyForCandidates(results[i], dict)
    ensures (forall i :: 0 <= i < |results| ==> KeyForCandidates(results[i], dict).None?)
        <==> (forall i :: 0 <= i < |results[1..]| ==> KeyForCandidates(results[1..][i], dict).None?)
  {
    NoKeyShift(results, dict);
    if r.Some? {
      var i :| FirstSegmentWithKey(results[1..], dict, i) && r == KeyForCandidates(results[1..][i], dict);
      FirstSegmentShift(results, dict, i);
    }
  }

  lemma NoKeyShift(results: seq<seq<string>>, dict: seq<Entry>)
    requires |results| > 0 && KeyForCandidates(results[0], dict).None?
    ensures (forall i :: 0 <= i < |results| ==> KeyForCandidates(results[i], dict).None?)
        <==> (forall i :: 0 <= i < |results[1..]| ==> KeyForCandidates(results[1..][i], dict).None?)
  {
    assert forall i :: 1 <= i < |results| ==> results[i] == results[1..][i - 1];
  }

  lemma FirstSegmentShift(results: seq<seq<string>>, dict: seq<Entry>, i: int)
    requires |results| > 0 && KeyForCandidates(results[0], dict).None?
    requires FirstSegmentWithKey(results[1..], dict, i)
    ensures FirstSegmentWithKey(results, dict, i + 1) && results[i + 1] == results[1..][i]
  {
    forall i' | 0 <= i' < i + 1 ensures KeyForCandidates(results[i'], dict).None? {
      if i' > 0 { assert results[i'] == results[1..][i' - 1]; }
    }
  }

  /** Segment i is the first segment with a candidate that some entry lists. */
  ghost predicate FirstSegmentWithKey(results: seq<seq<string>>, dict: seq<Entry>, i: int) {
    && 0 <= i < |results|
    && KeyForCandidates(results[i], dict).Some?
    && forall i' :: 0 <= i' < i ==> KeyForCandidates(results[i'], dict).None?
  }

  /** The candidate results[i][j] equals some variant of entry k. */
  ghost predicate Matches(results: seq<seq<string>>, dict: seq<Entry>, i: int, j: int, k: int) {
    0 <= i < |results| && 0 <= j < |results[i]| && 0 <= k < |dict| && results[i][j] in dict[k].variants
  }

  /** No (segment, candidate) pair before (i, j), in loop order, matches any entry. */
  ghost predicate NoMatchBefore(results: seq<seq<string>>, dict: seq<Entry>, i: int, j: int)
    requires 0 <= i < |results|
  {
    && (forall i', j', k' :: 0 <= i' < i && 0 <= j' < |results[i']| && 0 <= k' < |dict|
          ==> results[i'][j'] !in dict[k'].variants)
    && (forall j', k' :: 0 <= j' < j && j' < |results[i]| && 0 <= k' < |dict|
          ==> results[i][j'] !in dict[k'].variants)
  }

  /** The segment where the search stopped. */
  lemma SegmentWitness(results: seq<seq<string>>, dict: seq<Entry>) returns (i: int)
    requires CheckForValidRecognitionResults(results, dict).Some?
    ensures FirstSegmentWithKey(results, dict, i)
    ensures CheckForValidRecognitionResults(results, dict) == KeyForCandidates(results[i], dict)
  {
    i :| FirstSegmentWithKey(results, dict, i) && CheckForValidRecognitionResults(results, dict) == KeyForCandidates(results[i], dict);
  }

  /** The candidate where the search within one segment stopped. */
  lemma CandidateWitness(candidates: seq<string>, dict: seq<Entry>) returns (j: int)
    requires KeyForCandidates(candidates, dict).Some?
    ensures FirstCandidateWithKey(candidates, dict, j)
    ensures KeyForCandidates(candidates, dict) == KeyFor(candidates[j], dict)
  {
    j :| FirstCandidateWithKey(candidates, dict, j) && KeyForCandidates(candidates, dict) == KeyFor(candidates[j], dict);
  }

  /** The entry where the search for one candidate stopped. */
  lemma EntryWitness(candidate: string, dict: seq<Entry>) returns (k: int)
    requires KeyFor(candidate, dict).Some?
    ensures FirstEntryFor(candidate, dict, k)
    ensures KeyFor(candidate, dict) == Some(dict[k].key)
  {
    k :| FirstEntryFor(candidate, dict, k) && KeyFor(candidate, dict).value == dict[k].key;
  }

  /** The search returns null exactly when no candidate of any segment equals
      any variant of any key. */
  lemma {:induction false} NoMatchIffNull(results: seq<seq<string>>, dict: seq<Entry>)
    ensures CheckForValidRecognitionResults(results, dict).None?
        <==> forall i, j, k :: !Matches(results, dict, i, j, k)
  {
    if CheckForValidRecognitionResults(results, dict).None? {
      forall i, j, k ensures !Matches(results, dict, i, j, k) {
        if 0 <= i < |results| && 0 <= j < |results[i]| && 0 <= k < |dict| {
          assert KeyForCandidates(results[i], dict).None?;
          assert KeyFor(results[i][j], dict).None?;
        }
      }
    } else {
      var i := SegmentWitness(results, dict);
      var j := CandidateWitness(results[i], dict);
      var k := EntryWitness(results[i][j], dict);
      assert Matches(results, dict, i, j, k);
    }
  }

  /** A key the search returns belongs to the first match in loop order:
      segment i, candidate j, entry k match, no earlier (segment, candidate)
      matches anything, and no entry before k lists candidate j. */
  lemma {:induction false} FoundKeyIsFirstMatch(results: seq<seq<string>>, dict: seq<Entry>, key: string)
    requires CheckForValidRecognitionResults(results, dict) == Some(key)
    ensures exists i, j, k :: (Matches(results, dict, i, j, k) && key == dict[k].key
                               && NoMatchBefore(results, dict, i, j)
                               && FirstEntryFor(results[i][j], dict, k))
  {
    var i := SegmentWitness(results, dict);
    var j := CandidateWitness(results[i], dict);
    var k := EntryWitness(results[i][j], dict);
    forall i', j', k' | 0 <= i' < i && 0 <= j' < |results[i']| && 0 <= k' < |dict|
      ensures results[i'][j'] !in dict[k'].variants
    {
      assert KeyForCandidates(results[i'], dict).None?;
      assert KeyFor(results[i'][j'], dict).None?;
    }
    forall j', k' | 0 <= j' < j && j' < |results[i]| && 0 <= k' < |dict|
      ensures results[i][j'] !in dict[k'].variants
    {
      assert KeyFor(results[i][j'], dict).None?;
    }
    assert Matches(results, dict, i, j, k) && NoMatchBefore(results, dict, i, j);
  }

  /** The sample dictionary of the library's configuration comment: "X"
      lists x, X, %, T and t, and "O" lists o, O, 0 and Q. */
  const SampleDictionary := [Entry("X", ["x", "X", "%", "T", "t"]), Entry("O", ["o", "O", "0", "Q"])]

  /** With the sample dictionary, a segment read as "%" gives "X" and one
      read as "0" gives "O". */
  lemma DocumentedExample()
    ensures CheckForValidRecognitionResults([["%"]], SampleDictionary) == Some("X")
    ensures CheckForValidRecognitionResults([["0"]], SampleDictionary) == Some("O")
  {
    var d := SampleDictionary;
    assert KeyFor("%", d) == Some("X");
    assert "0" !in d[0].variants;
    assert KeyFor("0", d[1..]) == Some("O");
  }

  /** With the sample dictionary, a later candidate "Q" is found when the
      first, "y", is listed nowhere, and "y" alone gives nothing. */
  lemma DocumentedExampleMisses()
    ensures CheckForValidRecognitionResults([["y", "Q"]], SampleDictionary) == Some("O")
    ensures CheckForValidRecognitionResults([["y"]], SampleDictionary) == None
  {
    var d := SampleDictionary;
    assert "Q" !in d[0].variants;
    assert KeyFor("Q", d[1..]) == Some("O");
    assert "y" !in d[0].variants && "y" !in d[1].variants;
    assert KeyFor("y", d[1..][1..]) == None;
    assert KeyForCandidates(["y", "Q"], d) == KeyForCandidates(["Q"], d);
  }
}
