/**
 * The memory plugin's `recall`: decompose the query, search the knowledge base
 * once per sub-query, and drop results whose (podcast title, time stamp) key
 * was already seen, keeping the first occurrence.
 */
module MemoryPlugin {
  import opened Wrappers
  import opened Models

  /** The de-duplication key of a record: its podcast title and time stamp. */
  type Key = (string, string)

  function KeyOf(r: PodcastRecord): Key {
    (r.podcastTitle, r.timeStamp)
  }

  /** The keys that occur in `s`. */
  function Keys(s: seq<PodcastRecord>): set<Key> {
    set r | r in s :: KeyOf(r)
  }

  /** No two items of `s` share a key. */
  ghost predicate KeyUnique(s: seq<PodcastRecord>) {
    forall i, j :: 0 <= i < j < |s| ==> KeyOf(s[i]) != KeyOf(s[j])
  }

  /** `s[i]` is the earliest item of `s` with its key. */
  predicate FirstOfKey(s: seq<PodcastRecord>, i: nat)
    requires i < |s|
  {
    KeyOf(s[i]) !in Keys(s[..i])
  }

  lemma KeysSnoc(s: seq<PodcastRecord>, x: PodcastRecord)
    ensures Keys(s + [x]) == Keys(s) + {KeyOf(x)}
  {
    assert forall r :: r in s + [x] <==> r in s || r == x;
  }

  /**
   * The reference definition of the filter: the items of `s` that are the
   * first of their key, in input order.
   */
  function FirstOccurrences(s: seq<PodcastRecord>): (r: seq<PodcastRecord>)
    ensures forall x :: x in r ==> x in s
    ensures s != [] ==> r != [] && r[0] == s[0]
  {
    if s == [] then []
    else
      var init, last := s[..|s| - 1], s[|s| - 1];
      FirstOccurrences(init) + (if KeyOf(last) in Keys(init) then [] else [last])
  }

  /**
   * `__filter_unique_by_title_and_timestamp`: one pass over `results` with a
   * `seen` set of keys; an item is appended when its key is new.
   */
  method FilterUniqueByTitleAndTimestamp(results: seq<PodcastRecord>) returns (uniqueResults: seq<PodcastRecord>)
    ensures uniqueResults == FirstOccurrences(results)
  {
    var seen: set<Key> := {};
    uniqueResults := [];
    for i := 0 to |results|
      invariant seen == Keys(results[..i])
      invariant uniqueResults == FirstOccurrences(results[..i])
    {
      var item := results[i];
      var key := (item.podcastTitle, item.timeStamp);
      assert results[..i + 1] == results[..i] + [item];
      KeysSnoc(results[..i], item);
      if key !in seen {
        seen := seen + {key};
        uniqueResults := uniqueResults + [item];
      }
    }
    assert results[..|results|] == results;
  }

  /** Nothing is lost beyond duplicates: the output has every key of the input, and no other. */
  lemma {:induction false} FirstOccurrencesKeys(s: seq<PodcastRecord>)
    ensures Keys(FirstOccurrences(s)) == Keys(s)
  {
    if s != [] {
      var init, last := s[..|s| - 1], s[|s| - 1];
      FirstOccurrencesKeys(init);
      assert s == init + [last];
      KeysSnoc(init, last);
      if KeyOf(last) !in Keys(init) {
        KeysSnoc(FirstOccurrences(init), last);
      }
    }
  }

  /** The output never holds two items with the same key. */
  lemma {:induction false} FirstOccurrencesUnique(s: seq<PodcastRecord>)
    ensures KeyUnique(FirstOccurrences(s))
  {
    if s != [] {
      var init, last := s[..|s| - 1], s[|s| - 1];
      FirstOccurrencesUnique(init);
      FirstOccurrencesKeys(init);
      var p := FirstOccurrences(init);
      if KeyOf(last) !in Keys(init) {
        forall i | 0 <= i < |p| ensures KeyOf(p[i]) != KeyOf(last) {
          assert p[i] in p;
        }
      }
    }
  }

  /**
   * The input positions the filter keeps, in increasing order: exactly the
   * positions holding the first item of their key, and the output is the input
   * read at those positions. So the output is a subsequence of the input and
   * the item kept for each key is its earliest one.
   */
  ghost function KeptPositions(s: seq<PodcastRecord>): (idx: seq<nat>)
    ensures |idx| == |FirstOccurrences(s)|
    ensures forall k :: 0 <= k < |idx| ==> idx[k] < |s| && FirstOccurrences(s)[k] == s[idx[k]]
    ensures forall k, l :: 0 <= k < l < |idx| ==> idx[k] < idx[l]
    ensures forall i :: 0 <= i < |s| ==> (i in idx <==> FirstOfKey(s, i))
  {
    if s == [] then []
    else
      var p := KeptPositions(s[..|s| - 1]);
      var idx := if KeyOf(s[|s| - 1]) in Keys(s[..|s| - 1]) then p else p + [|s| - 1];
      KeptPositionsStep(s, p);
      assert PositionsOf(s, idx);
      idx
  }

  /** `idx` lists, in increasing order, the positions of `s` the filter keeps. */
  ghost predicate PositionsOf(s: seq<PodcastRecord>, idx: seq<nat>) {
    ReadsOutput(s, idx) && Increasing(idx) && MarksFirsts(s, idx)
  }

  /** Reading `s` at `idx` gives the filter's output. */
  ghost predicate ReadsOutput(s: seq<PodcastRecord>, idx: seq<nat>) {
    && |idx| == |FirstOccurrences(s)|
    && (forall k :: 0 <= k < |idx| ==> idx[k] < |s| && FirstOccurrences(s)[k] == s[idx[k]])
  }

  ghost predicate Increasing(idx: seq<nat>) {
    forall k, l :: 0 <= k < l < |idx| ==> idx[k] < idx[l]
  }

  /** `idx` holds exactly the positions of `s` that hold the first item of their key. */
  ghost predicate MarksFirsts(s: seq<PodcastRecord>, idx: seq<nat>) {
    forall i :: 0 <= i < |s| ==> (i in idx <==> FirstOfKey(s, i))
  }

  /** The positions kept in `s` are those kept in all but its last item, plus the last one when its key is new. */
  lemma KeptPositionsStep(s: seq<PodcastRecord>, p: seq<nat>)
    requires s != [] && PositionsOf(s[..|s| - 1], p)
    ensures PositionsOf(s, if KeyOf(s[|s| - 1]) in Keys(s[..|s| - 1]) then p else p + [|s| - 1])
  {
    var init := s[..|s| - 1];
    var idx := if KeyOf(s[|s| - 1]) in Keys(init) then p else p + [|s| - 1];
    ReadsOutputStep(s, p);
    assert forall k :: 0 <= k < |p| ==> p[k] < |init|;
    MarksFirstsStep(s, p);
  }

  lemma ReadsOutputStep(s: seq<PodcastRecord>, p: seq<nat>)
    requires s != [] && ReadsOutput(s[..|s| - 1], p)
    ensures ReadsOutput(s, if KeyOf(s[|s| - 1]) in Keys(s[..|s| - 1]) then p else p + [|s| - 1])
  {
    var init, last := s[..|s| - 1], s[|s| - 1];
    var isNew := KeyOf(last) !in Keys(init);
    var idx := if isNew then p + [|s| - 1] else p;
    var out := FirstOccurrences(s);
    assert out == FirstOccurrences(init) + (if isNew then [last] else []);
    forall k | 0 <= k < |idx|
      ensures idx[k] < |s| && out[k] == s[idx[k]]
    {
      if k < |p| {
        assert idx[k] == p[k] && out[k] == FirstOccurrences(init)[k];
        assert init[p[k]] == s[p[k]];
      }
    }
  }

  lemma MarksFirstsStep(s: seq<PodcastRecord>, p: seq<nat>)
    requires s != [] && MarksFirsts(s[..|s| - 1], p)
    requires forall k :: 0 <= k < |p| ==> p[k] < |s| - 1
    ensures MarksFirsts(s, if KeyOf(s[|s| - 1]) in Keys(s[..|s| - 1]) then p else p + [|s| - 1])
  {
    var init := s[..|s| - 1];
    var idx := if KeyOf(s[|s| - 1]) in Keys(init) then p else p + [|s| - 1];
    forall i | 0 <= i < |s|
      ensures i in idx <==> FirstOfKey(s, i)
    {
      if i < |init| {
        assert s[..i] == init[..i] && s[i] == init[i];
        assert FirstOfKey(s, i) == FirstOfKey(init, i);
        assert i in idx <==> i in p;
      }
    }
  }

  /** `a` can be read off `b` at strictly increasing positions. */
  ghost predicate IsSubsequence(a: seq<PodcastRecord>, b: seq<PodcastRecord>) {
    exists idx: seq<nat> :: Embeds(idx, a, b)
  }

  ghost predicate Embeds(idx: seq<nat>, a: seq<PodcastRecord>, b: seq<PodcastRecord>) {
    && |idx| == |a|
    && (forall k :: 0 <= k < |idx| ==> idx[k] < |b| && a[k] == b[idx[k]])
    && (forall k, l :: 0 <= k < l < |idx| ==> idx[k] < idx[l])
  }

  /** Relative order is preserved: the output is a subsequence of the input. */
  lemma FirstOccurrencesSubsequence(s: seq<PodcastRecord>)
    ensures IsSubsequence(FirstOccurrences(s), s)
  {
    assert Embeds(KeptPositions(s), FirstOccurrences(s), s);
  }

  /**
   * First occurrence wins: every output item is an input item that no earlier
   * input item shares a key with, and every such input item is in the output.
   */
  lemma FirstOccurrenceWins(s: seq<PodcastRecord>)
    ensures forall k :: 0 <= k < |FirstOccurrences(s)| ==>
      exists i :: 0 <= i < |s| && FirstOccurrences(s)[k] == s[i] && FirstOfKey(s, i)
    ensures forall i :: 0 <= i < |s| && FirstOfKey(s, i) ==> s[i] in FirstOccurrences(s)
  {
    var idx := KeptPositions(s);
    var r := FirstOccurrences(s);
    forall i | 0 <= i < |s| && FirstOfKey(s, i) ensures s[i] in r {
      var k :| 0 <= k < |idx| && idx[k] == i;
      assert r[k] == s[i];
    }
  }

  /** A key-unique input passes through unchanged. */
  lemma {:induction false} FirstOccurrencesOfUnique(s: seq<PodcastRecord>)
    requires KeyUnique(s)
    ensures FirstOccurrences(s) == s
  {
    if s != [] {
      var init, last := s[..|s| - 1], s[|s| - 1];
      FirstOccurrencesOfUnique(init);
      assert s == init + [last];
    }
  }

  /** The filter is idempotent. */
  lemma FirstOccurrencesIdempotent(s: seq<PodcastRecord>)
    ensures FirstOccurrences(FirstOccurrences(s)) == FirstOccurrences(s)
  {
    FirstOccurrencesUnique(s);
    FirstOccurrencesOfUnique(FirstOccurrences(s));
  }

  /** The output is never longer than the input, and as long exactly when the input was key-unique. */
  lemma {:induction false} FirstOccurrencesLength(s: seq<PodcastRecord>)
    ensures |FirstOccurrences(s)| <= |s|
    ensures |FirstOccurrences(s)| == |s| <==> KeyUnique(s)
  {
    if s != [] {
      var init, last := s[..|s| - 1], s[|s| - 1];
      FirstOccurrencesLength(init);
      assert s == init + [last];
      if KeyUnique(s) {
        FirstOccurrencesOfUnique(s);
      }
      if |FirstOccurrences(s)| == |s| {
        assert KeyOf(last) !in Keys(init);
        UniqueSnoc(init, last);
      }
    }
  }

  /** Appending an item with a new key keeps a key-unique list key-unique. */
  lemma UniqueSnoc(s: seq<PodcastRecord>, x: PodcastRecord)
    requires KeyUnique(s) && KeyOf(x) !in Keys(s)
    ensures KeyUnique(s + [x])
  {
    var t := s + [x];
    forall i, j | 0 <= i < j < |t| ensures KeyOf(t[i]) != KeyOf(t[j]) {
      if j == |s| {
        assert t[i] == s[i] && s[i] in s;
      } else {
        assert t[i] == s[i] && t[j] == s[j];
      }
    }
  }

  /** What one knowledge-base search does: return its record, or raise. */
  datatype SearchOutcome = Found(record: PodcastRecord) | Raised

  /**
   * What the query-recomposition step produced: either the invocation failed,
   * its text was not JSON or not a JSON object, or a JSON object whose
   * `recomposed_queries` member is present (`Some`) or missing (`None`).
   */
  datatype Recomposition = InvokeOrParseError | Decoded(recomposedQueries: Option<seq<string>>)

  /**
   * What `recall` returns: the JSON dump of the de-duplicated records, or the
   * empty Python list of its error branch (not the JSON text "[]").
   */
  datatype RecallOutput = Dumped(records: seq<PodcastRecord>) | EmptyList

  /**
   * `asyncio.gather` over one search per query: all results in query order,
   * or `None` when any search raises.
   */
  function Gather(queries: seq<string>, search: string -> SearchOutcome): (r: Option<seq<PodcastRecord>>)
    ensures r.Some? <==> forall i :: 0 <= i < |queries| ==> search(queries[i]).Found?
    ensures r.Some? ==> |r.value| == |queries|
    ensures r.Some? ==> forall i :: 0 <= i < |queries| ==> r.value[i] == search(queries[i]).record
  {
    if queries == [] then Some([])
    else
      match search(queries[0])
      case Raised => None
      case Found(head) =>
        match Gather(queries[1..], search)
        case None => None
        case Some(tail) => Some([head] + tail)
  }

  /** The sub-queries `recall` searches for, when recomposition gave any. */
  function QueriesOf(rc: Recomposition): Option<seq<string>> {
    if rc.Decoded? then rc.recomposedQueries else None
  }

  /**
   * `recall`: parse the recomposition, search once per sub-query in list order,
   * de-duplicate, and dump; every exception on the way gives the empty list.
   */
  method Recall(rc: Recomposition, search: string -> SearchOutcome) returns (out: RecallOutput)
    ensures out == EmptyList <==> (QueriesOf(rc).None? ||
      exists i :: 0 <= i < |QueriesOf(rc).value| && search(QueriesOf(rc).value[i]).Raised?)
    ensures out.Dumped? ==>
      var gathered := Gather(QueriesOf(rc).value, search).value;
      out.records == FirstOccurrences(gathered)
  {
    var queries := QueriesOf(rc);
    if queries.None? {
      return EmptyList;
    }
    var kbResults := Gather(queries.value, search);
    if kbResults.None? {
      return EmptyList;
    }
    var unique := FilterUniqueByTitleAndTimestamp(kbResults.value);
    out := Dumped(unique);
  }
}
