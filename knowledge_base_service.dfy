/**
 * The knowledge-base service: ingestion of the transcript corpus, one record
 * per segment, transcript after transcript, and search by delegation to the
 * repository.
 */
module KnowledgeBaseService {
  import opened Wrappers
  import opened Text
  import opened Models
  import Repo = KnowledgeBaseRepository

  /** One timed piece of a transcript. */
  datatype Segment = Segment(content: string, timeStamp: string)

  /** One podcast transcript: its title and its segments (the `transcripts` list). */
  datatype Transcript = Transcript(title: string, transcripts: seq<Segment>)

  /** The record id `f"{title}-{i}"`. */
  function SegmentId(title: string, i: nat): (id: string)
    ensures |id| > |title| + 1 && id[..|title| + 1] == title + "-"
    ensures AllDigits(id[|title| + 1..]) && ParseDigits(id[|title| + 1..]) == i
  {
    var id := title + "-" + NatToString(i);
    assert id[|title| + 1..] == NatToString(i);
    ParseNatToString(i);
    id
  }

  /** The records for `segments` numbered from `start`, as `enumerate(segments, start=start)` yields them. */
  function EnumerateSegments(title: string, segments: seq<Segment>, start: nat): (recs: seq<PodcastRecord>)
    ensures |recs| == |segments|
    ensures forall k :: 0 <= k < |recs| ==>
      recs[k] == PodcastRecord(SegmentId(title, start + k), title, segments[k].content, segments[k].timeStamp)
  {
    if segments == [] then []
    else
      [PodcastRecord(SegmentId(title, start), title, segments[0].content, segments[0].timeStamp)]
      + EnumerateSegments(title, segments[1..], start + 1)
  }

  /** The records of one transcript, numbered from 1. */
  function TranscriptRecords(t: Transcript): (recs: seq<PodcastRecord>)
    ensures |recs| == |t.transcripts|
    ensures forall k :: 0 <= k < |recs| ==>
      recs[k] == PodcastRecord(SegmentId(t.title, k + 1), t.title, t.transcripts[k].content, t.transcripts[k].timeStamp)
  {
    EnumerateSegments(t.title, t.transcripts, 1)
  }

  /** The records of the whole corpus, transcript by transcript: exactly one per segment. */
  function IngestRecords(ts: seq<Transcript>): (recs: seq<PodcastRecord>)
    ensures |recs| == TotalSegments(ts)
  {
    if ts == [] then [] else TranscriptRecords(ts[0]) + IngestRecords(ts[1..])
  }

  function TotalSegments(ts: seq<Transcript>): nat {
    if ts == [] then 0 else |ts[0].transcripts| + TotalSegments(ts[1..])
  }

  /** The records the store receives for a list of podcast records. */
  function ToMemoryRecords(recs: seq<PodcastRecord>): (ms: seq<Repo.MemoryRecord>)
    ensures |ms| == |recs| && forall k :: 0 <= k < |recs| ==> ms[k] == Repo.ToMemoryRecord(recs[k])
  {
    seq(|recs|, k requires 0 <= k < |recs| => Repo.ToMemoryRecord(recs[k]))
  }

  /** The position of the first record the store refuses, or the number of records when it refuses none. */
  function FirstRejected(rejects: Repo.MemoryRecord -> bool, recs: seq<PodcastRecord>): (n: nat)
    ensures n <= |recs|
    ensures forall k :: 0 <= k < n ==> !rejects(Repo.ToMemoryRecord(recs[k]))
    ensures n < |recs| ==> rejects(Repo.ToMemoryRecord(recs[n]))
  {
    if recs == [] then 0
    else if rejects(Repo.ToMemoryRecord(recs[0])) then 0
    else 1 + FirstRejected(rejects, recs[1..])
  }

  /** Records the store accepts in front do not move the first refusal, only shift it. */
  lemma {:induction false} FirstRejectedAppend(rejects: Repo.MemoryRecord -> bool, a: seq<PodcastRecord>, b: seq<PodcastRecord>)
    requires forall k :: 0 <= k < |a| ==> !rejects(Repo.ToMemoryRecord(a[k]))
    ensures FirstRejected(rejects, a + b) == |a| + FirstRejected(rejects, b)
  {
    if a == [] {
      assert a + b == b;
    } else {
      assert (a + b)[0] == a[0];
      assert (a + b)[1..] == a[1..] + b;
      FirstRejectedAppend(rejects, a[1..], b);
    }
  }

  /** Ingesting two lists one after the other is ingesting their concatenation. */
  lemma {:induction false} IngestRecordsAppend(a: seq<Transcript>, b: seq<Transcript>)
    ensures IngestRecords(a + b) == IngestRecords(a) + IngestRecords(b)
  {
    if a == [] {
      assert a + b == b;
    } else {
      assert (a + b)[0] == a[0];
      assert (a + b)[1..] == a[1..] + b;
      IngestRecordsAppend(a[1..], b);
    }
  }

  /**
   * Transcripts are handled in order: the records of transcript `k` come after
   * all records of the transcripts before it and before all records of those after it.
   */
  lemma IngestOrder(ts: seq<Transcript>, k: nat)
    requires k < |ts|
    ensures IngestRecords(ts) == IngestRecords(ts[..k]) + TranscriptRecords(ts[k]) + IngestRecords(ts[k + 1..])
  {
    var rest := ts[k..];
    assert ts == ts[..k] + rest;
    IngestRecordsAppend(ts[..k], rest);
    assert rest[0] == ts[k] && rest[1..] == ts[k + 1..];
    assert IngestRecords(rest) == TranscriptRecords(ts[k]) + IngestRecords(ts[k + 1..]);
    AppendAssoc(IngestRecords(ts[..k]), TranscriptRecords(ts[k]), IngestRecords(ts[k + 1..]));
  }

  lemma IngestPrefix(ts: seq<Transcript>, t: nat)
    requires t < |ts|
    ensures IngestRecords(ts[..t + 1]) == IngestRecords(ts[..t]) + TranscriptRecords(ts[t])
    ensures IngestRecords(ts) == IngestRecords(ts[..t]) + TranscriptRecords(ts[t]) + IngestRecords(ts[t + 1..])
  {
    IngestOrder(ts, t);
    var front := ts[..t + 1];
    IngestOrder(front, t);
    assert front[..t] == ts[..t];
    assert front[t + 1..] == [];
  }

  /**
   * One transcript's batch inside the whole run: when everything before it was
   * accepted and the batch refuses its `m`-th record, that is the run's first refusal.
   */
  lemma IngestStepFails(rejects: Repo.MemoryRecord -> bool, done: seq<PodcastRecord>, tasks: seq<PodcastRecord>, rest: seq<PodcastRecord>, m: nat)
    requires FirstRejected(rejects, done) == |done|
    requires m == FirstRejected(rejects, tasks) && m < |tasks|
    ensures FirstRejected(rejects, done + tasks + rest) == |done| + m
    ensures (done + tasks + rest)[..|done| + m] == done + tasks[..m]
    ensures (done + tasks + rest)[|done| + m] == tasks[m]
  {
    var tail := tasks[m..] + rest;
    assert done + tasks + rest == (done + tasks[..m]) + tail;
    FirstRejectedAppend(rejects, done, tasks[..m]);
    FirstRejectedAppend(rejects, done + tasks[..m], tail);
    assert tail[0] == tasks[m];
  }

  /** The store's view of an ingestion run: the `saved` records were all accepted and appended after `initial`. */
  ghost predicate SavedSoFar(rejects: Repo.MemoryRecord -> bool, collection: seq<Repo.MemoryRecord>,
                             initial: seq<Repo.MemoryRecord>, saved: seq<PodcastRecord>)
  {
    FirstRejected(rejects, saved) == |saved| && collection == initial + ToMemoryRecords(saved)
  }

  /** A batch the store takes whole extends the saved prefix by the whole batch. */
  lemma SavedBatch(rejects: Repo.MemoryRecord -> bool, before: seq<Repo.MemoryRecord>, after: seq<Repo.MemoryRecord>,
                   initial: seq<Repo.MemoryRecord>, done: seq<PodcastRecord>, tasks: seq<PodcastRecord>)
    requires SavedSoFar(rejects, before, initial, done)
    requires FirstRejected(rejects, tasks) == |tasks| && after == before + ToMemoryRecords(tasks[..|tasks|])
    ensures SavedSoFar(rejects, after, initial, done + tasks)
  {
    FirstRejectedAppend(rejects, done, tasks);
    assert tasks[..|tasks|] == tasks;
    AppendedRecords(before, after, initial, done, tasks);
  }

  /** Appending the records of `tasks` after those of `done` is appending the records of `done + tasks`. */
  lemma AppendedRecords(before: seq<Repo.MemoryRecord>, after: seq<Repo.MemoryRecord>,
                        initial: seq<Repo.MemoryRecord>, done: seq<PodcastRecord>, tasks: seq<PodcastRecord>)
    requires before == initial + ToMemoryRecords(done) && after == before + ToMemoryRecords(tasks)
    ensures after == initial + ToMemoryRecords(done + tasks)
  {
    ToMemoryRecordsAppend(done, tasks);
    AppendAssoc(initial, ToMemoryRecords(done), ToMemoryRecords(tasks));
  }

  lemma AppendAssoc<T>(a: seq<T>, b: seq<T>, c: seq<T>)
    ensures (a + b) + c == a + (b + c)
  {
  }

  /** A batch the store refuses part-way: the refusal is the first one of `done + tasks + rest`. */
  lemma RefusedBatch(rejects: Repo.MemoryRecord -> bool, before: seq<Repo.MemoryRecord>, after: seq<Repo.MemoryRecord>,
                     initial: seq<Repo.MemoryRecord>, done: seq<PodcastRecord>, tasks: seq<PodcastRecord>, rest: seq<PodcastRecord>)
    requires SavedSoFar(rejects, before, initial, done)
    requires FirstRejected(rejects, tasks) < |tasks|
    requires after == before + ToMemoryRecords(tasks[..FirstRejected(rejects, tasks)])
    ensures var all := done + tasks + rest; var n := FirstRejected(rejects, all);
      && n < |all|
      && after == initial + ToMemoryRecords(all[..n])
      && all[n] == tasks[FirstRejected(rejects, tasks)]
  {
    var m := FirstRejected(rejects, tasks);
    IngestStepFails(rejects, done, tasks, rest, m);
    AppendedRecords(before, after, initial, done, tasks[..m]);
  }

  lemma IngestBatchPasses(rejects: Repo.MemoryRecord -> bool, before: seq<Repo.MemoryRecord>, after: seq<Repo.MemoryRecord>,
                          initial: seq<Repo.MemoryRecord>, ts: seq<Transcript>, t: nat)
    requires t < |ts|
    requires SavedSoFar(rejects, before, initial, IngestRecords(ts[..t]))
    requires var tasks := TranscriptRecords(ts[t]);
      FirstRejected(rejects, tasks) == |tasks| && after == before + ToMemoryRecords(tasks[..|tasks|])
    ensures SavedSoFar(rejects, after, initial, IngestRecords(ts[..t + 1]))
  {
    IngestPrefix(ts, t);
    SavedBatch(rejects, before, after, initial, IngestRecords(ts[..t]), TranscriptRecords(ts[t]));
  }

  lemma IngestBatchFails(rejects: Repo.MemoryRecord -> bool, before: seq<Repo.MemoryRecord>, after: seq<Repo.MemoryRecord>,
                         initial: seq<Repo.MemoryRecord>, ts: seq<Transcript>, t: nat)
    requires t < |ts|
    requires SavedSoFar(rejects, before, initial, IngestRecords(ts[..t]))
    requires var tasks := TranscriptRecords(ts[t]); var m := FirstRejected(rejects, tasks);
      m < |tasks| && after == before + ToMemoryRecords(tasks[..m])
    ensures var all := IngestRecords(ts); var n := FirstRejected(rejects, all);
      && n < |all|
      && after == initial + ToMemoryRecords(all[..n])
      && all[n] == TranscriptRecords(ts[t])[FirstRejected(rejects, TranscriptRecords(ts[t]))]
  {
    IngestPrefix(ts, t);
    RefusedBatch(rejects, before, after, initial, IngestRecords(ts[..t]), TranscriptRecords(ts[t]), IngestRecords(ts[t + 1..]));
  }

  lemma IngestAllSaved(rejects: Repo.MemoryRecord -> bool, collection: seq<Repo.MemoryRecord>,
                       initial: seq<Repo.MemoryRecord>, ts: seq<Transcript>)
    requires SavedSoFar(rejects, collection, initial, IngestRecords(ts[..|ts|]))
    ensures var all := IngestRecords(ts);
      FirstRejected(rejects, all) == |all| && collection == initial + ToMemoryRecords(all[..|all|])
  {
    assert ts[..|ts|] == ts;
    var all := IngestRecords(ts);
    assert all[..|all|] == all;
  }

  /**
   * The i-th segment (from 1) of a transcript becomes the record with id
   * `title-i`, its title, and the segment's content and time stamp.
   */
  lemma TranscriptRecordAt(t: Transcript, i: nat)
    requires 1 <= i <= |t.transcripts|
    ensures |TranscriptRecords(t)| == |t.transcripts|
    ensures TranscriptRecords(t)[i - 1] ==
      PodcastRecord(t.title + "-" + NatToString(i), t.title, t.transcripts[i - 1].content, t.transcripts[i - 1].timeStamp)
  {
  }

  /** Two different segment numbers give two different ids. */
  lemma SegmentIdInjective(title: string, i: nat, j: nat)
    requires SegmentId(title, i) == SegmentId(title, j)
    ensures i == j
  {
    var p := title + "-";
    assert SegmentId(title, i)[|p|..] == NatToString(i);
    assert SegmentId(title, j)[|p|..] == NatToString(j);
    NatToStringInjective(i, j);
  }

  /** The ids within one transcript are pairwise distinct. */
  lemma TranscriptIdsDistinct(t: Transcript)
    ensures forall a, b :: 0 <= a < b < |TranscriptRecords(t)| ==> TranscriptRecords(t)[a].id != TranscriptRecords(t)[b].id
  {
    var recs := TranscriptRecords(t);
    forall a, b | 0 <= a < b < |recs| ensures recs[a].id != recs[b].id {
      var n := |t.title| + 1;
      assert ParseDigits(recs[a].id[n..]) == 1 + a && ParseDigits(recs[b].id[n..]) == 1 + b;
    }
  }

  lemma ToMemoryRecordsAppend(a: seq<PodcastRecord>, b: seq<PodcastRecord>)
    ensures ToMemoryRecords(a + b) == ToMemoryRecords(a) + ToMemoryRecords(b)
  {
  }

  /** One more accepted save extends the saved prefix of `tasks` by one record. */
  lemma SavedOne(initial: seq<Repo.MemoryRecord>, before: seq<Repo.MemoryRecord>, after: seq<Repo.MemoryRecord>,
                 tasks: seq<PodcastRecord>, j: nat)
    requires j < |tasks|
    requires before == initial + ToMemoryRecords(tasks[..j]) && after == before + [Repo.ToMemoryRecord(tasks[j])]
    ensures after == initial + ToMemoryRecords(tasks[..j + 1])
  {
    assert tasks[..j + 1] == tasks[..j] + [tasks[j]];
    assert ToMemoryRecords([tasks[j]]) == [Repo.ToMemoryRecord(tasks[j])];
    AppendedRecords(before, after, initial, tasks[..j], [tasks[j]]);
  }

  lemma MapUpdateMinus(m: map<string, seq<Repo.MemoryRecord>>, k: string, v: seq<Repo.MemoryRecord>)
    ensures m[k := v] - {k} == m - {k}
  {
  }

  /** `KnowledgeBaseService` over a repository; the admission semaphore is not modelled. */
  class KnowledgeBaseService {
    const kb: Repo.KnowledgeBaseRepository

    constructor (kb: Repo.KnowledgeBaseRepository)
      ensures this.kb == kb
    {
      this.kb := kb;
    }

    /**
     * `ingest_transcripts_async`: for each transcript in order, build one record
     * per segment, then save them all before the next transcript. The saves are
     * made one after the other; the first refused save ends ingestion and its
     * error is raised again. Afterwards `georgekb` holds the records saved so
     * far, in order, and no other collection has changed.
     */
    method IngestTranscripts(transcripts: seq<Transcript>) returns (r: Outcome<Repo.StoreError>)
      modifies kb.store
      ensures
        var all := IngestRecords(transcripts);
        var n := FirstRejected(kb.store.rejects, all);
        && kb.store.Collection(Repo.IndexName) == old(kb.store.Collection(Repo.IndexName)) + ToMemoryRecords(all[..n])
        && kb.store.collections - {Repo.IndexName} == old(kb.store.collections) - {Repo.IndexName}
        && r == if n == |all| then Pass else Fail(Repo.StoreError(all[n].id))
    {
      ghost var initial := kb.store.Collection(Repo.IndexName);
      ghost var others := kb.store.collections - {Repo.IndexName};
      var t := 0;
      while t < |transcripts|
        invariant 0 <= t <= |transcripts|
        invariant SavedSoFar(kb.store.rejects, kb.store.Collection(Repo.IndexName), initial, IngestRecords(transcripts[..t]))
        invariant kb.store.collections - {Repo.IndexName} == others
      {
        ghost var before := kb.store.Collection(Repo.IndexName);
        var tasks := BuildTasks(transcripts[t]);
        var saved := SaveBatch(tasks);
        if saved.Fail? {
          IngestBatchFails(kb.store.rejects, before, kb.store.Collection(Repo.IndexName), initial, transcripts, t);
          return saved;
        }
        IngestBatchPasses(kb.store.rejects, before, kb.store.Collection(Repo.IndexName), initial, transcripts, t);
        t := t + 1;
      }
      IngestAllSaved(kb.store.rejects, kb.store.Collection(Repo.IndexName), initial, transcripts);
      r := Pass;
    }

    /** The inner loop of ingestion: one record per segment, numbered from 1. */
    method BuildTasks(transcript: Transcript) returns (tasks: seq<PodcastRecord>)
      ensures tasks == TranscriptRecords(transcript)
    {
      tasks := [];
      for i := 0 to |transcript.transcripts|
        invariant tasks == TranscriptRecords(transcript)[..i]
      {
        var segment := transcript.transcripts[i];
        var metadata := PodcastRecord(SegmentId(transcript.title, i + 1), transcript.title, segment.content, segment.timeStamp);
        tasks := tasks + [metadata];
      }
    }

    /**
     * `await asyncio.gather(*tasks)` for one transcript, run one save after the
     * other: the records up to the first refused one are appended to
     * `georgekb`, and the refusal is raised.
     */
    method SaveBatch(tasks: seq<PodcastRecord>) returns (r: Outcome<Repo.StoreError>)
      modifies kb.store
      ensures
        var n := FirstRejected(kb.store.rejects, tasks);
        && kb.store.Collection(Repo.IndexName) == old(kb.store.Collection(Repo.IndexName)) + ToMemoryRecords(tasks[..n])
        && kb.store.collections - {Repo.IndexName} == old(kb.store.collections) - {Repo.IndexName}
        && r == if n == |tasks| then Pass else Fail(Repo.StoreError(tasks[n].id))
    {
      for j := 0 to |tasks|
        invariant forall k :: 0 <= k < j ==> !kb.store.rejects(Repo.ToMemoryRecord(tasks[k]))
        invariant kb.store.Collection(Repo.IndexName) == old(kb.store.Collection(Repo.IndexName)) + ToMemoryRecords(tasks[..j])
        invariant kb.store.collections - {Repo.IndexName} == old(kb.store.collections) - {Repo.IndexName}
      {
        ghost var before := kb.store.collections;
        ghost var collection := kb.store.Collection(Repo.IndexName);
        var saved := kb.SaveMemory(tasks[j]);
        if saved.Fail? {
          FirstRejectedAppend(kb.store.rejects, tasks[..j], tasks[j..]);
          assert tasks == tasks[..j] + tasks[j..];
          return saved;
        }
        MapUpdateMinus(before, Repo.IndexName, kb.store.Collection(Repo.IndexName));
        SavedOne(old(kb.store.Collection(Repo.IndexName)), collection, kb.store.Collection(Repo.IndexName), tasks, j);
      }
      assert tasks[..|tasks|] == tasks;
      r := Pass;
    }

    /** `search_kb_async`: exactly what the repository's search returns for the query. */
    function SearchKb(query: string): (h: Repo.MemoryHit)
      ensures h == kb.SearchMemory(query)
    {
      kb.SearchMemory(query)
    }
  }
}
