/** The log of one job from the worker's reader to the controller's aggregator. */
module LogPipeline {
  import opened Bytes
  import opened Common
  import opened LogChunks
  import opened LogAggregator
  import opened LogReaders
  import opened LogSecrets
  import opened LogStreamer
  import Masking

  // The controller's side of one log stream: every chunk of the call goes to the aggregator.
  method StreamLogs(agg: Aggregator, id: JobId, chunks: seq<Chunk>) returns (lastOffset: nat)
    requires agg.Valid()
    modifies agg
    ensures agg.Valid() && agg.uuidAliases == old(agg.uuidAliases)
    ensures agg.jobs == if chunks == [] then old(agg.jobs)
                        else old(agg.jobs)[id := Feed(Lookup(old(agg.jobs), id), chunks, agg.onDisk)]
    ensures lastOffset == if chunks == [] then 0 else agg.jobs[id].lastOffset
  {
    lastOffset := 0;
    ghost var before, log := agg.jobs, Lookup(agg.jobs, id);
    assert chunks[..0] == [];
    for k := 0 to |chunks|
      invariant agg.Valid() && agg.uuidAliases == old(agg.uuidAliases)
      invariant agg.jobs == if k == 0 then before else before[id := Feed(log, chunks[..k], agg.onDisk)]
      invariant lastOffset == if k == 0 then 0 else agg.jobs[id].lastOffset
    {
      assert chunks[..k + 1][..k] == chunks[..k];
      lastOffset := agg.AppendChunk(id, chunks[k]);
    }
    assert chunks[..|chunks|] == chunks;
  }

  // End to end, with a log file on the controller: whatever the job logged before, however the
  // two readers interleave and the lines are batched, the controller acknowledges the length of
  // the worker's local log and buffers an end of what was sent, all the bound allows if the
  // last batch fits the bound. What was sent has the lines of the local log, those of each
  // stream in their order, and neither it nor the buffer holds a secret without a newline.
  method ShipLog(agg: Aggregator, id: JobId, ghost readers: seq<Readers>, ghost actions: seq<Action>,
                 events: seq<Event>, secrets: seq<seq<Byte>>, batchSizeLimit: nat)
    returns (acked: nat, chunks: seq<Chunk>)
    requires agg.Valid() && agg.onDisk && Masking.AllMaskable(secrets)
    requires IsReading(readers, actions, secrets) && readers[|actions|].held == map[]
    requires LinesOf(events) == Texts(readers[|actions|].channel)
    modifies agg
    ensures acked == |Joined(Texts(readers[|actions|].file))|
    ensures Hides(Joined(Texts(readers[|actions|].channel)), secrets)
    ensures var done := readers[|actions|];
            var sent := Joined(Texts(done.channel)); var kept := Min(|sent|, MAX_BUFFERED);
            && multiset(Texts(done.channel)) == multiset(Texts(done.file))
            && OfSource(done.channel, Stdout) == OfSource(done.file, Stdout)
            && OfSource(done.channel, Stderr) == OfSource(done.file, Stderr)
            && (done.file != [] ==>
                  && chunks != [] && id in agg.jobs
                  && IsSuffix(agg.jobs[id].logData, sent) && Hides(agg.jobs[id].logData, secrets)
                  && (agg.jobs[id].logData == sent[|sent| - kept..] <==> |chunks[|chunks| - 1].data| <= MAX_BUFFERED))
  {
    ghost var raw := RawLines(actions);
    FileIsForwarded(readers, actions, secrets);
    SentIsWritten(readers, actions, secrets);
    ShippedLinesAreLocal(raw, events, secrets);
    var offset;
    chunks, offset := Stream(events, secrets, batchSizeLimit);
    assert Concat(chunks) == Joined(LinesOf(events));
    SentSomething(readers[|actions|], chunks);
    if chunks != [] {
      assert Consistent(Lookup(agg.jobs, id));
      FeedStream(Lookup(agg.jobs, id), chunks);
    }
    acked := StreamLogs(agg, id, chunks);
    ShippedHides(raw, LinesOf(events), secrets);
    if chunks != [] { EndHides(agg.jobs[id].logData, Concat(chunks), secrets); }
  }

  lemma SentSomething(done: Readers, chunks: seq<Chunk>)
    requires multiset(Texts(done.channel)) == multiset(Texts(done.file))
    requires Concat(chunks) == Joined(Texts(done.channel))
    ensures done.file != [] ==> chunks != []
  {
    assert |Texts(done.channel)| == |multiset(Texts(done.channel))|;
    assert |Texts(done.file)| == |multiset(Texts(done.file))|;
  }
}
