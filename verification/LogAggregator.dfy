/**
  The controller's log aggregator: deduplicates chunks by offset, keeps a bounded buffer per
  job and broadcasts accepted chunks to live subscribers.

  A broadcast channel is the list of chunks sent on it so far; a fresh run of a job opens a
  new channel. Offsets and byte counts are unbounded. The log file on disk is not modelled,
  only whether there is one, because that decides what happens when the buffer is full.
 */
module LogAggregator {
  import opened Bytes
  import opened Common
  import opened LogChunks

  const MAX_BUFFERED: nat := 50 * 1024 * 1024

  type JobId = string

  datatype JobLog = JobLog(lastOffset: nat, totalBytes: nat, logData: seq<Byte>, channel: nat, sent: seq<Chunk>)

  const EMPTY_LOG: JobLog := JobLog(0, 0, [], 0, [])

  // ---------- One chunk ----------

  function BufferAfter(buffer: seq<Byte>, data: seq<Byte>, onDisk: bool): seq<Byte> {
    if |buffer| + |data| <= MAX_BUFFERED then buffer + data
    else if onDisk then buffer[Min(|buffer| + |data| - MAX_BUFFERED, |buffer|)..] + data
    else buffer
  }

  function Append(log: JobLog, c: Chunk, onDisk: bool): JobLog {
    var log := if c.offset == 0 && log.lastOffset > 0 then JobLog(0, 0, [], log.channel + 1, []) else log;
    if c.offset < log.lastOffset then log
    else JobLog(c.offset + |c.data|, log.totalBytes + |c.data|, BufferAfter(log.logData, c.data, onDisk),
                log.channel, log.sent + [c])
  }

  // Holds of every log the aggregator ever keeps.
  predicate Consistent(log: JobLog) {
    log.lastOffset == 0 ==> log.logData == [] && log.totalBytes == 0
  }

  lemma AppendConsistent(log: JobLog, c: Chunk, onDisk: bool)
    requires Consistent(log)
    ensures Consistent(Append(log, c, onDisk))
  {
  }

  function Lookup(jobs: map<JobId, JobLog>, id: JobId): JobLog {
    if id in jobs then jobs[id] else EMPTY_LOG
  }

  // ---------- What a subscriber is handed ----------

  datatype Receiver = Receiver(channel: nat, position: nat)

  // The buffer from index `from` on; an index past the end means the end.
  function BufferedFrom(log: JobLog, from: nat): seq<Chunk> {
    if from < |log.logData| then [Chunk(from, log.logData[from..])] else []
  }

  // The chunks a receiver that does not lag has seen by now.
  function Received(log: JobLog, r: Receiver): seq<Chunk> {
    if log.channel == r.channel && r.position <= |log.sent| then log.sent[r.position..] else []
  }

  // ---------- The aggregator ----------

  class Aggregator {
    var jobs: map<JobId, JobLog>
    var uuidAliases: map<JobId, JobId>
    const onDisk: bool

    ghost predicate Valid()
      reads this
    {
      forall id :: id in jobs ==> Consistent(jobs[id])
    }

    constructor (onDisk: bool)
      ensures Valid() && jobs == map[] && uuidAliases == map[] && this.onDisk == onDisk
    {
      jobs, uuidAliases := map[], map[];
      this.onDisk := onDisk;
    }

    method RegisterAlias(uuid: JobId, id: JobId)
      requires Valid()
      modifies this
      ensures Valid() && jobs == old(jobs)
      ensures uuidAliases == old(uuidAliases)[uuid := id]
    {
      uuidAliases := uuidAliases[uuid := id];
    }

    function ResolveJobId(id: JobId): JobId
      reads this
    {
      if id in uuidAliases then uuidAliases[id] else id
    }

    // Chunks name their job directly: aliases are not resolved here.
    method AppendChunk(id: JobId, c: Chunk) returns (lastOffset: nat)
      requires Valid()
      modifies this
      ensures Valid() && uuidAliases == old(uuidAliases)
      ensures jobs == old(jobs)[id := Append(Lookup(old(jobs), id), c, onDisk)]
      ensures lastOffset == jobs[id].lastOffset
    {
      AppendConsistent(Lookup(jobs, id), c, onDisk);
      if id !in jobs { jobs := jobs[id := EMPTY_LOG]; }
      var log := jobs[id];
      if c.offset == 0 && log.lastOffset > 0 {
        log := log.(lastOffset := 0, totalBytes := 0, logData := [], channel := log.channel + 1, sent := []);
      }
      if c.offset < log.lastOffset {
        jobs := jobs[id := log];
        return log.lastOffset;
      }
      log := log.(lastOffset := c.offset + |c.data|, totalBytes := log.totalBytes + |c.data|);
      if |log.logData| + |c.data| > MAX_BUFFERED {
        if onDisk {
          var overflow := |log.logData| + |c.data| - MAX_BUFFERED;
          var drain := Min(overflow, |log.logData|);
          log := log.(logData := log.logData[drain..]);
        } else {
          log := log.(sent := log.sent + [c]);
          jobs := jobs[id := log];
          return log.lastOffset;
        }
      }
      log := log.(logData := log.logData + c.data, sent := log.sent + [c]);
      jobs := jobs[id := log];
      return log.lastOffset;
    }

    method LastOffset(id: JobId) returns (offset: nat)
      requires Valid()
      ensures offset == Lookup(jobs, ResolveJobId(id)).lastOffset
    {
      var job := ResolveJobId(id);
      if job in jobs { offset := jobs[job].lastOffset; } else { offset := 0; }
    }

    method Subscribe(id: JobId, from: nat) returns (buffered: seq<Chunk>, r: Receiver)
      requires Valid()
      modifies this
      ensures Valid() && uuidAliases == old(uuidAliases)
      ensures var job := ResolveJobId(id); var log := Lookup(old(jobs), job);
              && jobs == old(jobs)[job := log]
              && buffered == BufferedFrom(log, from)
              && r == Receiver(log.channel, |log.sent|)
    {
      var job := ResolveJobId(id);
      if job in jobs {
        var log := jobs[job];
        var actual := if from > |log.logData| then |log.logData| else from;
        if actual == 0 {
          if log.logData != [] {
            buffered := [Chunk(0, log.logData)];
            assert log.logData[0..] == log.logData;
          } else {
            buffered := [];
          }
        } else if actual < |log.logData| {
          buffered := [Chunk(actual, log.logData[actual..])];
        } else {
          buffered := [];
        }
        r := Receiver(log.channel, |log.sent|);
        assert jobs[job := log] == jobs;
      } else {
        jobs := jobs[job := EMPTY_LOG];
        buffered, r := [], Receiver(0, 0);
      }
    }
  }

  // ---------- A whole stream ----------

  ghost function Feed(log: JobLog, chunks: seq<Chunk>, onDisk: bool): JobLog {
    if chunks == [] then log
    else Append(Feed(log, chunks[..|chunks| - 1], onDisk), chunks[|chunks| - 1], onDisk)
  }

  ghost predicate IsSuffix(t: seq<Byte>, s: seq<Byte>) {
    |t| <= |s| && s[|s| - |t|..] == t
  }

  // The log after the stream `s`: its offset is the length of `s`, its buffer an end of `s`
  // that holds at least what the bound allows.
  ghost predicate Holds(log: JobLog, s: seq<Byte>) {
    && log.lastOffset == log.totalBytes == |s|
    && IsSuffix(log.logData, s)
    && Min(|s|, MAX_BUFFERED) <= |log.logData|
  }

  lemma SuffixDrop(t: seq<Byte>, s: seq<Byte>, n: nat, d: seq<Byte>)
    requires IsSuffix(t, s) && n <= |t|
    ensures IsSuffix(t[n..] + d, s + d)
  {
    assert (s + d)[|s| - |t| + n..] == s[|s| - |t|..][n..] + d;
  }

  lemma BufferSuffix(buffer: seq<Byte>, s: seq<Byte>, d: seq<Byte>)
    requires IsSuffix(buffer, s)
    ensures IsSuffix(BufferAfter(buffer, d, true), s + d)
  {
    if |buffer| + |d| <= MAX_BUFFERED {
      SuffixDrop(buffer, s, 0, d);
      assert buffer[0..] == buffer;
    } else {
      SuffixDrop(buffer, s, Min(|buffer| + |d| - MAX_BUFFERED, |buffer|), d);
    }
  }

  lemma BufferLength(buffer: seq<Byte>, length: nat, d: seq<Byte>)
    requires Min(length, MAX_BUFFERED) <= |buffer| <= length
    ensures |BufferAfter(buffer, d, true)| ==
            if |d| <= MAX_BUFFERED then Min(length + |d|, MAX_BUFFERED) else |d|
  {
  }

  // Appending the next chunk of the stream.
  lemma HoldsStep(log: JobLog, s: seq<Byte>, c: Chunk)
    requires Holds(log, s) && c.offset == |s|
    ensures Holds(Append(log, c, true), s + c.data)
    ensures |Append(log, c, true).logData| ==
            if |c.data| <= MAX_BUFFERED then Min(|s + c.data|, MAX_BUFFERED) else |c.data|
  {
    BufferSuffix(log.logData, s, c.data);
    BufferLength(log.logData, |s|, c.data);
  }

  // The first chunk of a stream starts from scratch, whatever the job had before.
  lemma FirstChunk(log: JobLog, c: Chunk)
    requires Consistent(log) && c.offset == 0
    ensures Holds(Append(log, c, true), c.data)
    ensures |Append(log, c, true).logData| ==
            if |c.data| <= MAX_BUFFERED then Min(|c.data|, MAX_BUFFERED) else |c.data|
  {
    HoldsStep(EMPTY_LOG, [], c);
    assert [] + c.data == c.data;
  }

  lemma {:induction false} FeedHolds(log: JobLog, chunks: seq<Chunk>)
    requires Consistent(log) && chunks != [] && Tiles(chunks, 0)
    ensures var after := Feed(log, chunks, true); var last := chunks[|chunks| - 1].data;
            && Holds(after, Concat(chunks))
            && |after.logData| == if |last| <= MAX_BUFFERED then Min(|Concat(chunks)|, MAX_BUFFERED) else |last|
    decreases |chunks|
  {
    var init, c := chunks[..|chunks| - 1], chunks[|chunks| - 1];
    if init == [] {
      FirstChunk(log, c);
      assert [] + c.data == c.data;
    } else {
      TilesInit(chunks);
      FeedHolds(log, init);
      HoldsStep(Feed(log, init, true), Concat(init), c);
    }
  }

  lemma TilesInit(chunks: seq<Chunk>)
    requires chunks != [] && Tiles(chunks, 0)
    ensures Tiles(chunks[..|chunks| - 1], 0)
    ensures chunks[|chunks| - 1].offset == |Concat(chunks[..|chunks| - 1])|
  {
    var init := chunks[..|chunks| - 1];
    forall k | 0 <= k < |init|
      ensures init[k].offset == |Concat(init[..k])|
    {
      assert init[..k] == chunks[..k];
    }
  }

  // A stream of chunks that tile from offset 0, fed to a job in any state it can be in, leaves
  // the stream's length as the last offset; with a log file, the buffer ends up as the last
  // bytes of the stream, exactly as many as the bound allows if and only if the final chunk
  // fits the bound. The sizes of the other chunks do not matter.
  lemma FeedStream(log: JobLog, chunks: seq<Chunk>)
    requires Consistent(log) && chunks != [] && Tiles(chunks, 0)
    ensures var after := Feed(log, chunks, true); var stream := Concat(chunks);
            var kept := Min(|stream|, MAX_BUFFERED);
            && after.lastOffset == |stream|
            && IsSuffix(after.logData, stream)
            && (after.logData == stream[|stream| - kept..] <==> |chunks[|chunks| - 1].data| <= MAX_BUFFERED)
  {
    FeedHolds(log, chunks);
    var last := |chunks| - 1;
    assert |Concat(chunks)| >= |chunks[last].data|;
  }

  // ---------- Redelivery ----------

  // What deduplication and the buffer depend on.
  datatype Core = Core(lastOffset: nat, totalBytes: nat, logData: seq<Byte>)

  function CoreOf(log: JobLog): Core {
    Core(log.lastOffset, log.totalBytes, log.logData)
  }

  lemma SameCoreSameAppend(a: JobLog, b: JobLog, c: Chunk, onDisk: bool)
    requires CoreOf(a) == CoreOf(b)
    ensures CoreOf(Append(a, c, onDisk)) == CoreOf(Append(b, c, onDisk))
  {
  }

  // Exactly-once delivery of the first `n` chunks.
  ghost function Once(chunks: seq<Chunk>, n: nat, onDisk: bool): JobLog
    requires n <= |chunks|
  {
    Feed(EMPTY_LOG, chunks[..n], onDisk)
  }

  // Deliveries name chunks by index. A sender delivers chunks in order but may go back to any
  // chunk it has delivered; going back to chunk 0 starts the run over. `Progress` is how many
  // chunks of the current run the receiver then has.
  ghost function Progress(n: nat, deliveries: seq<nat>): nat {
    if deliveries == [] then n
    else
      var m, d := Progress(n, deliveries[..|deliveries| - 1]), deliveries[|deliveries| - 1];
      if d == 0 then 1 else if d < m then m else m + 1
  }

  ghost predicate InOrder(chunks: seq<Chunk>, n: nat, deliveries: seq<nat>) {
    forall k :: 0 <= k < |deliveries| ==> deliveries[k] < |chunks| && deliveries[k] <= Progress(n, deliveries[..k])
  }

  ghost function Deliver(log: JobLog, chunks: seq<Chunk>, deliveries: seq<nat>, onDisk: bool): JobLog
    requires forall k :: 0 <= k < |deliveries| ==> deliveries[k] < |chunks|
  {
    if deliveries == [] then log
    else
      var init, d := deliveries[..|deliveries| - 1], deliveries[|deliveries| - 1];
      Append(Deliver(log, chunks, init, onDisk), chunks[d], onDisk)
  }

  lemma InOrderInit(chunks: seq<Chunk>, n: nat, deliveries: seq<nat>)
    requires InOrder(chunks, n, deliveries) && deliveries != []
    ensures InOrder(chunks, n, deliveries[..|deliveries| - 1])
  {
    var init := deliveries[..|deliveries| - 1];
    assert forall k :: 0 <= k < |init| ==> init[..k] == deliveries[..k];
  }

  lemma {:induction false} ProgressBounded(chunks: seq<Chunk>, n: nat, deliveries: seq<nat>)
    requires InOrder(chunks, n, deliveries) && n <= |chunks|
    ensures Progress(n, deliveries) <= |chunks|
    decreases |deliveries|
  {
    if deliveries != [] {
      InOrderInit(chunks, n, deliveries);
      ProgressBounded(chunks, n, deliveries[..|deliveries| - 1]);
    }
  }

  lemma {:induction false} OnceOffset(chunks: seq<Chunk>, n: nat, onDisk: bool)
    requires Tiles(chunks, 0) && n <= |chunks|
    ensures Once(chunks, n, onDisk).lastOffset == |Concat(chunks[..n])|
    ensures Consistent(Once(chunks, n, onDisk))
    decreases n
  {
    if n > 0 {
      OnceOffset(chunks, n - 1, onDisk);
      OnceStep(chunks, n - 1, onDisk);
      ConcatTake(chunks, n - 1);
      AppendConsistent(Once(chunks, n - 1, onDisk), chunks[n - 1], onDisk);
    } else {
      assert chunks[..0] == [];
    }
  }

  lemma OnceStep(chunks: seq<Chunk>, n: nat, onDisk: bool)
    requires n < |chunks|
    ensures Once(chunks, n + 1, onDisk) == Append(Once(chunks, n, onDisk), chunks[n], onDisk)
  {
    assert chunks[..n + 1][..n] == chunks[..n];
  }

  // One more delivery, from a log with the core of exactly-once delivery.
  lemma DeliverStep(log: JobLog, chunks: seq<Chunk>, n: nat, d: nat, onDisk: bool)
    requires Tiles(chunks, 0) && NonEmpty(chunks) && n <= |chunks| && d < |chunks| && d <= n
    requires CoreOf(log) == CoreOf(Once(chunks, n, onDisk))
    ensures var m := if d == 0 then 1 else if d < n then n else n + 1;
            CoreOf(Append(log, chunks[d], onDisk)) == CoreOf(Once(chunks, m, onDisk))
  {
    OnceOffset(chunks, n, onDisk);
    if d == 0 {
      assert chunks[..0] == [];
      Restart(log, chunks, onDisk);
    } else if d < n {
      OffsetsGrow(chunks, 0, d);
      OffsetsGrow(chunks, d, n);
    } else {
      SameCoreSameAppend(log, Once(chunks, n, onDisk), chunks[d], onDisk);
      OnceStep(chunks, n, onDisk);
    }
  }

  // Chunk 0 resets the job: the result does not depend on what was there.
  lemma Restart(log: JobLog, chunks: seq<Chunk>, onDisk: bool)
    requires Consistent(log) && chunks != [] && chunks[0].offset == 0
    ensures CoreOf(Append(log, chunks[0], onDisk)) == CoreOf(Once(chunks, 1, onDisk))
  {
    OnceStep(chunks, 0, onDisk);
    assert chunks[..0] == [];
  }

  // At-least-once delivery: after any in-order run of deliveries with any number of replays,
  // the buffer and the offset are those of delivering each chunk of the run exactly once.
  lemma {:induction false} RedeliveryConverges(log: JobLog, chunks: seq<Chunk>, n: nat, deliveries: seq<nat>,
                                               onDisk: bool)
    requires Tiles(chunks, 0) && NonEmpty(chunks) && n <= |chunks|
    requires InOrder(chunks, n, deliveries)
    requires CoreOf(log) == CoreOf(Once(chunks, n, onDisk))
    ensures Progress(n, deliveries) <= |chunks|
    ensures CoreOf(Deliver(log, chunks, deliveries, onDisk)) == CoreOf(Once(chunks, Progress(n, deliveries), onDisk))
    decreases |deliveries|
  {
    ProgressBounded(chunks, n, deliveries);
    if deliveries != [] {
      var init, d := deliveries[..|deliveries| - 1], deliveries[|deliveries| - 1];
      InOrderInit(chunks, n, deliveries);
      RedeliveryConverges(log, chunks, n, init, onDisk);
      DeliverStep(Deliver(log, chunks, init, onDisk), chunks, Progress(n, init), d, onDisk);
    }
  }

  // Replaying delivered chunks other than chunk 0, in any order, changes nothing.
  lemma {:induction false} ReplayIsIgnored(n: nat, deliveries: seq<nat>)
    requires forall k :: 0 <= k < |deliveries| ==> 0 < deliveries[k] < n
    ensures Progress(n, deliveries) == n
    decreases |deliveries|
  {
    if deliveries != [] { ReplayIsIgnored(n, deliveries[..|deliveries| - 1]); }
  }

  ghost function Upto(n: nat): seq<nat> {
    seq(n, k => k)
  }

  // A full replay from chunk 0 ends where the run was.
  lemma {:induction false} FullReplay(chunks: seq<Chunk>, n: nat, m: nat)
    requires 0 < m <= n <= |chunks|
    ensures InOrder(chunks, n, Upto(m))
    ensures Progress(n, Upto(m)) == m
    decreases m
  {
    var init := Upto(m - 1);
    assert Upto(m) == init + [m - 1] && Upto(m)[..m - 1] == init;
    if m > 1 { FullReplay(chunks, n, m - 1); }
    forall k | 0 <= k < m
      ensures Upto(m)[k] < |chunks| && Upto(m)[k] <= Progress(n, Upto(m)[..k])
    {
      if k < m - 1 { assert Upto(m)[..k] == init[..k] && Upto(m)[k] == init[k]; }
    }
  }

  // ---------- Handing over from buffer to live ----------

  // Chunk 0 is delivered only to start the run, never to start it over.
  ghost predicate NoReset(n: nat, deliveries: seq<nat>) {
    forall k :: 0 <= k < |deliveries| && deliveries[k] == 0 ==> Progress(n, deliveries[..k]) == 0
  }

  lemma NoResetInit(n: nat, deliveries: seq<nat>)
    requires NoReset(n, deliveries) && deliveries != []
    ensures NoReset(n, deliveries[..|deliveries| - 1])
  {
    var init := deliveries[..|deliveries| - 1];
    assert forall k :: 0 <= k < |init| ==> init[..k] == deliveries[..k];
  }

  lemma BroadcastStep(log: JobLog, chunks: seq<Chunk>, n: nat, d: nat, onDisk: bool)
    requires Tiles(chunks, 0) && NonEmpty(chunks) && n <= |chunks| && d < |chunks| && d <= n
    requires d == 0 ==> n == 0
    requires CoreOf(log) == CoreOf(Once(chunks, n, onDisk))
    ensures var after := Append(log, chunks[d], onDisk);
            && after.channel == log.channel
            && after.sent == if d < n then log.sent else log.sent + [chunks[d]]
  {
    OnceOffset(chunks, n, onDisk);
    if 0 < d { OffsetsGrow(chunks, 0, d); }
    if d < n { OffsetsGrow(chunks, d, n); }
  }

  lemma BroadcastMore(log: JobLog, sent: seq<Chunk>, chunks: seq<Chunk>, n: nat, m: nat, d: nat, onDisk: bool)
    requires Tiles(chunks, 0) && NonEmpty(chunks) && n <= m <= |chunks| && d < |chunks| && d <= m
    requires d == 0 ==> m == 0
    requires CoreOf(log) == CoreOf(Once(chunks, m, onDisk)) && log.sent == sent + chunks[n..m]
    ensures Append(log, chunks[d], onDisk).sent == sent + chunks[n..if d < m then m else m + 1]
    ensures Append(log, chunks[d], onDisk).channel == log.channel
  {
    BroadcastStep(log, chunks, m, d, onDisk);
    if d == m {
      assert chunks[n..m + 1] == chunks[n..m] + [chunks[m]];
      Associative(sent, chunks[n..m], [chunks[m]]);
    }
  }

  // Every chunk new to the run is broadcast once, in order, and nothing else is.
  lemma {:induction false} Broadcasts(log: JobLog, chunks: seq<Chunk>, n: nat, deliveries: seq<nat>, onDisk: bool)
    requires Tiles(chunks, 0) && NonEmpty(chunks) && n <= |chunks|
    requires InOrder(chunks, n, deliveries) && NoReset(n, deliveries)
    requires CoreOf(log) == CoreOf(Once(chunks, n, onDisk))
    ensures n <= Progress(n, deliveries) <= |chunks|
    ensures var after := Deliver(log, chunks, deliveries, onDisk);
            after.channel == log.channel && after.sent == log.sent + chunks[n..Progress(n, deliveries)]
    decreases |deliveries|
  {
    if deliveries == [] {
      assert chunks[n..n] == [];
    } else {
      var init, d := deliveries[..|deliveries| - 1], deliveries[|deliveries| - 1];
      InOrderInit(chunks, n, deliveries);
      NoResetInit(n, deliveries);
      Broadcasts(log, chunks, n, init, onDisk);
      RedeliveryConverges(log, chunks, n, init, onDisk);
      BroadcastMore(Deliver(log, chunks, init, onDisk), log.sent, chunks, n, Progress(n, init), d, onDisk);
    }
  }

  // The bytes a subscriber gets: those handed over at once, then those broadcast later.
  ghost function Delivered(log: JobLog, after: JobLog, from: nat): seq<Byte> {
    Concat(BufferedFrom(log, from)) + Concat(Received(after, Receiver(log.channel, |log.sent|)))
  }

  lemma BufferedBytes(log: JobLog, from: nat)
    ensures Concat(BufferedFrom(log, from)) == log.logData[Min(from, |log.logData|)..]
  {
    if from < |log.logData| {
      var c := Chunk(from, log.logData[from..]);
      assert [c][..0] == [];
      assert Concat([c]) == c.data;
    }
  }

  // With `sofar` bytes streamed and `buffered` of them in the buffer, `got` is the stream from
  // the offset asked for if and only if that offset is where the stream stood, or is before it
  // and nothing was dropped.
  ghost predicate ServedAsAsked(got: seq<Byte>, stream: seq<Byte>, sofar: nat, from: nat, buffered: nat) {
    && buffered <= sofar <= |stream|
    && (from <= |stream| ==> (got == stream[from..] <==> from == sofar || (buffered == sofar && from <= sofar)))
  }

  // What a buffer is to the stream so far, with a log file or without: no longer, and the whole
  // stream if it is as long.
  ghost predicate Abridges(buffer: seq<Byte>, s: seq<Byte>) {
    |buffer| <= |s| && (|buffer| == |s| ==> buffer == s)
  }

  lemma AbridgesStep(buffer: seq<Byte>, s: seq<Byte>, d: seq<Byte>, onDisk: bool)
    requires Abridges(buffer, s)
    ensures Abridges(BufferAfter(buffer, d, onDisk), s + d)
  {
    if |buffer| + |d| > MAX_BUFFERED && onDisk {
      var drain := Min(|buffer| + |d| - MAX_BUFFERED, |buffer|);
      assert drain == 0 ==> buffer == [] && buffer[drain..] + d == d;
      assert s == [] ==> s + d == d;
    }
  }

  lemma {:induction false} OnceAbridges(chunks: seq<Chunk>, n: nat, onDisk: bool)
    requires Tiles(chunks, 0) && NonEmpty(chunks) && n <= |chunks|
    ensures Abridges(Once(chunks, n, onDisk).logData, Concat(chunks[..n]))
    decreases n
  {
    if n == 0 {
      assert chunks[..0] == [];
    } else {
      OnceAbridges(chunks, n - 1, onDisk);
      OnceOffset(chunks, n - 1, onDisk);
      OnceStep(chunks, n - 1, onDisk);
      ConcatTake(chunks, n - 1);
      if n > 1 { OffsetsGrow(chunks, 0, n - 1); } else { assert chunks[..0] == []; }
      AbridgesStep(Once(chunks, n - 1, onDisk).logData, Concat(chunks[..n - 1]), chunks[n - 1].data, onDisk);
    }
  }

  // What a subscriber got, who joined when `sofar` had been streamed and `buffer` was there.
  ghost predicate HandedOver(got: seq<Byte>, stream: seq<Byte>, sofar: seq<Byte>, buffer: seq<Byte>, from: nat) {
    && ServedAsAsked(got, stream, |sofar|, from, |buffer|)
    && (IsSuffix(buffer, sofar) ==> got == stream[|sofar| - |buffer| + Min(from, |buffer|)..])
  }

  lemma HandOverBytes(s: seq<Byte>, buffer: seq<Byte>, more: seq<Byte>, from: nat, got: seq<Byte>, stream: seq<Byte>)
    requires Abridges(buffer, s)
    requires got == buffer[Min(from, |buffer|)..] + more && stream == s + more
    ensures HandedOver(got, stream, s, buffer, from)
  {
    var i, dropped := Min(from, |buffer|), |s| - |buffer|;
    if IsSuffix(buffer, s) { assert (s + more)[dropped + i..] == s[dropped..][i..] + more; }
    if from <= |stream| {
      assert |stream[from..]| == |stream| - from;
      if from == |s| {
        assert stream[from..] == more;
      } else if buffer == s && from < |s| {
        assert stream[from..] == s[from..] + more;
      }
    }
  }

  // A subscriber joins at any time of a run and then deliveries go on without a reset. Exactly
  // for the offsets of `ServedAsAsked` the data handed over and the broadcasts that follow are
  // the stream from the offset asked for, without gap or repetition. As long as the buffer is
  // an end of the stream, they are in any case the stream from one point on: the offset,
  // clamped to the buffer's length, plus the bytes the buffer has dropped.
  lemma HandOver(log: JobLog, chunks: seq<Chunk>, n: nat, deliveries: seq<nat>, onDisk: bool, from: nat)
    requires Tiles(chunks, 0) && NonEmpty(chunks) && n <= |chunks|
    requires InOrder(chunks, n, deliveries) && NoReset(n, deliveries)
    requires CoreOf(log) == CoreOf(Once(chunks, n, onDisk))
    ensures n <= Progress(n, deliveries) <= |chunks|
    ensures HandedOver(Delivered(log, Deliver(log, chunks, deliveries, onDisk), from),
                       Concat(chunks[..Progress(n, deliveries)]), Concat(chunks[..n]), log.logData, from)
  {
    Broadcasts(log, chunks, n, deliveries, onDisk);
    OnceAbridges(chunks, n, onDisk);
    HandOverUpTo(log, Deliver(log, chunks, deliveries, onDisk), chunks, n, Progress(n, deliveries), from);
  }

  lemma HandOverUpTo(log: JobLog, after: JobLog, chunks: seq<Chunk>, n: nat, m: nat, from: nat)
    requires n <= m <= |chunks| && Abridges(log.logData, Concat(chunks[..n]))
    requires after.channel == log.channel && after.sent == log.sent + chunks[n..m]
    ensures HandedOver(Delivered(log, after, from), Concat(chunks[..m]), Concat(chunks[..n]), log.logData, from)
  {
    var more := chunks[n..m];
    DeliveredBytes(log, after, more, from);
    ConcatSplit(chunks, n, m);
    HandOverBytes(Concat(chunks[..n]), log.logData, Concat(more), from,
                  Delivered(log, after, from), Concat(chunks[..m]));
  }

  lemma DeliveredBytes(log: JobLog, after: JobLog, more: seq<Chunk>, from: nat)
    requires after.channel == log.channel && after.sent == log.sent + more
    ensures Delivered(log, after, from) == log.logData[Min(from, |log.logData|)..] + Concat(more)
  {
    BufferedBytes(log, from);
    assert after.sent[|log.sent|..] == more;
  }

  lemma ConcatSplit(chunks: seq<Chunk>, n: nat, m: nat)
    requires n <= m <= |chunks|
    ensures Concat(chunks[..m]) == Concat(chunks[..n]) + Concat(chunks[n..m])
  {
    assert chunks[..m] == chunks[..n] + chunks[n..m];
    ConcatAppend(chunks[..n], chunks[n..m]);
  }

  // With a log file the buffer always holds an end of the stream, all of it as long as it fits
  // the bound.
  lemma BufferedOnDisk(chunks: seq<Chunk>, n: nat)
    requires Tiles(chunks, 0) && n <= |chunks|
    ensures IsSuffix(Once(chunks, n, true).logData, Concat(chunks[..n]))
    ensures |Concat(chunks[..n])| <= MAX_BUFFERED ==> Once(chunks, n, true).logData == Concat(chunks[..n])
  {
    if n == 0 {
      assert chunks[..0] == [];
    } else {
      TilesTake(chunks, n);
      FeedHolds(EMPTY_LOG, chunks[..n]);
    }
  }

  // Without one, a chunk is buffered whole if it fits the bound behind what is there and left out
  // otherwise; what was buffered once stays.
  lemma BufferedInMemory(chunks: seq<Chunk>, n: nat)
    requires Tiles(chunks, 0) && NonEmpty(chunks) && n < |chunks|
    ensures var before, after := Once(chunks, n, false).logData, Once(chunks, n + 1, false).logData;
            && |after| <= MAX_BUFFERED && before <= after
            && (after == before + chunks[n].data <==> |before| + |chunks[n].data| <= MAX_BUFFERED)
            && (after == before <==> |before| + |chunks[n].data| > MAX_BUFFERED)
  {
    InMemoryBound(chunks, n);
    InMemoryStep(chunks, n);
  }

  lemma InMemoryStep(chunks: seq<Chunk>, n: nat)
    requires Tiles(chunks, 0) && NonEmpty(chunks) && n < |chunks|
    ensures Once(chunks, n + 1, false).logData == BufferAfter(Once(chunks, n, false).logData, chunks[n].data, false)
  {
    OnceOffset(chunks, n, false);
    OnceStep(chunks, n, false);
    if n > 0 { OffsetsGrow(chunks, 0, n); } else { assert chunks[..0] == []; }
  }

  lemma {:induction false} InMemoryBound(chunks: seq<Chunk>, n: nat)
    requires Tiles(chunks, 0) && NonEmpty(chunks) && n <= |chunks|
    ensures |Once(chunks, n, false).logData| <= MAX_BUFFERED
    decreases n
  {
    if n > 0 {
      InMemoryBound(chunks, n - 1);
      InMemoryStep(chunks, n - 1);
    } else {
      assert chunks[..0] == [];
    }
  }

  lemma TilesTake(chunks: seq<Chunk>, n: nat)
    requires Tiles(chunks, 0) && n <= |chunks|
    ensures Tiles(chunks[..n], 0)
  {
    forall k | 0 <= k < n
      ensures chunks[..n][k].offset == |Concat(chunks[..n][..k])|
    {
      assert chunks[..n][..k] == chunks[..k];
    }
  }
}
