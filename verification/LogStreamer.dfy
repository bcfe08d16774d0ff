/**
  The worker's log streamer: masks lines, batches them by size or on a timer, and ships the
  batches as chunks with running byte offsets.

  The select loop is driven by a list of events in the order they win the race; the end of
  the list is the closing of the line channel. The chunk channel stays open.
 */
module LogStreamer {
  import opened Bytes
  import opened Common
  import opened LogChunks
  import Masking

  datatype Event = Line(text: seq<Byte>) | Tick

  // The lines received, in order.
  ghost function LinesOf(events: seq<Event>): seq<seq<Byte>> {
    if events == [] then []
    else
      var before, last := LinesOf(events[..|events| - 1]), events[|events| - 1];
      if last.Line? then before + [last.text] else before
  }

  // Every line masked and ended with a newline.
  ghost function LogText(lines: seq<seq<Byte>>, secrets: seq<seq<Byte>>): seq<Byte> {
    if lines == [] then []
    else LogText(lines[..|lines| - 1], secrets) + Masking.Mask(lines[|lines| - 1], secrets) + [NEWLINE]
  }

  ghost function Shipped(events: seq<Event>, secrets: seq<seq<Byte>>): seq<Byte> {
    LogText(LinesOf(events), secrets)
  }

  lemma ShippedTake(events: seq<Event>, secrets: seq<seq<Byte>>, k: nat)
    requires k < |events|
    ensures Shipped(events[..k + 1], secrets) ==
            match events[k]
            case Line(text) => Shipped(events[..k], secrets) + Masking.Mask(text, secrets) + [NEWLINE]
            case Tick => Shipped(events[..k], secrets)
  {
    assert events[..k + 1][..k] == events[..k];
    var before := LinesOf(events[..k]);
    if events[k].Line? {
      assert (before + [events[k].text])[..|before|] == before;
    }
  }

  ghost predicate EndsLine(data: seq<Byte>) {
    data != [] && data[|data| - 1] == NEWLINE
  }

  // What has been sent, and what waits in the buffer.
  ghost predicate Batching(chunks: seq<Chunk>, offset: nat, buffer: seq<Byte>, shipped: seq<Byte>) {
    && Tiles(chunks, 0)
    && offset == |Concat(chunks)|
    && Concat(chunks) + buffer == shipped
    && (forall c :: c in chunks ==> EndsLine(c.data))
    && (buffer != [] ==> EndsLine(buffer))
  }

  lemma Flushed(chunks: seq<Chunk>, offset: nat, buffer: seq<Byte>, shipped: seq<Byte>)
    requires Batching(chunks, offset, buffer, shipped) && buffer != []
    ensures Batching(chunks + [Chunk(offset, buffer)], offset + |buffer|, [], shipped)
  {
    var c := Chunk(offset, buffer);
    TilesSnoc(chunks, 0, c);
    ConcatSnoc(chunks, c);
    assert Concat(chunks + [c]) + [] == shipped;
  }

  lemma Buffered(chunks: seq<Chunk>, offset: nat, buffer: seq<Byte>, shipped: seq<Byte>, line: seq<Byte>)
    requires Batching(chunks, offset, buffer, shipped)
    ensures Batching(chunks, offset, buffer + line + [NEWLINE], shipped + line + [NEWLINE])
  {
    assert Concat(chunks) + (buffer + line + [NEWLINE]) == (Concat(chunks) + buffer) + line + [NEWLINE];
  }

  // ---------- When batches are cut ----------

  function AtLeastOne(n: nat): nat { if n == 0 then 1 else n }

  // Some chunks end at `length` or less than `bound` before it.
  ghost predicate Caught(chunks: seq<Chunk>, length: nat, bound: nat) {
    exists n: nat :: n <= |chunks| && |Concat(chunks[..n])| <= length < |Concat(chunks[..n])| + bound
  }

  // How many bytes may wait after an event: none after a tick, less than the limit after a line.
  function Slack(e: Event, limit: nat): nat {
    if e.Tick? then 1 else AtLeastOne(limit)
  }

  ghost predicate KeepsUp(chunks: seq<Chunk>, events: seq<Event>, secrets: seq<seq<Byte>>, limit: nat, k: nat)
    requires k <= |events|
  {
    forall i :: 0 <= i < k ==> CaughtUp(chunks, events, secrets, limit, i)
  }

  ghost predicate CaughtUp(chunks: seq<Chunk>, events: seq<Event>, secrets: seq<seq<Byte>>, limit: nat, i: nat)
    requires i < |events|
  {
    Caught(chunks, |Shipped(events[..i + 1], secrets)|, Slack(events[i], limit))
  }

  // Bytes up to `end` were there and then a tick or the end of the lines came.
  ghost predicate Prompted(events: seq<Event>, secrets: seq<seq<Byte>>, k: nat, end: nat) {
    exists j: nat :: k < j <= |events| && (j == |events| || events[j].Tick?) && |Shipped(events[..j], secrets)| == end
  }

  // The chunk ends with the line of event `k`, before which less than the limit was waiting; and
  // it is as large as the limit or was prompted.
  ghost predicate CutAfter(c: Chunk, events: seq<Event>, secrets: seq<seq<Byte>>, limit: nat, k: nat) {
    && k < |events| && events[k].Line? && c.offset + |c.data| == |Shipped(events[..k + 1], secrets)|
    && |Shipped(events[..k], secrets)| < c.offset + AtLeastOne(limit)
    && (|c.data| >= limit || Prompted(events, secrets, k, c.offset + |c.data|))
  }

  ghost predicate WellCut(c: Chunk, events: seq<Event>, secrets: seq<seq<Byte>>, limit: nat) {
    exists k: nat :: CutAfter(c, events, secrets, limit, k)
  }

  // What waits is short, and ends with the line of event `last`.
  ghost predicate Waiting(offset: nat, buffer: seq<Byte>, events: seq<Event>, secrets: seq<seq<Byte>>, limit: nat,
                          k: nat, last: nat) {
    && k <= |events| && |buffer| < AtLeastOne(limit)
    && (buffer != [] ==>
          && last < k && events[last].Line? && |Shipped(events[..last + 1], secrets)| == offset + |buffer|
          && |Shipped(events[..last], secrets)| < offset + AtLeastOne(limit))
  }

  lemma CaughtMore(chunks: seq<Chunk>, c: Chunk, length: nat, bound: nat)
    requires Caught(chunks, length, bound)
    ensures Caught(chunks + [c], length, bound)
  {
    var n: nat :| n <= |chunks| && |Concat(chunks[..n])| <= length < |Concat(chunks[..n])| + bound;
    assert (chunks + [c])[..n] == chunks[..n];
  }

  lemma KeepsUpNow(chunks: seq<Chunk>, events: seq<Event>, secrets: seq<seq<Byte>>, limit: nat, k: nat)
    requires k < |events| && KeepsUp(chunks, events, secrets, limit, k)
    requires |Concat(chunks)| <= |Shipped(events[..k + 1], secrets)| < |Concat(chunks)| + Slack(events[k], limit)
    ensures KeepsUp(chunks, events, secrets, limit, k + 1)
  {
    assert chunks[..|chunks|] == chunks;
  }

  lemma KeepsUpMore(chunks: seq<Chunk>, c: Chunk, events: seq<Event>, secrets: seq<seq<Byte>>, limit: nat, k: nat)
    requires k <= |events| && KeepsUp(chunks, events, secrets, limit, k)
    ensures KeepsUp(chunks + [c], events, secrets, limit, k)
  {
    forall i | 0 <= i < k ensures CaughtUp(chunks + [c], events, secrets, limit, i) {
      assert CaughtUp(chunks, events, secrets, limit, i);
      CaughtMore(chunks, c, |Shipped(events[..i + 1], secrets)|, Slack(events[i], limit));
    }
  }

  // A line arrives: it ends what is waiting.
  lemma LineWaits(offset: nat, buffer: seq<Byte>, longer: seq<Byte>, events: seq<Event>, secrets: seq<seq<Byte>>,
                  limit: nat, k: nat, last: nat)
    requires k < |events| && events[k].Line? && Waiting(offset, buffer, events, secrets, limit, k, last)
    requires offset + |buffer| == |Shipped(events[..k], secrets)| && longer != []
    requires offset + |longer| == |Shipped(events[..k + 1], secrets)|
    ensures |longer| >= limit ==> WellCut(Chunk(offset, longer), events, secrets, limit)
    ensures |longer| < limit ==> Waiting(offset, longer, events, secrets, limit, k + 1, k)
  {
    if |longer| >= limit { assert CutAfter(Chunk(offset, longer), events, secrets, limit, k); }
  }

  // A tick or the end comes while something waits.
  lemma PromptCuts(offset: nat, buffer: seq<Byte>, events: seq<Event>, secrets: seq<seq<Byte>>, limit: nat,
                   k: nat, last: nat)
    requires Waiting(offset, buffer, events, secrets, limit, k, last) && buffer != []
    requires (k == |events| || events[k].Tick?) && offset + |buffer| == |Shipped(events[..k], secrets)|
    ensures WellCut(Chunk(offset, buffer), events, secrets, limit)
  {
    assert Prompted(events, secrets, last, offset + |buffer|);
    assert CutAfter(Chunk(offset, buffer), events, secrets, limit, last);
  }

  // Where the loop stands.
  ghost predicate Paced(chunks: seq<Chunk>, offset: nat, buffer: seq<Byte>, events: seq<Event>,
                        secrets: seq<seq<Byte>>, limit: nat, k: nat, last: nat) {
    && Waiting(offset, buffer, events, secrets, limit, k, last)
    && KeepsUp(chunks, events, secrets, limit, k)
    && forall c :: c in chunks ==> WellCut(c, events, secrets, limit)
  }

  lemma PacedFlush(chunks: seq<Chunk>, offset: nat, data: seq<Byte>, events: seq<Event>, secrets: seq<seq<Byte>>,
                   limit: nat, k: nat)
    requires k < |events| && KeepsUp(chunks, events, secrets, limit, k)
    requires WellCut(Chunk(offset, data), events, secrets, limit)
    requires forall c :: c in chunks ==> WellCut(c, events, secrets, limit)
    requires |Concat(chunks + [Chunk(offset, data)])| == |Shipped(events[..k + 1], secrets)|
    ensures Paced(chunks + [Chunk(offset, data)], offset + |data|, [], events, secrets, limit, k + 1, k)
  {
    KeepsUpMore(chunks, Chunk(offset, data), events, secrets, limit, k);
    KeepsUpNow(chunks + [Chunk(offset, data)], events, secrets, limit, k);
  }

  lemma PacedWait(chunks: seq<Chunk>, offset: nat, buffer: seq<Byte>, events: seq<Event>, secrets: seq<seq<Byte>>,
                  limit: nat, k: nat, last: nat)
    requires k < |events| && KeepsUp(chunks, events, secrets, limit, k)
    requires forall c :: c in chunks ==> WellCut(c, events, secrets, limit)
    requires Waiting(offset, buffer, events, secrets, limit, k + 1, last) && (events[k].Tick? ==> buffer == [])
    requires |Concat(chunks)| == offset && offset + |buffer| == |Shipped(events[..k + 1], secrets)|
    ensures Paced(chunks, offset, buffer, events, secrets, limit, k + 1, last)
  {
    KeepsUpNow(chunks, events, secrets, limit, k);
  }

  // For every interleaving of lines and ticks the chunks tile the masked stream from offset
  // 0, and none of them splits a line. After a tick nothing waits and after a line less than the
  // limit does; a chunk without its last line is below the limit, and one that is itself below it
  // was prompted by a tick or by the end.
  method Stream(events: seq<Event>, secrets: seq<seq<Byte>>, batchSizeLimit: nat)
    returns (chunks: seq<Chunk>, offset: nat)
    ensures Tiles(chunks, 0)
    ensures Concat(chunks) == Shipped(events, secrets)
    ensures offset == |Shipped(events, secrets)|
    ensures forall c :: c in chunks ==> EndsLine(c.data)
    ensures KeepsUp(chunks, events, secrets, batchSizeLimit, |events|)
    ensures forall c :: c in chunks ==> WellCut(c, events, secrets, batchSizeLimit)
  {
    var batchBuffer: seq<Byte> := [];
    chunks, offset := [], 0;
    ghost var last: nat := 0;
    assert events[..0] == [];
    for k := 0 to |events|
      invariant Batching(chunks, offset, batchBuffer, Shipped(events[..k], secrets))
      invariant Paced(chunks, offset, batchBuffer, events, secrets, batchSizeLimit, k, last)
    {
      match events[k]
      case Line(text) =>
        var masked := Masking.MaskSecretValues(text, secrets);
        chunks, offset, batchBuffer :=
          AddLine(events, secrets, batchSizeLimit, k, masked, chunks, offset, batchBuffer, last);
        last := k;
      case Tick =>
        chunks, offset, batchBuffer :=
          FlushOnTick(events, secrets, batchSizeLimit, k, chunks, offset, batchBuffer, last);
    }
    assert events[..|events|] == events;
    if batchBuffer != [] {
      PromptCuts(offset, batchBuffer, events, secrets, batchSizeLimit, |events|, last);
      KeepsUpMore(chunks, Chunk(offset, batchBuffer), events, secrets, batchSizeLimit, |events|);
      Flushed(chunks, offset, batchBuffer, Shipped(events, secrets));
      chunks := chunks + [Chunk(offset, batchBuffer)];
      offset := offset + |batchBuffer|;
      batchBuffer := [];
    }
    assert Concat(chunks) + [] == Concat(chunks);
  }

  method AddLine(events: seq<Event>, secrets: seq<seq<Byte>>, batchSizeLimit: nat, k: nat, masked: seq<Byte>,
                 chunks: seq<Chunk>, offset: nat, batchBuffer: seq<Byte>, ghost last: nat)
    returns (chunks': seq<Chunk>, offset': nat, batchBuffer': seq<Byte>)
    requires k < |events| && events[k].Line? && masked == Masking.Mask(events[k].text, secrets)
    requires Batching(chunks, offset, batchBuffer, Shipped(events[..k], secrets))
    requires Paced(chunks, offset, batchBuffer, events, secrets, batchSizeLimit, k, last)
    ensures Batching(chunks', offset', batchBuffer', Shipped(events[..k + 1], secrets))
    ensures Paced(chunks', offset', batchBuffer', events, secrets, batchSizeLimit, k + 1, k)
  {
    ShippedTake(events, secrets, k);
    ghost var shipped := Shipped(events[..k + 1], secrets);
    Buffered(chunks, offset, batchBuffer, Shipped(events[..k], secrets), masked);
    chunks', offset', batchBuffer' := chunks, offset, batchBuffer + masked + [NEWLINE];
    LineWaits(offset, batchBuffer, batchBuffer', events, secrets, batchSizeLimit, k, last);
    if |batchBuffer'| >= batchSizeLimit {
      Flushed(chunks, offset, batchBuffer', shipped);
      PacedFlush(chunks, offset, batchBuffer', events, secrets, batchSizeLimit, k);
      chunks' := chunks + [Chunk(offset, batchBuffer')];
      offset' := offset + |batchBuffer'|;
      batchBuffer' := [];
    } else {
      PacedWait(chunks, offset, batchBuffer', events, secrets, batchSizeLimit, k, k);
    }
  }

  method FlushOnTick(events: seq<Event>, secrets: seq<seq<Byte>>, batchSizeLimit: nat, k: nat,
                     chunks: seq<Chunk>, offset: nat, batchBuffer: seq<Byte>, ghost last: nat)
    returns (chunks': seq<Chunk>, offset': nat, batchBuffer': seq<Byte>)
    requires k < |events| && events[k].Tick?
    requires Batching(chunks, offset, batchBuffer, Shipped(events[..k], secrets))
    requires Paced(chunks, offset, batchBuffer, events, secrets, batchSizeLimit, k, last)
    ensures Batching(chunks', offset', batchBuffer', Shipped(events[..k + 1], secrets))
    ensures batchBuffer' == [] && Paced(chunks', offset', batchBuffer', events, secrets, batchSizeLimit, k + 1, last)
  {
    ShippedTake(events, secrets, k);
    ghost var shipped := Shipped(events[..k + 1], secrets);
    chunks', offset', batchBuffer' := chunks, offset, batchBuffer;
    if batchBuffer != [] {
      PromptCuts(offset, batchBuffer, events, secrets, batchSizeLimit, k, last);
      Flushed(chunks, offset, batchBuffer, shipped);
      PacedFlush(chunks, offset, batchBuffer, events, secrets, batchSizeLimit, k);
      chunks' := chunks + [Chunk(offset, batchBuffer)];
      offset' := offset + |batchBuffer|;
      batchBuffer' := [];
    } else {
      PacedWait(chunks, offset, batchBuffer, events, secrets, batchSizeLimit, k, last);
    }
  }

  // ---------- The local log ----------

  // Lines one after the other, each ended with a newline.
  ghost function Joined(lines: seq<seq<Byte>>): seq<Byte> {
    if lines == [] then [] else Joined(lines[..|lines| - 1]) + lines[|lines| - 1] + [NEWLINE]
  }

  // What the readers write to the local log and put on the line channel: lines they masked.
  ghost function Forwarded(raw: seq<seq<Byte>>, secrets: seq<seq<Byte>>): seq<seq<Byte>> {
    seq(|raw|, k requires 0 <= k < |raw| => Masking.Mask(raw[k], secrets))
  }

  ghost predicate NewlineFree(lines: seq<seq<Byte>>) {
    forall k :: 0 <= k < |lines| ==> NEWLINE !in lines[k]
  }

  lemma {:induction false} ShippedJoined(lines: seq<seq<Byte>>, secrets: seq<seq<Byte>>)
    requires Masking.AllMaskable(secrets)
    requires forall k :: 0 <= k < |lines| ==> Masking.Mask(lines[k], secrets) == lines[k]
    ensures LogText(lines, secrets) == Joined(lines)
    decreases |lines|
  {
    if lines != [] { ShippedJoined(lines[..|lines| - 1], secrets); }
  }

  // A line that was masked once is not changed by masking it again.
  lemma MaskedOnce(raw: seq<seq<Byte>>, lines: seq<seq<Byte>>, secrets: seq<seq<Byte>>)
    requires Masking.AllMaskable(secrets) && multiset(lines) == multiset(Forwarded(raw, secrets))
    ensures forall k :: 0 <= k < |lines| ==> Masking.Mask(lines[k], secrets) == lines[k]
  {
    forall k | 0 <= k < |lines| ensures Masking.Mask(lines[k], secrets) == lines[k] {
      assert lines[k] in multiset(lines);
      var i :| 0 <= i < |raw| && Forwarded(raw, secrets)[i] == lines[k];
      Masking.MaskIdempotent(raw[i], secrets);
    }
  }

  lemma {:induction false} JoinedAppend(a: seq<seq<Byte>>, b: seq<seq<Byte>>)
    ensures Joined(a + b) == Joined(a) + Joined(b)
    decreases |b|
  {
    if b == [] {
      assert a + b == a;
    } else {
      var init, last := b[..|b| - 1], b[|b| - 1];
      JoinedAppend(a, init);
      assert (a + b)[..|a + b| - 1] == a + init;
      assert Joined(a) + (Joined(init) + last + [NEWLINE]) == (Joined(a) + Joined(init)) + last + [NEWLINE];
    }
  }

  lemma JoinedWithout(lines: seq<seq<Byte>>, k: nat)
    requires k < |lines|
    ensures |Joined(lines)| == |Joined(lines[..k] + lines[k + 1..])| + |lines[k]| + 1
  {
    var front, line, back := lines[..k], lines[k], lines[k + 1..];
    assert lines == (front + [line]) + back;
    JoinedAppend(front + [line], back);
    JoinedAppend(front, back);
    assert (front + [line])[..k] == front;
  }

  // The length does not depend on the order of the lines.
  lemma {:induction false} SameLinesSameLength(a: seq<seq<Byte>>, b: seq<seq<Byte>>)
    requires multiset(a) == multiset(b)
    ensures |Joined(a)| == |Joined(b)|
    decreases |a|
  {
    if a == [] {
      assert |multiset(b)| == 0;
    } else {
      var k := FindLast(a, b);
      SameLinesSameLength(a[..|a| - 1], b[..k] + b[k + 1..]);
      JoinedWithout(b, k);
    }
  }

  lemma NoNewlineInside(v: seq<Byte>, y: seq<Byte>, p: int)
    requires NEWLINE !in y
    ensures |v| <= p < |v| + |y| ==> (v + y)[p] != NEWLINE
  {
    if |v| <= p < |v| + |y| {
      assert (v + y)[p] == y[p - |v|];
      assert y[p - |v|] in y;
    }
  }

  lemma JoinedEnds(lines: seq<seq<Byte>>)
    ensures Joined(lines) == [] || EndsLine(Joined(lines))
  {
  }

  // What follows the last newline cannot be shorter than a line without one.
  lemma LastLineLonger(u: seq<Byte>, x: seq<Byte>, v: seq<Byte>, y: seq<Byte>)
    requires u + x == v + y && NEWLINE !in y && (u == [] || EndsLine(u))
    ensures |x| >= |y|
  {
    NoNewlineInside(v, y, |u| - 1);
    assert |u| + |x| == |u + x| == |v| + |y|;
    assert u != [] ==> (u + x)[|u| - 1] == NEWLINE;
  }

  lemma JoinedLast(a: seq<seq<Byte>>, b: seq<seq<Byte>>)
    requires NewlineFree(b) && a != [] && b != [] && Joined(a) == Joined(b)
    ensures |a[|a| - 1]| >= |b[|b| - 1]|
  {
    var x, y, u, v := a[|a| - 1], b[|b| - 1], Joined(a[..|a| - 1]), Joined(b[..|b| - 1]);
    JoinedEnds(a[..|a| - 1]);
    assert u + x == Joined(a)[..|Joined(a)| - 1];
    assert v + y == Joined(b)[..|Joined(b)| - 1];
    LastLineLonger(u, x, v, y);
  }

  // Joined lines that hold no newline can be told apart again.
  lemma {:induction false} JoinedInjective(a: seq<seq<Byte>>, b: seq<seq<Byte>>)
    requires NewlineFree(a) && NewlineFree(b) && Joined(a) == Joined(b)
    ensures a == b
    decreases |a|
  {
    if a != [] && b != [] {
      JoinedLast(a, b);
      JoinedLast(b, a);
      var x, y, front, front' := a[|a| - 1], b[|b| - 1], Joined(a[..|a| - 1]), Joined(b[..|b| - 1]);
      assert |front| == |front'|;
      assert front == Joined(a)[..|front|] == front';
      assert x == Joined(a)[|front|..|front| + |x|] == y;
      JoinedInjective(a[..|a| - 1], b[..|b| - 1]);
      assert a == a[..|a| - 1] + [x] && b == b[..|b| - 1] + [y];
    }
  }

  lemma ForwardedNewlineFree(raw: seq<seq<Byte>>, secrets: seq<seq<Byte>>)
    requires NewlineFree(raw)
    ensures NewlineFree(Forwarded(raw, secrets))
  {
    forall k | 0 <= k < |raw| ensures NEWLINE !in Forwarded(raw, secrets)[k] {
      Masking.MaskAddsOnlyStars(raw[k], secrets, NEWLINE);
    }
  }

  lemma {:induction false} LogTextJoined(raw: seq<seq<Byte>>, secrets: seq<seq<Byte>>)
    ensures LogText(raw, secrets) == Joined(Forwarded(raw, secrets))
    decreases |raw|
  {
    if raw != [] {
      var last := |raw| - 1;
      LogTextJoined(raw[..last], secrets);
      assert Forwarded(raw, secrets)[..last] == Forwarded(raw[..last], secrets);
    }
  }

  // The local log holds every raw line masked once. If the same lines reach the streamer, in
  // any order, it ships them unchanged and as many bytes as the local log has.
  lemma ShippedLinesAreLocal(raw: seq<seq<Byte>>, events: seq<Event>, secrets: seq<seq<Byte>>)
    requires Masking.AllMaskable(secrets)
    requires multiset(LinesOf(events)) == multiset(Forwarded(raw, secrets))
    ensures Shipped(events, secrets) == Joined(LinesOf(events))
    ensures LogText(raw, secrets) == Joined(Forwarded(raw, secrets))
    ensures |Shipped(events, secrets)| == |LogText(raw, secrets)|
  {
    MaskedOnce(raw, LinesOf(events), secrets);
    ShippedJoined(LinesOf(events), secrets);
    LogTextJoined(raw, secrets);
    SameLinesSameLength(LinesOf(events), Forwarded(raw, secrets));
  }

  // It ships the local log byte for byte if and only if they arrive in the order of the file.
  lemma ShippedIsLocalLogIff(raw: seq<seq<Byte>>, events: seq<Event>, secrets: seq<seq<Byte>>)
    requires Masking.AllMaskable(secrets) && NewlineFree(raw)
    requires multiset(LinesOf(events)) == multiset(Forwarded(raw, secrets))
    ensures Shipped(events, secrets) == LogText(raw, secrets) <==> LinesOf(events) == Forwarded(raw, secrets)
  {
    ShippedLinesAreLocal(raw, events, secrets);
    ForwardedNewlineFree(raw, secrets);
    SameLinesNewlineFree(LinesOf(events), Forwarded(raw, secrets));
    if Shipped(events, secrets) == LogText(raw, secrets) { JoinedInjective(LinesOf(events), Forwarded(raw, secrets)); }
  }

  lemma SameLinesNewlineFree(a: seq<seq<Byte>>, b: seq<seq<Byte>>)
    requires multiset(a) == multiset(b) && NewlineFree(b)
    ensures NewlineFree(a)
  {
    forall k | 0 <= k < |a| ensures NEWLINE !in a[k] {
      assert a[k] in multiset(a) && a[k] in b;
    }
  }

  // In particular lines in the order of the file, whatever they hold.
  lemma ShippedIsLocalLog(raw: seq<seq<Byte>>, events: seq<Event>, secrets: seq<seq<Byte>>)
    requires Masking.AllMaskable(secrets)
    requires LinesOf(events) == Forwarded(raw, secrets)
    ensures Shipped(events, secrets) == LogText(raw, secrets)
  {
    ShippedLinesAreLocal(raw, events, secrets);
  }
}
