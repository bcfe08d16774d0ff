/**
  The two readers of a job's output, one for each stream. A reader masks a line, writes it to
  the local log under a lock, gives the lock up and only then sends the line to the streamer.
  Between the two the other reader may write and send any number of lines.
 */
module LogReaders {
  import opened Bytes
  import opened LogStreamer
  import Masking

  datatype Source = Stdout | Stderr
  datatype LogLine = LogLine(line: seq<Byte>, source: Source)
  datatype Action = Write(source: Source, raw: seq<Byte>) | Send(source: Source)

  // What was written, what was sent, and what a reader has written but not sent.
  datatype Readers = Readers(file: seq<LogLine>, channel: seq<LogLine>, held: map<Source, LogLine>)

  predicate Enabled(s: Readers, a: Action) {
    match a
    case Write(source, _) => source !in s.held
    case Send(source) => source in s.held
  }

  function Apply(s: Readers, a: Action, secrets: seq<seq<Byte>>): Readers
    requires Enabled(s, a)
  {
    match a
    case Write(source, raw) =>
      var line := LogLine(Masking.Mask(raw, secrets), source);
      Readers(s.file + [line], s.channel, s.held[source := line])
    case Send(source) => Readers(s.file, s.channel + [s.held[source]], s.held - {source})
  }

  ghost predicate IsReading(states: seq<Readers>, actions: seq<Action>, secrets: seq<seq<Byte>>) {
    && |states| == |actions| + 1 && states[0] == Readers([], [], map[])
    && forall i :: 0 <= i < |actions| ==>
         Enabled(states[i], actions[i]) && states[i + 1] == Apply(states[i], actions[i], secrets)
  }

  // The lines of one source, in order.
  ghost function OfSource(lines: seq<LogLine>, source: Source): seq<LogLine> {
    if lines == [] then []
    else
      var before, last := OfSource(lines[..|lines| - 1], source), lines[|lines| - 1];
      if last.source == source then before + [last] else before
  }

  ghost function HeldBy(s: Readers, source: Source): seq<LogLine> {
    if source in s.held then [s.held[source]] else []
  }

  ghost function Texts(lines: seq<LogLine>): seq<seq<Byte>> {
    seq(|lines|, k requires 0 <= k < |lines| => lines[k].line)
  }

  ghost function HeldLine(held: map<Source, LogLine>, source: Source): multiset<seq<Byte>> {
    if source in held then multiset{held[source].line} else multiset{}
  }

  // Every line written is sent once or still held.
  ghost predicate LinesKept(s: Readers) {
    multiset(Texts(s.channel)) + (HeldLine(s.held, Stdout) + HeldLine(s.held, Stderr)) == multiset(Texts(s.file))
  }

  // Each source keeps its order.
  ghost predicate OrderKept(s: Readers, source: Source) {
    && (source in s.held ==> s.held[source].source == source)
    && OfSource(s.file, source) == OfSource(s.channel, source) + HeldBy(s, source)
  }

  ghost predicate Kept(s: Readers) {
    LinesKept(s) && OrderKept(s, Stdout) && OrderKept(s, Stderr)
  }

  lemma TextsSnoc(lines: seq<LogLine>, x: LogLine)
    ensures Texts(lines + [x]) == Texts(lines) + [x.line]
    ensures multiset(Texts(lines + [x])) == multiset(Texts(lines)) + multiset{x.line}
  {
  }

  lemma OfSourceSnoc(lines: seq<LogLine>, x: LogLine, source: Source)
    ensures OfSource(lines + [x], source) == OfSource(lines, source) + if x.source == source then [x] else []
  {
    assert (lines + [x])[..|lines|] == lines;
  }

  lemma StepLinesKept(s: Readers, a: Action, secrets: seq<seq<Byte>>)
    requires LinesKept(s) && Enabled(s, a)
    ensures LinesKept(Apply(s, a, secrets))
  {
    match a
    case Write(source, raw) =>
      var line := LogLine(Masking.Mask(raw, secrets), source);
      TextsSnoc(s.file, line);
      LetGo(s.held[source := line], source);
      assert s.held[source := line] - {source} == s.held;
    case Send(source) =>
      TextsSnoc(s.channel, s.held[source]);
      LetGo(s.held, source);
  }

  lemma LetGo(held: map<Source, LogLine>, source: Source)
    requires source in held
    ensures HeldLine(held, Stdout) + HeldLine(held, Stderr) ==
            multiset{held[source].line} + (HeldLine(held - {source}, Stdout) + HeldLine(held - {source}, Stderr))
  {
    match source
    case Stdout => assert HeldLine(held - {Stdout}, Stderr) == HeldLine(held, Stderr);
    case Stderr => assert HeldLine(held - {Stderr}, Stdout) == HeldLine(held, Stdout);
  }

  lemma StepOrderKept(s: Readers, a: Action, secrets: seq<seq<Byte>>, source: Source)
    requires OrderKept(s, source) && OrderKept(s, a.source) && Enabled(s, a)
    ensures OrderKept(Apply(s, a, secrets), source)
  {
    match a
    case Write(from, raw) => OfSourceSnoc(s.file, LogLine(Masking.Mask(raw, secrets), from), source);
    case Send(from) => OfSourceSnoc(s.channel, s.held[from], source);
  }

  lemma StepKept(s: Readers, a: Action, secrets: seq<seq<Byte>>)
    requires Kept(s) && Enabled(s, a)
    ensures Kept(Apply(s, a, secrets))
  {
    StepLinesKept(s, a, secrets);
    assert OrderKept(s, a.source) by { match a.source case Stdout => case Stderr => }
    StepOrderKept(s, a, secrets, Stdout);
    StepOrderKept(s, a, secrets, Stderr);
  }

  lemma {:induction false} ReadingKept(states: seq<Readers>, actions: seq<Action>, secrets: seq<seq<Byte>>, i: nat)
    requires IsReading(states, actions, secrets) && i < |states|
    ensures Kept(states[i])
    decreases i
  {
    if i > 0 {
      ReadingKept(states, actions, secrets, i - 1);
      StepKept(states[i - 1], actions[i - 1], secrets);
    }
  }

  // For every interleaving of the two readers, once both are done the streamer has been sent
  // exactly the lines of the local log, those of each stream in their order.
  lemma SentIsWritten(states: seq<Readers>, actions: seq<Action>, secrets: seq<seq<Byte>>)
    requires IsReading(states, actions, secrets) && states[|actions|].held == map[]
    ensures var s := states[|actions|];
            && multiset(Texts(s.channel)) == multiset(Texts(s.file))
            && OfSource(s.channel, Stdout) == OfSource(s.file, Stdout)
            && OfSource(s.channel, Stderr) == OfSource(s.file, Stderr)
  {
    ReadingKept(states, actions, secrets, |actions|);
  }

  // The raw lines in the order of the file.
  ghost function RawLines(actions: seq<Action>): seq<seq<Byte>> {
    if actions == [] then []
    else
      var before, last := RawLines(actions[..|actions| - 1]), actions[|actions| - 1];
      if last.Write? then before + [last.raw] else before
  }

  lemma {:induction false} FileIsForwarded(states: seq<Readers>, actions: seq<Action>, secrets: seq<seq<Byte>>)
    requires IsReading(states, actions, secrets)
    ensures Texts(states[|actions|].file) == Forwarded(RawLines(actions), secrets)
    decreases |actions|
  {
    if actions != [] {
      var n := |actions| - 1;
      FileIsForwarded(states[..n + 1], actions[..n], secrets);
      assert Enabled(states[n], actions[n]) && states[n + 1] == Apply(states[n], actions[n], secrets);
      if actions[n].Write? {
        TextsSnoc(states[n].file, LogLine(Masking.Mask(actions[n].raw, secrets), actions[n].source));
        ForwardedSnoc(RawLines(actions[..n]), actions[n].raw, secrets);
      }
    }
  }

  lemma ForwardedSnoc(raw: seq<seq<Byte>>, line: seq<Byte>, secrets: seq<seq<Byte>>)
    ensures Forwarded(raw + [line], secrets) == Forwarded(raw, secrets) + [Masking.Mask(line, secrets)]
  {
  }

  // The order can differ: the second line written can be the first one sent.
  lemma ReadersMayReorder(a: seq<Byte>, b: seq<Byte>, secrets: seq<seq<Byte>>)
    returns (states: seq<Readers>, actions: seq<Action>)
    ensures IsReading(states, actions, secrets) && |actions| == 4 && states[4].held == map[]
    ensures Texts(states[4].file) == [Masking.Mask(a, secrets), Masking.Mask(b, secrets)]
    ensures Texts(states[4].channel) == [Masking.Mask(b, secrets), Masking.Mask(a, secrets)]
  {
    var s0 := Readers([], [], map[]);
    var s1 := Apply(s0, Write(Stdout, a), secrets);
    var s2 := Apply(s1, Write(Stderr, b), secrets);
    var s3 := Apply(s2, Send(Stderr), secrets);
    var s4 := Apply(s3, Send(Stdout), secrets);
    assert s4.held == map[];
    states, actions := [s0, s1, s2, s3, s4], [Write(Stdout, a), Write(Stderr, b), Send(Stderr), Send(Stdout)];
  }
}
