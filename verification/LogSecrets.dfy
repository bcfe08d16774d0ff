/** Secrets in a whole log: masking works line by line, and a log is lines joined by newlines. */
module LogSecrets {
  import opened Bytes
  import opened LogStreamer
  import opened Masking

  // An occurrence in `front + line + newline` of a text without newlines lies in `front` or in
  // `line`, if `front` ends with a newline.
  lemma OccursInOnePart(front: seq<Byte>, line: seq<Byte>, w: seq<Byte>, k: nat)
    requires w != [] && NEWLINE !in w && (front == [] || EndsLine(front))
    requires OccursAt(front + line + [NEWLINE], w, k)
    ensures k + |w| <= |front| || (|front| <= k && k + |w| <= |front| + |line|)
  {
    var all := front + line + [NEWLINE];
    assert forall i :: 0 <= i < |w| ==> all[k + i] == w[i];
    assert front != [] ==> all[|front| - 1] == NEWLINE;
    assert all[|front| + |line|] == NEWLINE;
    NotAcross(all, w, k, |front| - 1);
    NotAcross(all, w, k, |front| + |line|);
  }

  lemma NotAcross(s: seq<Byte>, w: seq<Byte>, k: nat, p: int)
    requires NEWLINE !in w && OccursAt(s, w, k)
    ensures 0 <= p < |s| && s[p] == NEWLINE ==> p < k || k + |w| <= p
  {
    if k <= p < k + |w| { assert s[k..k + |w|][p - k] == s[p]; }
  }

  lemma OccursInside(front: seq<Byte>, mid: seq<Byte>, back: seq<Byte>, w: seq<Byte>, k: nat)
    requires OccursAt(front + mid + back, w, k)
    ensures k + |w| <= |front| ==> OccursAt(front, w, k)
    ensures |front| <= k && k + |w| <= |front| + |mid| ==> OccursAt(mid, w, k - |front|)
  {
    var all := front + mid + back;
    if k + |w| <= |front| { assert front[k..k + |w|] == all[k..k + |w|]; }
    if |front| <= k && k + |w| <= |front| + |mid| {
      assert mid[k - |front|..k - |front| + |w|] == all[k..k + |w|];
    }
  }

  // A text without newlines that is in no line is not in the log.
  lemma {:induction false} JoinedHolds(lines: seq<seq<Byte>>, w: seq<Byte>, k: nat) returns (n: nat)
    requires w != [] && NEWLINE !in w && OccursAt(Joined(lines), w, k)
    ensures n < |lines| && Contains(lines[n], w)
    decreases |lines|
  {
    assert lines != [];
    var init, last := lines[..|lines| - 1], lines[|lines| - 1];
    JoinedEnds(init);
    OccursInOnePart(Joined(init), last, w, k);
    OccursInside(Joined(init), last, [NEWLINE], w, k);
    if k + |w| <= |Joined(init)| {
      n := JoinedHolds(init, w, k);
    } else {
      n := |lines| - 1;
      assert OccursAt(last, w, k - |Joined(init)|);
    }
  }

  // No secret without a newline is in a log of masked lines, in whatever order they come.
  lemma LogHidesSecrets(raw: seq<seq<Byte>>, lines: seq<seq<Byte>>, secrets: seq<seq<Byte>>, w: seq<Byte>)
    requires AllMaskable(secrets) && w in secrets && w != [] && NEWLINE !in w
    requires multiset(lines) == multiset(Forwarded(raw, secrets))
    ensures !Contains(Joined(lines), w)
  {
    forall n | 0 <= n < |lines| ensures !Contains(lines[n], w) {
      assert lines[n] in multiset(lines);
      var i :| 0 <= i < |raw| && Forwarded(raw, secrets)[i] == lines[n];
      MaskRemovesSecrets(raw[i], secrets);
    }
    if Contains(Joined(lines), w) {
      var k: nat :| OccursAt(Joined(lines), w, k);
      var n := JoinedHolds(lines, w, k);
    }
  }

  // ---------- A secret with a newline ----------

  // The lines a reader makes of a text.
  ghost function LinesIn(s: seq<Byte>): (lines: seq<seq<Byte>>)
    ensures lines != []
  {
    if s == [] then [[]] else WithByte(LinesIn(s[..|s| - 1]), s[|s| - 1])
  }

  ghost function WithByte(lines: seq<seq<Byte>>, c: Byte): seq<seq<Byte>>
    requires lines != []
  {
    if c == NEWLINE then lines + [[]] else lines[..|lines| - 1] + [lines[|lines| - 1] + [c]]
  }

  lemma JoinedSnoc(lines: seq<seq<Byte>>, line: seq<Byte>)
    ensures Joined(lines + [line]) == Joined(lines) + line + [NEWLINE]
  {
    assert (lines + [line])[..|lines|] == lines;
  }

  lemma NewlineFreeSnoc(lines: seq<seq<Byte>>, line: seq<Byte>)
    requires NewlineFree(lines) && NEWLINE !in line
    ensures NewlineFree(lines + [line])
  {
  }

  // One more byte on the last line.
  lemma LastLineGrows(front: seq<seq<Byte>>, last: seq<Byte>, s: seq<Byte>, c: Byte)
    requires Joined(front + [last]) == s + [NEWLINE]
    ensures Joined(front + [last + [c]]) == s + [c] + [NEWLINE]
  {
    JoinedSnoc(front, last);
    JoinedSnoc(front, last + [c]);
    SameBeforeNewline(Joined(front) + last, s);
    assert Joined(front) + (last + [c]) == (Joined(front) + last) + [c];
  }

  lemma SameBeforeNewline(a: seq<Byte>, b: seq<Byte>)
    requires a + [NEWLINE] == b + [NEWLINE]
    ensures a == b
  {
    assert a == (a + [NEWLINE])[..|a + [NEWLINE]| - 1];
    assert b == (b + [NEWLINE])[..|b + [NEWLINE]| - 1];
  }

  lemma {:induction false} LinesInJoin(s: seq<Byte>)
    ensures Joined(LinesIn(s)) == s + [NEWLINE] && NewlineFree(LinesIn(s))
    decreases |s|
  {
    if s == [] {
      OneEmptyLine();
    } else {
      LinesInJoin(s[..|s| - 1]);
      WithByteJoin(LinesIn(s[..|s| - 1]), s[..|s| - 1], s[|s| - 1]);
      assert s == s[..|s| - 1] + [s[|s| - 1]];
    }
  }

  lemma OneEmptyLine()
    ensures Joined([[]]) == [NEWLINE]
  {
    var none: seq<seq<Byte>> := [];
    JoinedSnoc(none, []);
    assert none + [[]] == [[]];
  }

  lemma WithByteJoin(before: seq<seq<Byte>>, s: seq<Byte>, c: Byte)
    requires before != [] && NewlineFree(before) && Joined(before) == s + [NEWLINE]
    ensures Joined(WithByte(before, c)) == s + [c] + [NEWLINE] && NewlineFree(WithByte(before, c))
  {
    var front, last := before[..|before| - 1], before[|before| - 1];
    assert before == front + [last];
    JoinedSnoc(before, []);
    LastLineGrows(front, last, s, c);
    NewlineFreeSnoc(before, []);
    if c != NEWLINE { NewlineFreeSnoc(front, last + [c]); }
  }

  // A line without a newline cannot hold it, so masking leaves the line alone.
  lemma UnmaskedLines(raw: seq<seq<Byte>>, w: seq<Byte>)
    requires NewlineFree(raw) && w != [] && NEWLINE in w
    ensures Forwarded(raw, [w]) == raw
  {
    forall k | 0 <= k < |raw| ensures Mask(raw[k], [w]) == raw[k] {
      NoNewlineNoOccurrence(raw[k], w);
      ReplaceAbsent(raw[k], w);
      assert [w][1..] == [];
    }
  }

  lemma NoNewlineNoOccurrence(s: seq<Byte>, w: seq<Byte>)
    requires NEWLINE !in s && NEWLINE in w
    ensures !Contains(s, w)
  {
    var p :| 0 <= p < |w| && w[p] == NEWLINE;
    forall k: nat ensures !OccursAt(s, w, k) {
      if k + |w| <= |s| { assert s[k..k + |w|][p] == s[k + p]; }
    }
  }

  // The readers cut such a secret into lines and the log puts it together again.
  lemma SplitSecretIsLogged(w: seq<Byte>) returns (raw: seq<seq<Byte>>)
    requires w != [] && NEWLINE in w
    ensures NewlineFree(raw) && Contains(Joined(Forwarded(raw, [w])), w)
  {
    raw := LinesIn(w);
    LinesInJoin(w);
    UnmaskedLines(raw, w);
    assert (w + [NEWLINE])[0..0 + |w|] == w;
    assert OccursAt(Joined(raw), w, 0);
  }

  ghost predicate NeverLogged(w: seq<Byte>) {
    forall raw :: NewlineFree(raw) ==> !Contains(Joined(Forwarded(raw, [w])), w)
  }

  // A maskable secret is kept out of every log of lines if and only if it holds no newline.
  lemma NeverLoggedIff(w: seq<Byte>)
    requires w != [] && Maskable(w)
    ensures NeverLogged(w) <==> NEWLINE !in w
  {
    if NEWLINE in w {
      var raw := SplitSecretIsLogged(w);
    } else {
      forall raw ensures !Contains(Joined(Forwarded(raw, [w])), w) {
        LogHidesSecrets(raw, Forwarded(raw, [w]), [w], w);
      }
    }
  }

  // ---------- What the controller buffers ----------

  // Neither the log nor an end of it holds a secret without a newline.
  ghost predicate Hides(s: seq<Byte>, secrets: seq<seq<Byte>>) {
    forall w :: w in secrets && w != [] && NEWLINE !in w ==> !Contains(s, w)
  }

  lemma ShippedHides(raw: seq<seq<Byte>>, lines: seq<seq<Byte>>, secrets: seq<seq<Byte>>)
    requires AllMaskable(secrets) && multiset(lines) == multiset(Forwarded(raw, secrets))
    ensures Hides(Joined(lines), secrets)
  {
    forall w | w in secrets && w != [] && NEWLINE !in w ensures !Contains(Joined(lines), w) {
      LogHidesSecrets(raw, lines, secrets, w);
    }
  }

  lemma EndHides(part: seq<Byte>, all: seq<Byte>, secrets: seq<seq<Byte>>)
    requires |part| <= |all| && all[|all| - |part|..] == part && Hides(all, secrets)
    ensures Hides(part, secrets)
  {
    forall w | w in secrets && w != [] && NEWLINE !in w ensures !Contains(part, w) {
      PartHides(part, all, |all| - |part|, w);
    }
  }

  lemma PartHides(part: seq<Byte>, all: seq<Byte>, from: nat, w: seq<Byte>)
    requires from <= |all| && part == all[from..] && !Contains(all, w)
    ensures !Contains(part, w)
  {
    forall k: nat ensures !OccursAt(part, w, k) {
      if k + |w| <= |part| {
        assert part[k..k + |w|] == all[from + k..from + k + |w|];
        assert !OccursAt(all, w, from + k);
      }
    }
  }
}
