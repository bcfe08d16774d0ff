/**
  Masking of secret values in log lines.

  A line is masked twice: by the reader that writes it to the local log, and again by the
  streamer that ships it. If no secret can overlap the mask itself, the first pass leaves no
  secret behind and the second pass changes nothing. Secrets without a star are such.
 */
module Masking {
  import opened Bytes

  const MASK: seq<Byte> := [STAR, STAR, STAR]

  // `w` occurs in `s` at position `k`.
  predicate OccursAt(s: seq<Byte>, w: seq<Byte>, k: nat) {
    k + |w| <= |s| && s[k..k + |w|] == w
  }

  ghost predicate Contains(s: seq<Byte>, w: seq<Byte>) {
    exists k: nat :: OccursAt(s, w, k)
  }

  // Replaces every occurrence found scanning from the left, each scan resuming after the
  // previous occurrence.
  function Replace(s: seq<Byte>, w: seq<Byte>): seq<Byte>
    requires w != []
    decreases |s|
  {
    if s == [] then []
    else if w <= s then MASK + Replace(s[|w|..], w)
    else [s[0]] + Replace(s[1..], w)
  }

  function Mask(s: seq<Byte>, secrets: seq<seq<Byte>>): seq<Byte>
    decreases |secrets|
  {
    if secrets == [] then s
    else Mask(if secrets[0] == [] then s else Replace(s, secrets[0]), secrets[1..])
  }

  method MaskSecretValues(s: seq<Byte>, secrets: seq<seq<Byte>>) returns (masked: seq<Byte>)
    ensures masked == Mask(s, secrets)
    ensures AllMaskable(secrets) ==> forall w :: w in secrets && w != [] ==> !Contains(masked, w)
  {
    masked := s;
    for i := 0 to |secrets|
      invariant Mask(s, secrets) == Mask(masked, secrets[i..])
    {
      assert secrets[i..][1..] == secrets[i + 1..];
      var secret := secrets[i];
      if secret != [] {
        masked := Replace(masked, secret);
      }
    }
    if AllMaskable(secrets) { MaskRemovesSecrets(s, secrets); }
  }

  // No part of the mask can be part of an occurrence of `w`.
  ghost predicate Maskable(w: seq<Byte>)
    requires w != []
  {
    w[0] != STAR && w[|w| - 1] != STAR && !Contains(w, MASK)
  }

  ghost predicate AllMaskable(secrets: seq<seq<Byte>>) {
    forall w :: w in secrets && w != [] ==> Maskable(w)
  }

  lemma StarFreeMaskable(secrets: seq<seq<Byte>>)
    requires forall w :: w in secrets ==> STAR !in w
    ensures AllMaskable(secrets)
  {
    forall w | w in secrets && w != []
      ensures Maskable(w)
    {
      if Contains(w, MASK) {
        var k: nat :| OccursAt(w, MASK, k);
        MaskHasStar(w, k);
      }
    }
  }

  lemma MaskHasStar(w: seq<Byte>, k: nat)
    requires OccursAt(w, MASK, k)
    ensures STAR in w
  {
    assert w[k] == w[k..k + 3][0];
  }

  // ---------- What replacing leaves ----------

  lemma OccursAtTail(s: seq<Byte>, head: seq<Byte>, tail: seq<Byte>, w: seq<Byte>, k: nat)
    requires s == head + tail
    ensures k >= |head| ==> (OccursAt(s, w, k) <==> OccursAt(tail, w, k - |head|))
  {
    if k >= |head| && k + |w| <= |s| {
      assert s[k..k + |w|] == tail[k - |head|..k - |head| + |w|];
    }
  }

  lemma OccursAtFirst(s: seq<Byte>, w: seq<Byte>, k: nat)
    requires w != [] && OccursAt(s, w, k)
    ensures k < |s| && s[k] == w[0]
  {
    assert s[k..k + |w|][0] == s[k];
  }

  lemma ContainsTail(s: seq<Byte>, d: nat, w: seq<Byte>)
    requires d <= |s|
    ensures Contains(s[d..], w) ==> Contains(s, w)
  {
    if k: nat :| OccursAt(s[d..], w, k) {
      OccursAtTail(s, s[..d], s[d..], w, k + d);
    }
  }

  // A beginning of the result that neither ends in a star nor holds a mask is a beginning of
  // the original.
  lemma {:induction false} PrefixKept(s: seq<Byte>, w: seq<Byte>, p: seq<Byte>)
    requires w != [] && p <= Replace(s, w)
    requires p != [] ==> p[|p| - 1] != STAR && !Contains(p, MASK)
    ensures p <= s
    decreases |s|
  {
    if p != [] {
      NotPrefixOfMasked(p);
      if !(w <= s) {
        assert p[1..] <= Replace(s[1..], w);
        ContainsTail(p, 1, MASK);
        PrefixKept(s[1..], w, p[1..]);
        assert p == [p[0]] + p[1..] && s == [s[0]] + s[1..];
      }
    }
  }

  lemma NotPrefixOfMasked(p: seq<Byte>)
    requires p != [] && p[|p| - 1] != STAR && !Contains(p, MASK)
    ensures forall rest :: !(p <= MASK + rest)
  {
    assert !OccursAt(p, MASK, 0);
  }

  // Where a maskable word occurs in the result it already stood in the original, and it is
  // not the word that was replaced.
  lemma {:induction false} OccursBefore(s: seq<Byte>, w: seq<Byte>, p: seq<Byte>, k: nat)
    requires w != [] && p != [] && Maskable(p) && OccursAt(Replace(s, w), p, k)
    ensures Contains(s, p)
    ensures p != w
    decreases |s|
  {
    var out := Replace(s, w);
    OccursAtFirst(out, p, k);
    if w <= s {
      var tail := s[|w|..];
      var rest := Replace(tail, w);
      assert out == MASK + rest;
      assert k >= 3;
      OccursAtTail(out, MASK, rest, p, k);
      OccursBefore(tail, w, p, k - 3);
      ContainsTail(s, |w|, p);
    } else if k == 0 {
      assert p <= out;
      PrefixKept(s, w, p);
      assert OccursAt(s, p, 0);
    } else {
      var tail := s[1..];
      var rest := Replace(tail, w);
      assert out == [s[0]] + rest;
      OccursAtTail(out, [s[0]], rest, p, k);
      OccursBefore(tail, w, p, k - 1);
      ContainsTail(s, 1, p);
    }
  }

  lemma ReplaceRemoves(s: seq<Byte>, w: seq<Byte>)
    requires w != [] && Maskable(w)
    ensures !Contains(Replace(s, w), w)
  {
    if Contains(Replace(s, w), w) {
      var k: nat :| OccursAt(Replace(s, w), w, k);
      OccursBefore(s, w, w, k);
    }
  }

  lemma ReplaceIntroducesNothing(s: seq<Byte>, w: seq<Byte>, p: seq<Byte>)
    requires w != [] && p != [] && Maskable(p) && !Contains(s, p)
    ensures !Contains(Replace(s, w), p)
  {
    if Contains(Replace(s, w), p) {
      var k: nat :| OccursAt(Replace(s, w), p, k);
      OccursBefore(s, w, p, k);
    }
  }

  lemma {:induction false} MaskKeepsAbsent(s: seq<Byte>, secrets: seq<seq<Byte>>, p: seq<Byte>)
    requires p != [] && Maskable(p) && !Contains(s, p)
    ensures !Contains(Mask(s, secrets), p)
    decreases |secrets|
  {
    if secrets != [] {
      if secrets[0] == [] {
        MaskKeepsAbsent(s, secrets[1..], p);
      } else {
        ReplaceIntroducesNothing(s, secrets[0], p);
        MaskKeepsAbsent(Replace(s, secrets[0]), secrets[1..], p);
      }
    }
  }

  lemma {:induction false} MaskRemoves(s: seq<Byte>, secrets: seq<seq<Byte>>, p: seq<Byte>)
    requires p in secrets && p != [] && Maskable(p)
    ensures !Contains(Mask(s, secrets), p)
    decreases |secrets|
  {
    var first := secrets[0];
    var s' := if first == [] then s else Replace(s, first);
    if first == p {
      ReplaceRemoves(s, p);
      MaskKeepsAbsent(s', secrets[1..], p);
    } else {
      MaskRemoves(s', secrets[1..], p);
    }
  }

  // No non-empty secret survives.
  lemma MaskRemovesSecrets(s: seq<Byte>, secrets: seq<seq<Byte>>)
    requires AllMaskable(secrets)
    ensures forall w :: w in secrets && w != [] ==> !Contains(Mask(s, secrets), w)
  {
    forall w | w in secrets && w != []
      ensures !Contains(Mask(s, secrets), w)
    {
      MaskRemoves(s, secrets, w);
    }
  }

  lemma {:induction false} ReplaceAbsent(s: seq<Byte>, w: seq<Byte>)
    requires w != [] && !Contains(s, w)
    ensures Replace(s, w) == s
    decreases |s|
  {
    if s != [] {
      assert !OccursAt(s, w, 0);
      ContainsTail(s, 1, w);
      ReplaceAbsent(s[1..], w);
    }
  }

  lemma {:induction false} MaskAbsent(s: seq<Byte>, secrets: seq<seq<Byte>>)
    requires forall w :: w in secrets && w != [] ==> !Contains(s, w)
    ensures Mask(s, secrets) == s
    decreases |secrets|
  {
    if secrets != [] {
      assert secrets[0] in secrets;
      if secrets[0] != [] { ReplaceAbsent(s, secrets[0]); }
      MaskAbsent(s, secrets[1..]);
    }
  }

  // Masking a masked line changes nothing.
  lemma MaskIdempotent(s: seq<Byte>, secrets: seq<seq<Byte>>)
    requires AllMaskable(secrets)
    ensures Mask(Mask(s, secrets), secrets) == Mask(s, secrets)
  {
    MaskRemovesSecrets(s, secrets);
    MaskAbsent(Mask(s, secrets), secrets);
  }

  // Masking brings in no byte but the star.
  lemma {:induction false} ReplaceAddsOnlyStars(s: seq<Byte>, w: seq<Byte>, c: Byte)
    requires w != [] && c !in s && c != STAR
    ensures c !in Replace(s, w)
    decreases |s|
  {
    if s != [] {
      if w <= s { ReplaceAddsOnlyStars(s[|w|..], w, c); } else { ReplaceAddsOnlyStars(s[1..], w, c); }
    }
  }

  lemma {:induction false} MaskAddsOnlyStars(s: seq<Byte>, secrets: seq<seq<Byte>>, c: Byte)
    requires c !in s && c != STAR
    ensures c !in Mask(s, secrets)
    decreases |secrets|
  {
    if secrets != [] {
      if secrets[0] == [] {
        MaskAddsOnlyStars(s, secrets[1..], c);
      } else {
        ReplaceAddsOnlyStars(s, secrets[0], c);
        MaskAddsOnlyStars(Replace(s, secrets[0]), secrets[1..], c);
      }
    }
  }

  // ---------- Secrets the mask can complete ----------

  ghost predicate FirstOccurrence(s: seq<Byte>, w: seq<Byte>, k: nat) {
    OccursAt(s, w, k) && forall j: nat :: j < k ==> !OccursAt(s, w, j)
  }

  lemma FirstOccurrenceTail(s: seq<Byte>, w: seq<Byte>, k: nat)
    requires FirstOccurrence(s, w, k) && k > 0
    ensures |s| > 0 && !(w <= s) && FirstOccurrence(s[1..], w, k - 1)
  {
    assert !OccursAt(s, w, 0);
    forall j: nat | j < k
      ensures OccursAt(s[1..], w, j) <==> OccursAt(s, w, j + 1)
    {
      OccursAtTail(s, s[..1], s[1..], w, j + 1);
    }
  }

  // Scanning reaches the first occurrence untouched.
  lemma {:induction false} ReplaceFirst(s: seq<Byte>, w: seq<Byte>, k: nat)
    requires w != [] && FirstOccurrence(s, w, k)
    ensures Replace(s, w) == s[..k] + MASK + Replace(s[k + |w|..], w)
    decreases k
  {
    if k == 0 {
      assert w <= s && s[..0] == [];
    } else {
      FirstOccurrenceTail(s, w, k);
      var tail, rest := s[1..], Replace(s[k + |w|..], w);
      ReplaceFirst(tail, w, k - 1);
      assert tail[k - 1 + |w|..] == s[k + |w|..];
      assert [s[0]] + (tail[..k - 1] + MASK + rest) == ([s[0]] + tail[..k - 1]) + MASK + rest;
      assert s[..k] == [s[0]] + tail[..k - 1];
    }
  }

  // ---------- What masking leaves alone ----------

  // Masking with one list and then another is masking with both.
  lemma {:induction false} MaskAppend(s: seq<Byte>, a: seq<seq<Byte>>, b: seq<seq<Byte>>)
    ensures Mask(s, a + b) == Mask(Mask(s, a), b)
    decreases |a|
  {
    if a == [] {
      assert a + b == b;
    } else {
      assert (a + b)[1..] == a[1..] + b && (a + b)[0] == a[0];
      MaskAppend(if a[0] == [] then s else Replace(s, a[0]), a[1..], b);
    }
  }

  // With one secret: everything before its first occurrence stays, the occurrence becomes the
  // mask, and masking goes on behind it.
  lemma MaskFirst(s: seq<Byte>, w: seq<Byte>, k: nat)
    requires w != [] && FirstOccurrence(s, w, k)
    ensures Mask(s, [w]) == s[..k] + MASK + Mask(s[k + |w|..], [w])
  {
    ReplaceFirst(s, w, k);
    assert [w][1..] == [];
  }

  // Pieces with a separator between them.
  ghost function Interleaved(pieces: seq<seq<Byte>>, separator: seq<Byte>): seq<Byte>
    requires pieces != []
  {
    if |pieces| == 1 then pieces[0] else pieces[0] + separator + Interleaved(pieces[1..], separator)
  }

  // The text cut at the occurrences of `w` that a scan from the left finds.
  ghost predicate CutAt(s: seq<Byte>, w: seq<Byte>, pieces: seq<seq<Byte>>) {
    && pieces != [] && Interleaved(pieces, w) == s && !Contains(pieces[|pieces| - 1], w)
    && forall i :: 0 <= i < |pieces| - 1 ==> FirstOccurrence(pieces[i] + w, w, |pieces[i]|)
  }

  lemma FirstInPiece(s: seq<Byte>, w: seq<Byte>, k: nat)
    requires FirstOccurrence(s, w, k)
    ensures FirstOccurrence(s[..k] + w, w, k)
  {
    var head := s[..k] + w;
    assert head == s[..k + |w|];
    forall j: nat | j < k ensures !OccursAt(head, w, j) {
      assert !OccursAt(s, w, j);
      assert head[j..j + |w|] == s[j..j + |w|];
    }
    assert head[k..k + |w|] == w;
  }

  lemma CutCons(s: seq<Byte>, w: seq<Byte>, k: nat, rest: seq<seq<Byte>>)
    requires w != [] && FirstOccurrence(s, w, k) && CutAt(s[k + |w|..], w, rest)
    ensures CutAt(s, w, [s[..k]] + rest)
    ensures Interleaved([s[..k]] + rest, MASK) == s[..k] + MASK + Interleaved(rest, MASK)
  {
    var pieces := [s[..k]] + rest;
    assert pieces[1..] == rest;
    FirstInPiece(s, w, k);
    assert s == s[..k] + w + s[k + |w|..];
    forall i | 0 <= i < |pieces| - 1 ensures FirstOccurrence(pieces[i] + w, w, |pieces[i]|) {
      if i > 0 { assert pieces[i] == rest[i - 1]; }
    }
  }

  // So the masked text is the text with exactly those occurrences exchanged for the mask: every
  // other byte is kept, in order.
  lemma {:induction false} MaskKeepsTheRest(s: seq<Byte>, w: seq<Byte>) returns (pieces: seq<seq<Byte>>)
    requires w != []
    ensures CutAt(s, w, pieces) && Mask(s, [w]) == Interleaved(pieces, MASK)
    decreases |s|
  {
    if Contains(s, w) {
      var at: nat :| OccursAt(s, w, at);
      var k := FindFirst(s, w, at);
      var rest := MaskKeepsTheRest(s[k + |w|..], w);
      MaskFirst(s, w, k);
      CutCons(s, w, k, rest);
      pieces := [s[..k]] + rest;
    } else {
      pieces := [s];
      MaskAbsent(s, [w]);
    }
  }

  lemma ShortReplace(s: seq<Byte>, w: seq<Byte>)
    requires w != [] && |s| < |w|
    ensures Replace(s, w) == s
  {
    ReplaceAbsent(s, w);
  }

  // The mask and what follows it spell the secret again.
  lemma LeadingStarLeaks(w: seq<Byte>) returns (s: seq<Byte>)
    requires w != [] && w[0] == STAR
    ensures Contains(Replace(s, w), w)
  {
    s := w + w[1..];
    assert OccursAt(s, w, 0);
    ReplaceFirst(s, w, 0);
    ShortReplace(w[1..], w);
    assert s[|w|..] == w[1..] && s[..0] == [];
    var out := Replace(s, w);
    assert out == MASK + w[1..];
    assert out[2..2 + |w|] == w;
    assert OccursAt(out, w, 2);
  }

  function Stars(s: seq<Byte>): nat {
    if s == [] then 0 else (if s[0] == STAR then 1 else 0) + Stars(s[1..])
  }

  lemma {:induction false} StarsAppend(a: seq<Byte>, b: seq<Byte>)
    ensures Stars(a + b) == Stars(a) + Stars(b)
  {
    if a == [] {
      assert a + b == b;
    } else {
      assert (a + b)[1..] == a[1..] + b;
      StarsAppend(a[1..], b);
    }
  }

  lemma Middle(x: seq<Byte>, y: seq<Byte>, z: seq<Byte>)
    ensures (x + y + z)[|x|..|x| + |y|] == y
  {
  }

  // With `v` being `a`, `c` and `b`: the stretch of `vv*` as long as `v*` that starts at `c`.
  lemma Window(a: seq<Byte>, c: Byte, b: seq<Byte>, j: nat)
    requires j == |a|
    ensures var v := a + [c] + b; (v + (v + [STAR]))[j..j + |v| + 1] == [c] + b + a + [c]
  {
    var v, window := a + [c] + b, [c] + b + a + [c];
    assert v + (v + [STAR]) == a + window + (b + [STAR]);
    Middle(a, window, b + [STAR]);
  }

  lemma WindowStars(a: seq<Byte>, c: Byte, b: seq<Byte>)
    ensures Stars([c] + b + a + [c]) == Stars(a + [c] + b) + Stars([c])
  {
    StarsAppend([c] + b + a, [c]);
    StarsAppend([c] + b, a);
    StarsAppend(a, [c] + b);
    assert a + ([c] + b) == a + [c] + b;
  }

  // An occurrence of `v*` that starts inside the first copy of `v` holds the stars of `v` and
  // one more, so it would have to start with a star.
  lemma NoEarlierOccurrence(v: seq<Byte>, j: nat)
    requires v != [] && v[0] != STAR && j < |v|
    ensures !OccursAt(v + (v + [STAR]), v + [STAR], j)
  {
    var a, c, b := v[..j], v[j], v[j + 1..];
    assert v == a + [c] + b;
    Window(a, c, b, j);
    WindowStars(a, c, b);
    StarsAppend(v, [STAR]);
    assert Stars([STAR]) == 1 && (c != STAR ==> Stars([c]) == 0);
    assert (v + [STAR])[0] == v[0];
  }

  lemma TrailingStarLeaks(w: seq<Byte>) returns (s: seq<Byte>)
    requires w != [] && w[0] != STAR && w[|w| - 1] == STAR
    ensures Contains(Replace(s, w), w)
  {
    var v := w[..|w| - 1];
    assert w == v + [STAR];
    s := v + w;
    forall j: nat | j < |v|
      ensures !OccursAt(s, w, j)
    {
      NoEarlierOccurrence(v, j);
    }
    assert s[|v|..|v| + |w|] == w;
    assert FirstOccurrence(s, w, |v|);
    ReplaceFirst(s, w, |v|);
    var out := Replace(s, w);
    assert out[..|w|] == w by { assert s[..|v|] == v; }
    assert out[0..0 + |w|] == out[..|w|];
    assert OccursAt(out, w, 0);
  }

  lemma {:induction false} FindFirst(s: seq<Byte>, w: seq<Byte>, k: nat) returns (first: nat)
    requires OccursAt(s, w, k)
    ensures FirstOccurrence(s, w, first)
    decreases k
  {
    if j: nat :| j < k && OccursAt(s, w, j) {
      first := FindFirst(s, w, j);
    } else {
      first := k;
    }
  }

  lemma MaskMovesForward(before: seq<Byte>, after: seq<Byte>, j: nat)
    requires j < |before|
    ensures OccursAt(before + (before + MASK + after) + after, before + MASK + after, j)
            ==> OccursAt(before + MASK + after, MASK, j)
  {
    var w := before + MASK + after;
    var x, s := |before|, before + w + after;
    if OccursAt(s, w, j) {
      var there := s[j..j + |w|];
      assert there[x] == s[j + x] == w[j] && there[x + 1] == s[j + x + 1] == w[j + 1];
      assert there[x + 2] == s[j + x + 2] == w[j + 2];
      assert w[j..j + 3] == MASK;
    }
  }

  // Repeating what stands before the first mask of `w` cannot bring an occurrence forward:
  // its mask would come before the first one.
  lemma InnerMaskFirst(before: seq<Byte>, after: seq<Byte>)
    requires FirstOccurrence(before + MASK + after, MASK, |before|)
    ensures FirstOccurrence(before + (before + MASK + after) + after, before + MASK + after, |before|)
  {
    var w := before + MASK + after;
    var x, s := |before|, before + w + after;
    forall j: nat | j < x
      ensures !OccursAt(s, w, j)
    {
      MaskMovesForward(before, after, j);
    }
    assert s[x..x + |w|] == w;
  }

  lemma InnerMaskLeaks(w: seq<Byte>) returns (s: seq<Byte>)
    requires w != [] && Contains(w, MASK)
    ensures Contains(Replace(s, w), w)
  {
    var k: nat :| OccursAt(w, MASK, k);
    var x := FindFirst(w, MASK, k);
    var before, after := w[..x], w[x + 3..];
    assert w == before + MASK + after;
    s := before + w + after;
    InnerMaskFirst(before, after);
    ReplaceFirst(s, w, x);
    ShortReplace(after, w);
    assert s[x + |w|..] == after && s[..x] == before;
    assert Replace(s, w) == w;
    assert w[0..0 + |w|] == w;
    assert OccursAt(w, w, 0);
  }

  ghost predicate RemovedFrom(s: seq<Byte>, w: seq<Byte>)
    requires w != []
  {
    !Contains(Replace(s, w), w)
  }

  // Exactly the maskable secrets are removed from every line.
  lemma RemovedFromEveryLineIffMaskable(w: seq<Byte>)
    requires w != []
    ensures (forall s :: RemovedFrom(s, w)) <==> Maskable(w)
  {
    if Maskable(w) {
      forall s
        ensures RemovedFrom(s, w)
      {
        ReplaceRemoves(s, w);
      }
    } else if w[0] == STAR {
      var s := LeadingStarLeaks(w);
      assert !RemovedFrom(s, w);
    } else if w[|w| - 1] == STAR {
      var s := TrailingStarLeaks(w);
      assert !RemovedFrom(s, w);
    } else {
      var s := InnerMaskLeaks(w);
      assert !RemovedFrom(s, w);
    }
  }
}
