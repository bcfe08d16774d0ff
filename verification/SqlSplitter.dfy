/**
  Splitting a migration script into statements.

  The specification is a byte-by-byte automaton: it reads one byte at a time, never looks
  ahead and never goes back. The splitter skips whole lexemes with lookahead. The two agree
  except after a dollar quote that is never closed, whose last bytes the splitter reads again.
 */
module SqlSplitter {
  import opened Bytes
  import opened Common

  // Letters, digits and underscore.
  predicate IsTagByte(b: Byte) {
    48 <= b <= 57 || 65 <= b <= 90 || 97 <= b <= 122 || b == UNDERSCORE
  }

  // ---------- Specification: the automaton ----------

  datatype Mode =
    | Top
    | Dash                                       // after a dash that may start a line comment
    | Slash                                      // after a slash that may start a block comment
    | Line
    | Block
    | BlockStar                                  // in a block comment, after a star
    | Str
    | StrQuote                                   // after a quote that ends the string unless doubled
    | Tag(tag: seq<Byte>)                        // after a dollar and some tag bytes
    | Body(tag: seq<Byte>, start: nat)           // inside a dollar quote whose body begins at `start`

  function Closer(tag: seq<Byte>): seq<Byte> {
    [DOLLAR] + tag + [DOLLAR]
  }

  // Does the closer of `tag` stand at position `j`?
  predicate CloserAt(s: seq<Byte>, tag: seq<Byte>, j: nat) {
    j + |tag| + 2 <= |s| && s[j..j + |tag| + 2] == Closer(tag)
  }

  // Does byte `i` complete a closer that lies in the body?
  predicate Completes(s: seq<Byte>, tag: seq<Byte>, start: nat, i: nat)
  {
    start + |tag| + 2 <= i + 1 && CloserAt(s, tag, i + 1 - (|tag| + 2))
  }

  function FromTop(b: Byte): Mode {
    if b == DASH then Dash
    else if b == SLASH then Slash
    else if b == QUOTE then Str
    else if b == DOLLAR then Tag([])
    else Top
  }

  // The mode after reading byte `i` of `s` in mode `m`.
  function Step(m: Mode, s: seq<Byte>, i: nat): Mode
    requires i < |s|
  {
    var b := s[i];
    match m
    case Top => FromTop(b)
    case Dash => if b == DASH then Line else FromTop(b)
    case Slash => if b == STAR then Block else FromTop(b)
    case Line => if b == NEWLINE then Top else Line
    case Block => if b == STAR then BlockStar else Block
    case BlockStar => if b == SLASH then Top else if b == STAR then BlockStar else Block
    case Str => if b == QUOTE then StrQuote else Str
    case StrQuote => if b == QUOTE then Str else FromTop(b)
    case Tag(t) => if b == DOLLAR then Body(t, i + 1) else if IsTagByte(b) then Tag(t + [b]) else FromTop(b)
    case Body(t, start) => if Completes(s, t, start, i) then Top else m
  }

  // Is byte `b`, read in mode `m`, a semicolon at top level?
  predicate IsCut(m: Mode, b: Byte) {
    b == SEMICOLON && (m.Top? || m.Dash? || m.Slash? || m.StrQuote? || m.Tag?)
  }

  // The cuts, and where the bytes lie that belong to no finished lexeme the splitter would
  // skip: the end of input, or, in an unclosed dollar quote, one byte less than a closer
  // before it (or the whole body, if that is shorter).
  datatype Lexed = Lexed(cuts: seq<nat>, resume: nat)

  ghost function Lex(m: Mode, s: seq<Byte>, i: nat): (l: Lexed)
    requires i <= |s|
    requires m.Body? ==> m.start <= i
    ensures l.resume <= |s|
    ensures if m.Body? then m.start <= l.resume else i < l.resume || l.resume == |s|
    decreases |s| - i
  {
    if i == |s| then
      Lexed([], if m.Body? then |s| - Min(|s| - m.start, |m.tag| + 1) else |s|)
    else
      var rest := Lex(Step(m, s, i), s, i + 1);
      if IsCut(m, s[i]) then Lexed([i] + rest.cuts, rest.resume) else rest
  }

  // The semicolons that separate statements.
  ghost function SpecCuts(s: seq<Byte>): seq<nat> {
    Lex(Top, s, 0).cuts
  }

  ghost predicate DollarQuotesClosed(s: seq<Byte>) {
    Lex(Top, s, 0).resume == |s|
  }

  // What the splitter cuts at from position `i` on: it starts over where an unclosed dollar
  // quote leaves it.
  ghost function SplitCuts(s: seq<Byte>, i: nat): seq<nat>
    requires i <= |s|
    decreases |s| - i
  {
    var l := Lex(Top, s, i);
    if i < l.resume < |s| then l.cuts + SplitCuts(s, l.resume) else l.cuts
  }

  // ---------- Pieces ----------

  ghost predicate ValidCuts(s: seq<Byte>, cuts: seq<nat>, start: nat) {
    && start <= |s|
    && (cuts != [] ==> start <= cuts[0] < |s| && s[cuts[0]] == SEMICOLON && ValidCuts(s, cuts[1..], cuts[0] + 1))
  }

  ghost function Pieces(s: seq<Byte>, cuts: seq<nat>, start: nat): seq<seq<Byte>>
    requires ValidCuts(s, cuts, start)
  {
    if cuts == [] then (if start < |s| then [s[start..]] else [])
    else [s[start..cuts[0]]] + Pieces(s, cuts[1..], cuts[0] + 1)
  }

  // Gluing `n` pieces back with their semicolons, and what follows the last one.
  ghost function Rejoin(pieces: seq<seq<Byte>>, n: nat): seq<Byte> {
    if pieces == [] then []
    else if n == 0 then pieces[0]
    else pieces[0] + [SEMICOLON] + Rejoin(pieces[1..], n - 1)
  }

  lemma {:induction false} RejoinPieces(s: seq<Byte>, cuts: seq<nat>, start: nat)
    requires ValidCuts(s, cuts, start)
    ensures Rejoin(Pieces(s, cuts, start), |cuts|) == s[start..]
    ensures |cuts| <= |Pieces(s, cuts, start)| <= |cuts| + 1
    decreases |cuts|
  {
    if cuts != [] {
      RejoinPieces(s, cuts[1..], cuts[0] + 1);
      var ps := Pieces(s, cuts, start);
      assert ps[1..] == Pieces(s, cuts[1..], cuts[0] + 1);
      assert s[start..] == s[start..cuts[0]] + [SEMICOLON] + s[cuts[0] + 1..];
    }
  }

  // ---------- Cuts are semicolons in increasing order ----------

  lemma {:induction false} ValidCutsWeaken(s: seq<Byte>, cuts: seq<nat>, start: nat, start': nat)
    requires ValidCuts(s, cuts, start) && start' <= start
    ensures ValidCuts(s, cuts, start')
  {
  }

  lemma {:induction false} ValidCutsAppend(s: seq<Byte>, a: seq<nat>, b: seq<nat>, start: nat, mid: nat)
    requires ValidCuts(s, a, start) && ValidCuts(s, b, mid) && start <= mid
    requires forall c :: c in a ==> c < mid
    ensures ValidCuts(s, a + b, start)
    decreases |a|
  {
    if a == [] {
      assert a + b == b;
    } else {
      assert (a + b)[1..] == a[1..] + b;
      assert a[0] in a && forall c :: c in a[1..] ==> c in a;
      ValidCutsAppend(s, a[1..], b, a[0] + 1, mid);
    }
  }

  lemma {:induction false} LexValid(m: Mode, s: seq<Byte>, i: nat)
    requires i <= |s|
    requires m.Body? ==> m.start <= i
    ensures ValidCuts(s, Lex(m, s, i).cuts, i)
    ensures forall c :: c in Lex(m, s, i).cuts ==> c < Lex(m, s, i).resume
    decreases |s| - i
  {
    if i < |s| {
      LexValid(Step(m, s, i), s, i + 1);
      var rest := Lex(Step(m, s, i), s, i + 1).cuts;
      if IsCut(m, s[i]) {
        assert ([i] + rest)[1..] == rest;
      } else {
        ValidCutsWeaken(s, rest, i + 1, i);
      }
    }
  }

  lemma {:induction false} SplitCutsValid(s: seq<Byte>, i: nat)
    requires i <= |s|
    ensures ValidCuts(s, SplitCuts(s, i), i)
    decreases |s| - i
  {
    var l := Lex(Top, s, i);
    LexValid(Top, s, i);
    if i < l.resume < |s| {
      SplitCutsValid(s, l.resume);
      ValidCutsAppend(s, l.cuts, SplitCuts(s, l.resume), i, l.resume);
    }
  }

  // ---------- Skipping one lexeme ----------

  method SkipLineComment(s: seq<Byte>, start: nat) returns (i: nat)
    requires start + 1 < |s| && s[start] == DASH && s[start + 1] == DASH
    ensures start < i <= |s|
    ensures Lex(Top, s, start) == Lex(Top, s, i)
  {
    i := start;
    while i < |s| && s[i] != NEWLINE
      invariant start <= i <= |s|
      invariant i <= start + 1 ==> s[i] != NEWLINE
      invariant Lex(Line, s, i) == Lex(Line, s, start)
    {
      i := i + 1;
    }
    assert Lex(Top, s, start) == Lex(Dash, s, start + 1) == Lex(Line, s, start + 2);
    assert Lex(Line, s, start) == Lex(Line, s, start + 1);
  }

  method SkipBlockComment(s: seq<Byte>, start: nat) returns (i: nat)
    requires start + 1 < |s| && s[start] == SLASH && s[start + 1] == STAR
    ensures start < i <= |s|
    ensures Lex(Top, s, start) == Lex(Top, s, i)
  {
    i := start + 2;
    assert Lex(Top, s, start) == Lex(Slash, s, start + 1);
    while i + 1 < |s| && !(s[i] == STAR && s[i + 1] == SLASH)
      invariant start + 2 <= i <= |s|
      invariant Lex(Block, s, i) == Lex(Top, s, start)
    {
      if s[i] == STAR { assert Lex(BlockStar, s, i + 1) == Lex(Block, s, i + 1); }
      i := i + 1;
    }
    if i + 1 < |s| {
      assert Lex(Block, s, i) == Lex(BlockStar, s, i + 1) == Lex(Top, s, i + 2);
    } else if i < |s| {
      assert Lex(Step(Block, s, i), s, i + 1) == Lexed([], |s|);
    }
    i := Min(i + 2, |s|);
  }

  method SkipString(s: seq<Byte>, start: nat) returns (i: nat)
    requires start < |s| && s[start] == QUOTE
    ensures start < i <= |s|
    ensures Lex(Top, s, start) == Lex(Top, s, i)
  {
    i := start + 1;
    while i < |s|
      invariant start < i <= |s|
      invariant Lex(Str, s, i) == Lex(Top, s, start)
    {
      if s[i] == QUOTE {
        if i + 1 < |s| && s[i + 1] == QUOTE {
          assert Lex(Str, s, i) == Lex(StrQuote, s, i + 1);
          i := i + 2;
          continue;
        }
        assert Lex(StrQuote, s, i + 1) == Lex(Top, s, i + 1);
        i := i + 1;
        return;
      }
      i := i + 1;
    }
  }

  // While no closer has been completed before position `k`, the automaton is still in the body.
  lemma {:induction false} StillInBody(s: seq<Byte>, tag: seq<Byte>, body: nat, k: nat)
    requires body <= k <= |s|
    requires forall j :: body <= j < k ==> !Completes(s, tag, body, j)
    ensures Lex(Body(tag, body), s, body) == Lex(Body(tag, body), s, k)
    decreases k
  {
    if k > body {
      StillInBody(s, tag, body, k - 1);
      assert Step(Body(tag, body), s, k - 1) == Body(tag, body);
    }
  }

  // The first closer ends the body.
  lemma BodyCloses(s: seq<Byte>, tag: seq<Byte>, body: nat, at: nat)
    requires body <= at <= |s| && CloserAt(s, tag, at)
    requires forall j :: body <= j < at ==> !CloserAt(s, tag, j)
    ensures Lex(Body(tag, body), s, body) == Lex(Top, s, at + |tag| + 2)
  {
    var k := at + |tag| + 1;
    StillInBody(s, tag, body, k);
    assert Completes(s, tag, body, k);
  }

  lemma BodyNeverCloses(s: seq<Byte>, tag: seq<Byte>, body: nat)
    requires body <= |s|
    requires forall j :: body <= j ==> !CloserAt(s, tag, j)
    ensures Lex(Body(tag, body), s, body) == Lexed([], |s| - Min(|s| - body, |tag| + 1))
  {
    StillInBody(s, tag, body, |s|);
  }

  // From the first byte of the body of a dollar quote. Leaves `i` after the closer, or, if
  // there is none, at the bytes that are read again.
  method SkipDollarBody(s: seq<Byte>, tag: seq<Byte>, body: nat) returns (i: nat, ghost closed: bool)
    requires body <= |s|
    ensures body <= i <= |s|
    ensures closed ==> Lex(Body(tag, body), s, body) == Lex(Top, s, i)
    ensures !closed ==> Lex(Body(tag, body), s, body) == Lexed([], i)
  {
    var closer := Closer(tag);
    i := body;
    while i + |closer| <= |s|
      invariant body <= i <= |s|
      invariant i + |closer| <= |s| + 1 || i == body
      invariant forall j :: body <= j < i ==> !CloserAt(s, tag, j)
    {
      if s[i..i + |closer|] == closer {
        BodyCloses(s, tag, body, i);
        i := i + |closer|;
        return i, true;
      }
      i := i + 1;
    }
    BodyNeverCloses(s, tag, body);
    closed := false;
  }

  // The end of the run of tag bytes after a dollar.
  method ScanTag(s: seq<Byte>, start: nat) returns (tagEnd: nat)
    requires start < |s| && s[start] == DOLLAR
    ensures start < tagEnd <= |s|
    ensures Lex(Top, s, start) == Lex(Tag(s[start + 1..tagEnd]), s, tagEnd)
    ensures Lex(Top, s, start + 1) == Lex(Top, s, tagEnd)
    ensures tagEnd < |s| ==> s[tagEnd] == DOLLAR || !IsTagByte(s[tagEnd])
  {
    tagEnd := start + 1;
    assert s[start + 1..tagEnd] == [];
    while tagEnd < |s| && s[tagEnd] != DOLLAR
      invariant start < tagEnd <= |s|
      invariant Lex(Top, s, start) == Lex(Tag(s[start + 1..tagEnd]), s, tagEnd)
      invariant Lex(Top, s, start + 1) == Lex(Top, s, tagEnd)
    {
      if !IsTagByte(s[tagEnd]) { break; }
      assert s[start + 1..tagEnd + 1] == s[start + 1..tagEnd] + [s[tagEnd]];
      tagEnd := tagEnd + 1;
    }
  }

  // At a dollar sign: over the quote it opens, or over the dollar alone if it opens none.
  method SkipDollar(s: seq<Byte>, start: nat) returns (i: nat)
    requires start < |s| && s[start] == DOLLAR
    ensures start < i <= |s|
    ensures SplitCuts(s, start) == SplitCuts(s, i)
  {
    var tagEnd := ScanTag(s, start);
    if tagEnd < |s| && s[tagEnd] == DOLLAR {
      var tag := s[start + 1..tagEnd];
      assert Lex(Top, s, start) == Lex(Body(tag, tagEnd + 1), s, tagEnd + 1);
      ghost var closed;
      i, closed := SkipDollarBody(s, tag, tagEnd + 1);
      if !closed { UnclosedResumes(s, start, i); } else { SameLexSameCuts(s, start, i); }
    } else {
      i := start + 1;
      TagFallsThrough(s, s[start + 1..tagEnd], tagEnd);
      SameLexSameCuts(s, start, i);
    }
  }

  lemma TagFallsThrough(s: seq<Byte>, tag: seq<Byte>, i: nat)
    requires i <= |s|
    requires i < |s| ==> s[i] != DOLLAR && !IsTagByte(s[i])
    ensures Lex(Tag(tag), s, i) == Lex(Top, s, i)
  {
  }

  lemma SameLexSameCuts(s: seq<Byte>, i: nat, j: nat)
    requires i < j <= |s| && Lex(Top, s, i) == Lex(Top, s, j)
    ensures SplitCuts(s, i) == SplitCuts(s, j)
  {
  }

  lemma UnclosedResumes(s: seq<Byte>, i: nat, j: nat)
    requires i < j <= |s| && Lex(Top, s, i) == Lexed([], j)
    ensures SplitCuts(s, i) == SplitCuts(s, j)
  {
    if j < |s| {
      assert [] + SplitCuts(s, j) == SplitCuts(s, j);
    }
  }

  // A byte that is not the start of a lexeme to skip.
  lemma PlainByte(s: seq<Byte>, i: nat)
    requires i < |s| && s[i] != QUOTE && s[i] != DOLLAR
    requires s[i] == DASH ==> i + 1 == |s| || s[i + 1] != DASH
    requires s[i] == SLASH ==> i + 1 == |s| || s[i + 1] != STAR
    ensures SplitCuts(s, i) == (if s[i] == SEMICOLON then [i] else []) + SplitCuts(s, i + 1)
  {
    assert Lex(Step(Top, s, i), s, i + 1) == Lex(Top, s, i + 1);
    var l, l' := Lex(Top, s, i), Lex(Top, s, i + 1);
    if s[i] == SEMICOLON {
      assert l.cuts == [i] + l'.cuts && l.resume == l'.resume;
      if l.resume < |s| {
        assert [i] + (l'.cuts + SplitCuts(s, l.resume)) == ([i] + l'.cuts) + SplitCuts(s, l.resume);
      }
    } else {
      SameLexSameCuts(s, i, i + 1);
      assert [] + SplitCuts(s, i + 1) == SplitCuts(s, i + 1);
    }
  }

  // ---------- The splitter ----------

  // One pass of the main loop: skips a comment, a string or a dollar quote, or moves over a
  // single byte, which may be a cut.
  method NextPosition(s: seq<Byte>, i: nat) returns (j: nat, cut: bool)
    requires i < |s|
    ensures i < j <= |s|
    ensures cut ==> j == i + 1
    ensures SplitCuts(s, i) == (if cut then [i] else []) + SplitCuts(s, j)
  {
    var b := s[i];
    if b == DASH && i + 1 < |s| && s[i + 1] == DASH {
      j := SkipLineComment(s, i);
      SameLexSameCuts(s, i, j);
      cut := false;
    } else if b == SLASH && i + 1 < |s| && s[i + 1] == STAR {
      j := SkipBlockComment(s, i);
      SameLexSameCuts(s, i, j);
      cut := false;
    } else if b == QUOTE {
      j := SkipString(s, i);
      SameLexSameCuts(s, i, j);
      cut := false;
    } else if b == DOLLAR {
      j := SkipDollar(s, i);
      cut := false;
    } else {
      PlainByte(s, i);
      j, cut := i + 1, b == SEMICOLON;
    }
    assert [] + SplitCuts(s, j) == SplitCuts(s, j);
  }

  // Of `all` the pieces, `statements` are those before `stmtStart`; the others are still to come.
  ghost predicate SplitUpTo(s: seq<Byte>, i: nat, stmtStart: nat, statements: seq<seq<Byte>>, all: seq<seq<Byte>>) {
    && stmtStart <= i <= |s|
    && ValidCuts(s, SplitCuts(s, i), stmtStart)
    && statements + Pieces(s, SplitCuts(s, i), stmtStart) == all
  }

  lemma CutPiece(s: seq<Byte>, i: nat, stmtStart: nat, statements: seq<seq<Byte>>, all: seq<seq<Byte>>)
    requires i < |s| && SplitUpTo(s, i, stmtStart, statements, all)
    requires SplitCuts(s, i) == [i] + SplitCuts(s, i + 1)
    ensures SplitUpTo(s, i + 1, i + 1, statements + [s[stmtStart..i]], all)
  {
    assert SplitCuts(s, i)[1..] == SplitCuts(s, i + 1);
    var piece, rest := s[stmtStart..i], Pieces(s, SplitCuts(s, i + 1), i + 1);
    assert statements + ([piece] + rest) == (statements + [piece]) + rest;
  }

  lemma SkipPiece(s: seq<Byte>, i: nat, j: nat, stmtStart: nat, statements: seq<seq<Byte>>, all: seq<seq<Byte>>)
    requires i < j <= |s| && SplitUpTo(s, i, stmtStart, statements, all)
    requires SplitCuts(s, i) == [] + SplitCuts(s, j)
    ensures SplitUpTo(s, j, stmtStart, statements, all)
  {
    assert [] + SplitCuts(s, j) == SplitCuts(s, j);
  }

  lemma LastPiece(s: seq<Byte>, stmtStart: nat, statements: seq<seq<Byte>>, all: seq<seq<Byte>>)
    requires SplitUpTo(s, |s|, stmtStart, statements, all)
    ensures stmtStart <= |s|
    ensures all == if stmtStart < |s| then statements + [s[stmtStart..]] else statements
  {
    assert SplitCuts(s, |s|) == [];
  }

  // One pass of the main loop.
  method Advance(s: seq<Byte>, i: nat, stmtStart: nat, statements: seq<seq<Byte>>, ghost all: seq<seq<Byte>>)
    returns (i': nat, stmtStart': nat, statements': seq<seq<Byte>>)
    requires i < |s| && SplitUpTo(s, i, stmtStart, statements, all)
    ensures i < i' && SplitUpTo(s, i', stmtStart', statements', all)
  {
    stmtStart', statements' := stmtStart, statements;
    var cut;
    i', cut := NextPosition(s, i);
    if cut {
      CutPiece(s, i, stmtStart, statements, all);
      statements' := statements + [s[stmtStart..i]];
      stmtStart' := i + 1;
    } else {
      SkipPiece(s, i, i', stmtStart, statements, all);
    }
  }

  method SplitSqlStatements(s: seq<Byte>) returns (statements: seq<seq<Byte>>)
    ensures ValidCuts(s, SplitCuts(s, 0), 0)
    ensures statements == Pieces(s, SplitCuts(s, 0), 0)
  {
    SplitCutsValid(s, 0);
    ghost var all := Pieces(s, SplitCuts(s, 0), 0);
    statements := [];
    var stmtStart: nat, i: nat := 0, 0;
    assert SplitUpTo(s, i, stmtStart, statements, all);
    while i < |s|
      invariant SplitUpTo(s, i, stmtStart, statements, all)
      decreases |s| - i
    {
      i, stmtStart, statements := Advance(s, i, stmtStart, statements, all);
    }
    LastPiece(s, stmtStart, statements, all);
    if stmtStart < |s| {
      statements := statements + [s[stmtStart..]];
    }
  }

  // ---------- When the splitter meets the specification ----------

  // What the splitter reads again after an unclosed dollar quote holds no semicolon that
  // would count in a script of its own.
  ghost predicate TailQuiet(s: seq<Byte>, i: nat)
    requires i <= |s|
    decreases |s| - i
  {
    var r := Lex(Top, s, i).resume;
    i < r < |s| ==> Lex(Top, s, r).cuts == [] && TailQuiet(s, r)
  }

  lemma {:induction false} NoCutsIffQuiet(s: seq<Byte>, i: nat)
    requires i <= |s|
    ensures SplitCuts(s, i) == [] <==> Lex(Top, s, i).cuts == [] && TailQuiet(s, i)
    decreases |s| - i
  {
    var r := Lex(Top, s, i).resume;
    if i < r < |s| { NoCutsIffQuiet(s, r); }
  }

  // For every input: the splitter cuts where the specification does if and only if nothing
  // it reads twice separates statements.
  lemma SplitMeetsSpecIffTailQuiet(s: seq<Byte>)
    ensures SplitCuts(s, 0) == SpecCuts(s) <==> TailQuiet(s, 0)
  {
    var l := Lex(Top, s, 0);
    if 0 < l.resume < |s| {
      NoCutsIffQuiet(s, l.resume);
      assert |SplitCuts(s, 0)| == |l.cuts| + |SplitCuts(s, l.resume)|;
    }
  }

  lemma ClosedQuotesMeetSpec(s: seq<Byte>)
    requires DollarQuotesClosed(s)
    ensures SplitCuts(s, 0) == SpecCuts(s)
  {
  }

  // An unclosed quote whose body is one semicolon: the splitter cuts inside it.
  lemma UnclosedQuoteCounterexample()
    ensures var s: seq<Byte> := [DOLLAR, 97, DOLLAR, SEMICOLON];
            SpecCuts(s) == [] && SplitCuts(s, 0) == [3]
  {
    var s: seq<Byte> := [DOLLAR, 97, DOLLAR, SEMICOLON];
    var a: Byte := 97;
    assert IsTagByte(a) && [] + [a] == [a];
    assert Lex(Top, s, 0) == Lex(Tag([]), s, 1) == Lex(Tag([a]), s, 2) == Lex(Body([a], 3), s, 3);
    assert Lex(Body([a], 3), s, 3) == Lex(Body([a], 3), s, 4) == Lexed([], 3);
    assert Lex(Top, s, 3) == Lexed([3], 4);
    assert SplitCuts(s, 3) == [3];
  }

  // ---------- Splitting is compositional ----------

  function Shift(cuts: seq<nat>, d: nat): seq<nat> {
    seq(|cuts|, k requires 0 <= k < |cuts| => cuts[k] + d)
  }

  lemma ShiftAppend(x: seq<nat>, y: seq<nat>, d: nat)
    ensures Shift(x + y, d) == Shift(x, d) + Shift(y, d)
  {
  }

  function ShiftMode(m: Mode, d: nat): Mode {
    if m.Body? then Body(m.tag, m.start + d) else m
  }

  lemma StepShift(m: Mode, a: seq<Byte>, b: seq<Byte>, i: nat)
    requires i < |b|
    ensures Step(ShiftMode(m, |a|), a + b, |a| + i) == ShiftMode(Step(m, b, i), |a|)
  {
    assert (a + b)[|a| + i] == b[i];
    if m.Body? {
      var j := i + 1 - (|m.tag| + 2);
      if m.start <= j {
        assert (a + b)[|a| + j..|a| + i + 1] == b[j..i + 1];
      }
    }
  }

  // Lexing depends only on what lies ahead.
  lemma {:induction false} LexShift(m: Mode, a: seq<Byte>, b: seq<Byte>, i: nat)
    requires i <= |b|
    requires m.Body? ==> m.start <= i
    ensures Lex(ShiftMode(m, |a|), a + b, |a| + i) ==
            Lexed(Shift(Lex(m, b, i).cuts, |a|), Lex(m, b, i).resume + |a|)
    decreases |b| - i
  {
    if i < |b| {
      StepShift(m, a, b, i);
      LexShift(Step(m, b, i), a, b, i + 1);
      LexShiftStep(m, a, b, i);
    }
  }

  lemma LexShiftStep(m: Mode, a: seq<Byte>, b: seq<Byte>, i: nat)
    requires i < |b|
    requires m.Body? ==> m.start <= i
    requires Step(ShiftMode(m, |a|), a + b, |a| + i) == ShiftMode(Step(m, b, i), |a|)
    requires Lex(ShiftMode(Step(m, b, i), |a|), a + b, |a| + i + 1) ==
             Lexed(Shift(Lex(Step(m, b, i), b, i + 1).cuts, |a|), Lex(Step(m, b, i), b, i + 1).resume + |a|)
    ensures Lex(ShiftMode(m, |a|), a + b, |a| + i) ==
            Lexed(Shift(Lex(m, b, i).cuts, |a|), Lex(m, b, i).resume + |a|)
  {
    assert (a + b)[|a| + i] == b[i];
    CutShift(i, Lex(Step(m, b, i), b, i + 1).cuts, |a|);
  }

  lemma CutShift(i: nat, cuts: seq<nat>, d: nat)
    ensures Shift([i] + cuts, d) == [d + i] + Shift(cuts, d)
  {
  }

  lemma {:induction false} SplitShift(a: seq<Byte>, b: seq<Byte>, i: nat)
    requires i <= |b|
    ensures SplitCuts(a + b, |a| + i) == Shift(SplitCuts(b, i), |a|)
    decreases |b| - i
  {
    var l := Lex(Top, b, i);
    LexShift(Top, a, b, i);
    if i < l.resume < |b| {
      SplitShift(a, b, l.resume);
      ShiftAppend(l.cuts, SplitCuts(b, l.resume), |a|);
    }
  }

  lemma StepPrefix(m: Mode, a: seq<Byte>, b: seq<Byte>, i: nat)
    requires i < |a|
    ensures Step(m, a + b, i) == Step(m, a, i)
  {
    assert (a + b)[i] == a[i];
    if m.Body? {
      var j := i + 1 - (|m.tag| + 2);
      if m.start <= j {
        assert (a + b)[j..i + 1] == a[j..i + 1];
      }
    }
  }

  // The mode in which the automaton reaches the end of `s`.
  ghost function ModeAfter(m: Mode, s: seq<Byte>, i: nat): Mode
    requires i <= |s|
    decreases |s| - i
  {
    if i == |s| then m else ModeAfter(Step(m, s, i), s, i + 1)
  }

  ghost predicate EndsAtTop(s: seq<Byte>) {
    ModeAfter(Top, s, 0).Top?
  }

  // A semicolon that separates statements leaves the automaton at top level.
  lemma {:induction false} FinalCutEndsAtTop(m: Mode, s: seq<Byte>, i: nat)
    requires i < |s|
    requires m.Body? ==> m.start <= i
    requires |s| - 1 in Lex(m, s, i).cuts
    ensures ModeAfter(m, s, i).Top?
    decreases |s| - i
  {
    var m' := Step(m, s, i);
    var rest := Lex(m', s, i + 1).cuts;
    if i + 1 < |s| {
      assert |s| - 1 in rest;
      FinalCutEndsAtTop(m', s, i + 1);
    } else {
      assert rest == [] && IsCut(m, s[i]) && m'.Top?;
    }
  }

  // If `a` ends at top level, lexing `a + b` is lexing `a` and then starting over at `b`.
  lemma {:induction false} LexPrefix(m: Mode, a: seq<Byte>, b: seq<Byte>, i: nat)
    requires i <= |a|
    requires m.Body? ==> m.start <= i
    requires ModeAfter(m, a, i).Top?
    ensures Lex(m, a, i).resume == |a|
    ensures Lex(m, a + b, i) == Lexed(Lex(m, a, i).cuts + Lex(Top, a + b, |a|).cuts, Lex(Top, a + b, |a|).resume)
    decreases |a| - i
  {
    if i < |a| {
      StepPrefix(m, a, b, i);
      LexPrefix(Step(m, a, i), a, b, i + 1);
      LexPrefixStep(m, a, b, i);
    }
  }

  lemma LexPrefixStep(m: Mode, a: seq<Byte>, b: seq<Byte>, i: nat)
    requires i < |a|
    requires m.Body? ==> m.start <= i
    requires Step(m, a + b, i) == Step(m, a, i)
    requires Lex(Step(m, a, i), a, i + 1).resume == |a|
    requires Lex(Step(m, a, i), a + b, i + 1) ==
             Lexed(Lex(Step(m, a, i), a, i + 1).cuts + Lex(Top, a + b, |a|).cuts, Lex(Top, a + b, |a|).resume)
    ensures Lex(m, a, i).resume == |a|
    ensures Lex(m, a + b, i) == Lexed(Lex(m, a, i).cuts + Lex(Top, a + b, |a|).cuts, Lex(Top, a + b, |a|).resume)
  {
    assert (a + b)[i] == a[i];
    var rest, more := Lex(Step(m, a, i), a, i + 1).cuts, Lex(Top, a + b, |a|).cuts;
    assert ([i] + rest) + more == [i] + (rest + more);
  }

  lemma SplitCutsResume(s: seq<Byte>, before: seq<nat>, j: nat)
    requires 0 < j <= |s|
    requires Lex(Top, s, 0) == Lexed(before + Lex(Top, s, j).cuts, Lex(Top, s, j).resume)
    ensures SplitCuts(s, 0) == before + SplitCuts(s, j)
  {
    var l := Lex(Top, s, j);
    if j < l.resume < |s| {
      var more := SplitCuts(s, l.resume);
      assert (before + l.cuts) + more == before + (l.cuts + more);
    }
  }

  // A script that ends at top level is cut the same whatever follows, and what follows is cut
  // as if it stood alone.
  lemma SplitCutsAppend(a: seq<Byte>, b: seq<Byte>)
    requires EndsAtTop(a)
    ensures SplitCuts(a + b, 0) == SplitCuts(a, 0) + Shift(SplitCuts(b, 0), |a|)
  {
    LexPrefix(Top, a, b, 0);
    SplitShift(a, b, 0);
    if a == [] {
      assert a + b == b;
    } else {
      SplitCutsResume(a + b, SpecCuts(a), |a|);
    }
    assert SplitCuts(a, 0) == SpecCuts(a);
  }

  lemma {:induction false} ValidCutsShift(a: seq<Byte>, b: seq<Byte>, cuts: seq<nat>, start: nat)
    requires ValidCuts(b, cuts, start)
    ensures ValidCuts(a + b, Shift(cuts, |a|), |a| + start)
    decreases |cuts|
  {
    var sh := Shift(cuts, |a|);
    if cuts != [] {
      assert sh[1..] == Shift(cuts[1..], |a|);
      assert (a + b)[sh[0]] == b[cuts[0]];
      ValidCutsShift(a, b, cuts[1..], cuts[0] + 1);
    }
  }

  lemma {:induction false} PiecesShift(a: seq<Byte>, b: seq<Byte>, cuts: seq<nat>, start: nat)
    requires ValidCuts(b, cuts, start)
    requires ValidCuts(a + b, Shift(cuts, |a|), |a| + start)
    ensures Pieces(a + b, Shift(cuts, |a|), |a| + start) == Pieces(b, cuts, start)
    decreases |cuts|
  {
    var sh := Shift(cuts, |a|);
    if cuts == [] {
      assert (a + b)[|a| + start..] == b[start..];
    } else {
      assert sh[1..] == Shift(cuts[1..], |a|);
      PiecesShift(a, b, cuts[1..], cuts[0] + 1);
      assert (a + b)[|a| + start..|a| + cuts[0]] == b[start..cuts[0]];
    }
  }

  lemma SamePiece(a: seq<Byte>, ab: seq<Byte>, i: nat, j: nat)
    requires a <= ab && i <= j <= |a|
    ensures ab[i..j] == a[i..j]
  {
  }

  lemma OntoPieces(piece: seq<Byte>, rest: seq<seq<Byte>>, last: seq<seq<Byte>>)
    ensures [piece] + (rest + last) == ([piece] + rest) + last
  {
  }

  lemma {:induction false} PiecesAppend(a: seq<Byte>, ab: seq<Byte>, cuts: seq<nat>, more: seq<nat>, start: nat)
    requires a <= ab && ValidCuts(a, cuts, start) && ValidCuts(ab, more, |a|) && ValidCuts(ab, cuts + more, start)
    requires if cuts == [] then start == |a| else cuts[|cuts| - 1] == |a| - 1
    ensures Pieces(ab, cuts + more, start) == Pieces(a, cuts, start) + Pieces(ab, more, |a|)
    decreases |cuts|
  {
    if cuts == [] {
      assert cuts + more == more;
    } else {
      assert (cuts + more)[1..] == cuts[1..] + more;
      PiecesAppend(a, ab, cuts[1..], more, cuts[0] + 1);
      SamePiece(a, ab, start, cuts[0]);
      FirstPiece(ab, cuts + more, start);
      FirstPiece(a, cuts, start);
      OntoPieces(a[start..cuts[0]], Pieces(a, cuts[1..], cuts[0] + 1), Pieces(ab, more, |a|));
    }
  }

  lemma FirstPiece(s: seq<Byte>, cuts: seq<nat>, start: nat)
    requires ValidCuts(s, cuts, start) && cuts != []
    ensures Pieces(s, cuts, start) == [s[start..cuts[0]]] + Pieces(s, cuts[1..], cuts[0] + 1)
  {
  }

  lemma {:induction false} LastCut(s: seq<Byte>, cuts: seq<nat>, start: nat)
    requires ValidCuts(s, cuts, start) && |s| > 0 && |s| - 1 in cuts
    ensures cuts[|cuts| - 1] == |s| - 1
    decreases |cuts|
  {
    if |s| - 1 in cuts[1..] {
      LastCut(s, cuts[1..], cuts[0] + 1);
    } else {
      assert cuts[0] == |s| - 1;
    }
  }

  // A script that ends with a separating semicolon can be split by itself: the statements of
  // `a + b` are those of `a` followed by those of `b`, whatever `b` is.
  lemma SplitAppend(a: seq<Byte>, b: seq<Byte>)
    requires a != [] && |a| - 1 in SpecCuts(a)
    ensures ValidCuts(a + b, SplitCuts(a + b, 0), 0)
    ensures ValidCuts(a, SplitCuts(a, 0), 0) && ValidCuts(b, SplitCuts(b, 0), 0)
    ensures Pieces(a + b, SplitCuts(a + b, 0), 0) == Pieces(a, SplitCuts(a, 0), 0) + Pieces(b, SplitCuts(b, 0), 0)
  {
    FinalCutEndsAtTop(Top, a, 0);
    SplitCutsAppend(a, b);
    SplitCutsValid(a, 0);
    SplitCutsValid(b, 0);
    LexPrefix(Top, a, b, 0);
    LastCut(a, SplitCuts(a, 0), 0);
    ValidCutsShift(a, b, SplitCuts(b, 0), 0);
    PiecesShift(a, b, SplitCuts(b, 0), 0);
    SplitCutsValid(a + b, 0);
    PiecesAppend(a, a + b, SplitCuts(a, 0), Shift(SplitCuts(b, 0), |a|), 0);
  }

  // The statements with their semicolons make up the script again.
  lemma SplitRejoins(s: seq<Byte>)
    ensures ValidCuts(s, SplitCuts(s, 0), 0)
    ensures Rejoin(Pieces(s, SplitCuts(s, 0), 0), |SplitCuts(s, 0)|) == s
  {
    SplitCutsValid(s, 0);
    RejoinPieces(s, SplitCuts(s, 0), 0);
    assert s[0..] == s;
  }

  // ---------- Cuts and characters (section 3 of RFC 3629) ----------

  predicate Continuation(b: Byte) { 0x80 <= b <= 0xBF }

  // The number of bytes of the character that starts at `i`, or 0 if none is well-formed there.
  function CharLength(s: seq<Byte>, i: nat): (n: nat)
    requires i < |s|
    ensures n <= 4 && i + n <= |s|
  {
    var b := s[i];
    if b <= 0x7F then 1
    else if i + 1 >= |s| || !Continuation(s[i + 1]) then 0
    else if 0xC2 <= b <= 0xDF then 2
    else if i + 2 >= |s| || !Continuation(s[i + 2]) then 0
    else if 0xE0 <= b <= 0xEF then
      if (b == 0xE0 && s[i + 1] < 0xA0) || (b == 0xED && s[i + 1] > 0x9F) then 0 else 3
    else if i + 3 >= |s| || !Continuation(s[i + 3]) then 0
    else if 0xF0 <= b <= 0xF4 then
      if (b == 0xF0 && s[i + 1] < 0x90) || (b == 0xF4 && s[i + 1] > 0x8F) then 0 else 4
    else 0
  }

  ghost predicate ValidUtf8(s: seq<Byte>, i: nat)
    requires i <= |s|
    decreases |s| - i
  {
    i < |s| ==> CharLength(s, i) > 0 && ValidUtf8(s, i + CharLength(s, i))
  }

  // Is `k` the start of a character, or the end, when characters are read from `i` on?
  ghost predicate IsBoundary(s: seq<Byte>, i: nat, k: nat)
    requires i <= |s|
    decreases |s| - i
  {
    i == k || (i < |s| && CharLength(s, i) > 0 && IsBoundary(s, i + CharLength(s, i), k))
  }

  lemma {:induction false} AsciiIsBoundary(s: seq<Byte>, i: nat, k: nat)
    requires i <= k < |s| && ValidUtf8(s, i) && s[k] <= 0x7F
    ensures IsBoundary(s, i, k) && IsBoundary(s, i, k + 1)
    decreases |s| - i
  {
    if i < k { AsciiIsBoundary(s, i + CharLength(s, i), k); }
  }

  // In a well-formed script both ends of every statement are character boundaries, so taking
  // the slices cannot fail.
  lemma CutsOnBoundaries(s: seq<Byte>, c: nat)
    requires ValidUtf8(s, 0) && c in SplitCuts(s, 0)
    ensures c < |s| && IsBoundary(s, 0, c) && IsBoundary(s, 0, c + 1)
  {
    SplitCutsValid(s, 0);
    CutIsSemicolon(s, SplitCuts(s, 0), 0, c);
    AsciiIsBoundary(s, 0, c);
  }

  lemma {:induction false} CutIsSemicolon(s: seq<Byte>, cuts: seq<nat>, start: nat, c: nat)
    requires ValidCuts(s, cuts, start) && c in cuts
    ensures c < |s| && s[c] == SEMICOLON
    decreases |cuts|
  {
    if c != cuts[0] { CutIsSemicolon(s, cuts[1..], cuts[0] + 1, c); }
  }
}
