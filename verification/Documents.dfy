/**
  Reading a document: the scanner and the parser together, one token at a time, as the package's entry
  points run them, and the end-to-end round trip on the running objects.
 */
module Documents {
  import opened Wrappers
  import opened Utf8
  import opened Tokens
  import opened Document
  import opened Syntax
  import opened Lookahead
  import opened Tokenize
  import opened Scanner
  import opened Readers
  import opened Scans
  import opened Kinds
  import Machine
  import opened StackShape
  import opened Driver
  import opened ParserContext
  import opened Nodes
  import opened TextScan
  import opened RoundTrip
  import Recent
  import Printer

  // ---------- Tokens placed by the scanner ----------

  lemma {:induction false} LexemesConcat(a: seq<Token>, b: seq<Token>)
    ensures Lexemes(a + b) == Lexemes(a) + Lexemes(b)
  {
    if a == [] {
      assert a + b == b;
    } else {
      assert (a + b)[1..] == a[1..] + b;
      LexemesConcat(a[1..], b);
    }
  }

  lemma LexemesOne(t: Token)
    ensures Lexemes([t]) == [Lexed(t.id, t.data)]
  {
    assert [t][1..] == [];
  }

  /** Tokens for the rest of a scan nobody will look at. */
  function Invented(ls: seq<Lexed>): (ts: seq<Token>)
    ensures |ts| == |ls|
  {
    if ls == [] then [] else [Token(ls[0].id, ls[0].data, 0, 0)] + Invented(ls[1..])
  }

  lemma {:induction false} InventedLexemes(ls: seq<Lexed>)
    ensures Lexemes(Invented(ls)) == ls
  {
    if ls != [] {
      InventedLexemes(ls[1..]);
      assert Invented(ls)[1..] == Invented(ls[1..]);
      assert [ls[0]] + ls[1..] == ls;
    }
  }

  // ---------- One token ----------

  /** The scanner and the context share no object that either of them writes. */
  ghost predicate Apart(sc: Scanner, ctx: ParseContext)
    reads sc`r, sc`buf, ctx.nodes
  {
    sc !in Objects(ctx) && Objects(ctx) !! sc.Live()
  }

  ghost function Objects(ctx: ParseContext): set<object>
    reads ctx.nodes
  {
    ctx.Repr() + {ctx.recent, ctx.recent.tokens}
  }

  /** The next token as the parser gets it: kind, bytes and the place where the scanner stood. */
  method ScanToken(sc: Scanner, v2: bool) returns (e: Option<ScanError>, t: Token, lost: bool)
    requires sc.Valid() && Aligned(sc)
    modifies sc, sc.Live()
    ensures sc.Valid() && Onward(sc)
    ensures var l := NextToken(old(Readers.Unread(sc)), v2, old(At(sc)).pos == 0);
            if l.Lexeme? then
              && e.None? && t.id == l.id && Scannable(t.id) && Aligned(sc)
              && At(sc) == old(At(sc)).Past(l.n) && l.n <= |old(Readers.Unread(sc))|
              && (if lost then Peek(old(Readers.Unread(sc))[l.n..]) == Bad(InvalidRune)
                  else t.data == old(Readers.Unread(sc))[..l.n])
            else e == Some(l.e) && At(sc).err == old(At(sc)).err
  {
    hide Scanner.Valid, NextToken, Peek, Aligned;
    var line, column := sc.line, sc.column;
    TokenKind(Readers.Unread(sc), v2, At(sc).pos == 0);
    var id, d;
    id, e, d := Proceed(sc, v2, [], []);
    lost := d.None?;
    t := Token(id, if e.None? && d.Some? then d.value.Bytes() else [], line, column);
  }

  /** Scanning leaves the context alone. */
  method ScanBeside(sc: Scanner, ctx: ParseContext, v2: bool) returns (e: Option<ScanError>, t: Token, lost: bool)
    requires sc.Valid() && Aligned(sc) && ctx.Ready() && Apart(sc, ctx)
    modifies sc, sc.Live()
    ensures sc.Valid() && Onward(sc) && ctx.Ready() && Apart(sc, ctx)
    ensures ctx.Now() == old(ctx.Now()) && Objects(ctx) == old(Objects(ctx))
    ensures var l := NextToken(old(Readers.Unread(sc)), v2, old(At(sc)).pos == 0);
            if l.Lexeme? then
              && e.None? && t.id == l.id && Scannable(t.id) && Aligned(sc)
              && At(sc) == old(At(sc)).Past(l.n) && l.n <= |old(Readers.Unread(sc))|
              && (if lost then Peek(old(Readers.Unread(sc))[l.n..]) == Bad(InvalidRune)
                  else t.data == old(Readers.Unread(sc))[..l.n])
            else e == Some(l.e) && At(sc).err == old(At(sc)).err
  {
    hide NextToken, Peek, Aligned, Scanner.Valid, NodeStack.Valid, Recent.RecentTokens.Valid;
    e, t, lost := ScanToken(sc, v2);
  }

  /** Parsing leaves the scanner alone. */
  method OfferBeside(sc: Scanner, ctx: ParseContext, t: Token) returns (o: Machine.Outcome)
    requires sc.Valid() && ctx.Ready() && Shape(ctx.View()) && Apart(sc, ctx) && Scannable(t.id)
    modifies Objects(ctx)
    ensures sc.Valid() && At(sc) == old(At(sc)) && sc.r == old(sc.r) && sc.buf == old(sc.buf) && sc.base == old(sc.base)
    ensures ctx.Ready() && Apart(sc, ctx) && fresh(Objects(ctx) - old(Objects(ctx)))
    ensures Machine.ContextResult(ctx.Now(), o) == ParseTokens(old(ctx.Now()), [t])
    ensures Sound(o) && !o.Reenter? && (o.Ok? ==> Shape(ctx.View()))
  {
    hide ParseTokens, Shape, Reader.Rest, NodeStack.Valid, Recent.RecentTokens.Valid, Ahead, Size, Ordered;
    o := ctx.Offer(t);
  }

  // ---------- All tokens ----------

  /** What is left of a scan after the tokens ts. */
  lemma ScanGoesOn(goal: Scanned, ts: seq<Token>, t: Token, s: Bytes, v2: bool, start: bool, lost: bool)
    requires goal == Prepend(Lexemes(ts), ScanFrom(s, v2, start))
    requires var l := NextToken(s, v2, start);
             && l.Lexeme? && t.id == l.id
             && (if lost then Peek(s[l.n..]) == Bad(InvalidRune) else t.data == s[..l.n])
    ensures var l := NextToken(s, v2, start);
            if lost then goal == ScanFailed(InvalidRune)
            else goal == Prepend(Lexemes(ts + [t]), ScanFrom(s[l.n..], v2, false))
  {
    hide NextToken, Peek, ScanFrom, Prepend;
    var l := NextToken(s, v2, start);
    var one := Lexed(l.id, s[..l.n]);
    ScanStep(s, v2, start);
    GoesOn(Lexemes(ts), one, s, l.n, v2);
    if !lost {
      LexemesConcat(ts, [t]);
      LexemesOne(t);
    }
  }

  /** The end of a scan. */
  lemma ScanEnds(goal: Scanned, ts: seq<Token>, s: Bytes, v2: bool, start: bool)
    requires goal == Prepend(Lexemes(ts), ScanFrom(s, v2, start)) && NextToken(s, v2, start).NoLexeme?
    ensures goal == if NextToken(s, v2, start).e.AtEnd? then Tokens(Lexemes(ts)) else ScanFailed(NextToken(s, v2, start).e)
  {
    hide NextToken, ScanFrom;
    ScanStep(s, v2, start);
    EndOfScan(Lexemes(ts), NextToken(s, v2, start).e);
  }

  /** What the parser makes of the tokens ts and the end of the input. */
  function ParseToEnd(v: Version, ts: seq<Token>, eof: Token): Machine.ContextResult {
    ParseTokens(Machine.Context(Machine.Initial(v), NO_TOKEN), ts + [eof])
  }

  /** A token the parser refuses decides the outcome, whatever the scan still has to offer. */
  lemma RefusedEarly(v: Version, ts: seq<Token>, t: Token, more: seq<Token>, eof: Token, c: Machine.Context)
    requires ParseTokens(Machine.Context(Machine.Initial(v), NO_TOKEN), ts) == Machine.ContextResult(c, Machine.Ok)
    requires !ParseTokens(c, [t]).o.Ok?
    ensures !ParseToEnd(v, ts + [t] + more, eof).o.Ok?
  {
    hide ParseTokens;
    ParseConcat(Machine.Context(Machine.Initial(v), NO_TOKEN), ts, [t] + (more + [eof]));
    ParseConcat(c, [t], more + [eof]);
    assert ts + [t] + more + [eof] == ts + ([t] + (more + [eof]));
  }

  lemma AcceptedSoFar(v: Version, ts: seq<Token>, t: Token, c: Machine.Context, r: Machine.ContextResult)
    requires ParseTokens(Machine.Context(Machine.Initial(v), NO_TOKEN), ts) == Machine.ContextResult(c, Machine.Ok)
    requires ParseTokens(c, [t]) == r
    ensures ParseToEnd(v, ts, t) == r
    ensures ParseTokens(Machine.Context(Machine.Initial(v), NO_TOKEN), ts + [t]) == r
  {
    hide ParseTokens;
    ParseConcat(Machine.Context(Machine.Initial(v), NO_TOKEN), ts, [t]);
  }

  /** The tokens of a scan that begins with ts and t. */
  lemma CompletedScan(goal: Scanned, ts: seq<Token>, t: Token, rest: Scanned)
    requires goal == Prepend(Lexemes(ts + [t]), rest) && goal.Tokens?
    ensures Lexemes(ts + [t] + Invented(rest.ts)) == goal.ts
  {
    LexemesConcat(ts + [t], Invented(rest.ts));
    InventedLexemes(rest.ts);
  }

  /**
    In the course of a reading: goal is the scan of the whole input, ts the tokens parsed so far, s the
    unread input and c the parser's context; lost tells that whitespace before an invalid rune was dropped.
   */
  ghost predicate Tracks(goal: Scanned, ts: seq<Token>, lost: bool, s: Bytes, v: Version, start: bool, c: Machine.Context) {
    if lost then goal == ScanFailed(InvalidRune) && Peek(s) == Bad(InvalidRune)
    else && goal == Prepend(Lexemes(ts), ScanFrom(s, v.V2?, start))
         && ParseTokens(Machine.Context(Machine.Initial(v), NO_TOKEN), ts) == Machine.ContextResult(c, Machine.Ok)
  }

  /** The end of a reading: success and the document are what parsing the tokens of the scan gives. */
  ghost predicate Settled(goal: Scanned, ok: bool, ts: seq<Token>, eof: Token, v: Version, s: Machine.PState) {
    if goal.ScanFailed? then !ok
    else && Lexemes(ts) == goal.ts && eof.id.EOF? && eof.data == []
         && ok == ParseToEnd(v, ts, eof).o.Ok? && (ok ==> s == ParseToEnd(v, ts, eof).c.s)
  }

  lemma TracksFromStart(s: Bytes, v: Version, start: bool)
    ensures Tracks(ScanFrom(s, v.V2?, start), [], false, s, v, start, Machine.Context(Machine.Initial(v), NO_TOKEN))
  {
    hide ScanFrom;
    PrependNothing(ScanFrom(s, v.V2?, start));
    NothingParsed(Machine.Context(Machine.Initial(v), NO_TOKEN));
  }

  lemma NothingParsed(c: Machine.Context)
    ensures ParseTokens(c, []) == Machine.ContextResult(c, Machine.Ok)
  {}

  /** The scan is over: with an error, or the end of the input is parsed. */
  lemma TracksToEnd(goal: Scanned, ts: seq<Token>, lost: bool, s: Bytes, v: Version, start: bool, c: Machine.Context,
                    eof: Token, r: Machine.ContextResult)
    requires Tracks(goal, ts, lost, s, v, start, c) && NextToken(s, v.V2?, start).NoLexeme?
    requires eof.id.EOF? && eof.data == []
    ensures var e := NextToken(s, v.V2?, start).e;
            && (!e.AtEnd? ==> Settled(goal, false, ts, eof, v, r.c.s))
            && (e.AtEnd? && r == ParseTokens(c, [eof]) ==> Settled(goal, r.o.Ok?, ts, eof, v, r.c.s))
  {
    hide NextToken, ScanFrom, ParseTokens, Prepend, ParseToEnd;
    if lost {
      InvalidNext(s, v.V2?, start);
    } else {
      ScanEnds(goal, ts, s, v.V2?, start);
      if r == ParseTokens(c, [eof]) {
        AcceptedSoFar(v, ts, eof, c, r);
      }
    }
  }

  /** One more token, scanned and parsed. */
  lemma TracksOn(goal: Scanned, ts: seq<Token>, lost: bool, s: Bytes, v: Version, start: bool, c: Machine.Context,
                 t: Token, gone: bool, c': Machine.Context)
    requires Tracks(goal, ts, lost, s, v, start, c)
    requires var l := NextToken(s, v.V2?, start);
             && l.Lexeme? && t.id == l.id
             && (if gone then Peek(s[l.n..]) == Bad(InvalidRune) else t.data == s[..l.n])
    requires ParseTokens(c, [t]) == Machine.ContextResult(c', Machine.Ok)
    ensures Tracks(goal, ts + [t], gone, s[NextToken(s, v.V2?, start).n..], v, false, c')
  {
    hide NextToken, ScanFrom, ParseTokens, Prepend, ParseToEnd, Peek;
    NotLost(goal, ts, lost, s, v, start, c);
    ScanGoesOn(goal, ts, t, s, v.V2?, start, gone);
    AcceptedSoFar(v, ts, t, c, Machine.ContextResult(c', Machine.Ok));
  }

  /** After a loss the scan fails. */
  lemma NotLost(goal: Scanned, ts: seq<Token>, lost: bool, s: Bytes, v: Version, start: bool, c: Machine.Context)
    requires Tracks(goal, ts, lost, s, v, start, c) && NextToken(s, v.V2?, start).Lexeme?
    ensures !lost
  {
    hide NextToken, ScanFrom, ParseTokens, Prepend;
    if lost {
      InvalidNext(s, v.V2?, start);
    }
  }

  /** A token the parser refuses; all is the whole scan, the rest of it placed anywhere. */
  lemma TracksToRefusal(goal: Scanned, ts: seq<Token>, lost: bool, s: Bytes, v: Version, start: bool, c: Machine.Context,
                        t: Token, gone: bool, eof: Token, p: Machine.PState) returns (all: seq<Token>)
    requires Tracks(goal, ts, lost, s, v, start, c)
    requires var l := NextToken(s, v.V2?, start);
             && l.Lexeme? && t.id == l.id
             && (if gone then Peek(s[l.n..]) == Bad(InvalidRune) else t.data == s[..l.n])
    requires !ParseTokens(c, [t]).o.Ok? && eof.id.EOF? && eof.data == []
    ensures Settled(goal, false, all, eof, v, p)
  {
    hide NextToken, ScanFrom, ParseTokens, Prepend, ParseToEnd, Peek;
    all := ts;
    NotLost(goal, ts, lost, s, v, start, c);
    ScanGoesOn(goal, ts, t, s, v.V2?, start, gone);
    if goal.Tokens? {
      var rest := ScanFrom(s[NextToken(s, v.V2?, start).n..], v.V2?, false);
      MoreTokens(goal, Lexemes(ts + [t]), rest);
      CompletedScan(goal, ts, t, rest);
      RefusedEarly(v, ts, t, Invented(rest.ts), eof, c);
      all := ts + [t] + Invented(rest.ts);
    }
  }

  lemma MoreTokens(goal: Scanned, ls: seq<Lexed>, rest: Scanned)
    requires goal == Prepend(ls, rest) && goal.Tokens?
    ensures rest.Tokens?
  {}

  /** One round of parseOne: done, with the outcome, or one token further. */
  method Round(sc: Scanner, ctx: ParseContext, v: Version, ghost goal: Scanned, ghost ts0: seq<Token>, ghost lost0: bool)
    returns (done: bool, ok: bool, ghost ts: seq<Token>, ghost lost: bool, ghost eof: Token)
    requires sc.Valid() && Aligned(sc) && ctx.Ready() && Shape(ctx.View()) && Apart(sc, ctx)
    requires Tracks(goal, ts0, lost0, Readers.Unread(sc), v, At(sc).pos == 0, ctx.Now())
    modifies sc, sc.Live(), Objects(ctx)
    ensures sc.Valid() && Onward(sc) && fresh(Objects(ctx) - old(Objects(ctx)))
    ensures done ==> Settled(goal, ok, ts, eof, v, ctx.View())
    ensures !done ==>
              && Aligned(sc) && ctx.Ready() && Shape(ctx.View()) && Apart(sc, ctx)
              && Tracks(goal, ts, lost, Readers.Unread(sc), v, At(sc).pos == 0, ctx.Now())
              && |Readers.Unread(sc)| < |old(Readers.Unread(sc))|
  {
    hide Scanner.Valid, ParseContext.Ready, NextToken, Peek, ParseTokens, Shape, Apart, Tracks, Settled;
    ghost var at, c := At(sc), ctx.Now();
    ghost var s, start := at.Rest(), at.pos == 0;
    ts, lost, eof, ok := ts0, lost0, END, false;
    var e, t, gone := ScanBeside(sc, ctx, v.V2?);
    if e.Some? {
      done := true;
      var r := Machine.Ok;
      var last := Token(EOF, [], sc.line, sc.column);
      if e.value.AtEnd? {
        r := OfferBeside(sc, ctx, last);
        ok := r.Ok?;
      }
      eof := last;
      TracksToEnd(goal, ts0, lost0, s, v, start, c, last, Machine.ContextResult(ctx.Now(), r));
      return;
    }
    RestPast(at, NextToken(s, v.V2?, start).n);
    var o := OfferBeside(sc, ctx, t);
    done := !o.Ok?;
    if done {
      ts := TracksToRefusal(goal, ts0, lost0, s, v, start, c, t, gone, eof, ctx.View());
    } else {
      TracksOn(goal, ts0, lost0, s, v, start, c, t, gone, ctx.Now());
      ts, lost := ts0 + [t], gone;
    }
  }

  /**
    parseOne: the outcome, and the document if there is one, are those of parsing the tokens of the scan
    of the whole input, as the scanner places them, and then the end of the input.
   */
  method ParseOne(sc: Scanner, v: Version, inputSizeEstimate: int)
    returns (ok: bool, ctx: ParseContext, ghost ts: seq<Token>, ghost eof: Token)
    requires sc.Valid() && Aligned(sc) && !v.Auto?
    modifies sc, sc.Live()
    ensures fresh(ctx)
    ensures old(sc.err).Some? ==> ok == old(sc.err).value.AtEnd? && ctx.View() == Machine.Initial(v)
    ensures old(sc.err).None? ==>
              Settled(ScanFrom(old(Readers.Unread(sc)), v.V2?, old(At(sc)).pos == 0), ok, ts, eof, v, ctx.View())
  {
    hide Scanner.Valid, ParseContext.Ready, ScanFrom, Shape, Apart, Tracks, Settled, Aligned;
    ctx := NewContextBeside(sc, v, inputSizeEstimate);
    ts, eof := [], END;
    if sc.err.Some? {
      return sc.err.value.AtEnd?, ctx, ts, eof;
    }
    ghost var goal, lost := ScanFrom(Readers.Unread(sc), v.V2?, At(sc).pos == 0), false;
    TracksFromStart(Readers.Unread(sc), v, At(sc).pos == 0);
    InitialShape(v);
    var done := false;
    ok := false;
    while !done
      invariant sc.Valid() && Onward(sc) && fresh(Objects(ctx))
      invariant done ==> Settled(goal, ok, ts, eof, v, ctx.View())
      invariant !done ==>
                  && Aligned(sc) && ctx.Ready() && Shape(ctx.View()) && Apart(sc, ctx)
                  && Tracks(goal, ts, lost, Readers.Unread(sc), v, At(sc).pos == 0, ctx.Now())
      decreases !done, |Readers.Unread(sc)|
    {
      done, ok, ts, lost, eof := Round(sc, ctx, v, goal, ts, lost);
    }
  }

  /** A new context next to a scanner. */
  method NewContextBeside(sc: Scanner, v: Version, inputSizeEstimate: int) returns (ctx: ParseContext)
    requires sc.Valid()
    ensures sc.Valid() && Onward(sc) && At(sc) == old(At(sc)) && ctx.View() == Machine.Initial(v)
    ensures ctx.Ready() && ctx.Now() == Machine.Context(Machine.Initial(v), NO_TOKEN)
    ensures Apart(sc, ctx) && fresh(ctx) && fresh(Objects(ctx))
  {
    hide NodeStack.Valid, Recent.RecentTokens.Valid, Reader.Rest, Ahead, Size, Ordered;
    ctx := new ParseContext(inputSizeEstimate, v);
  }

  // ---------- End to end ----------

  /** The bytes of a printed document. */
  ghost function PrintedText(trees: seq<Tree>, lay: Layout): Bytes
    requires forall t | t in trees :: WellFormed(t)
  {
    Printer.Text(NodesTokens(Source(trees), 0, lay))
  }

  /** What the scanner and then the parser ask of printed trees. */
  ghost predicate ReadableTrees(trees: seq<Tree>, lay: Layout)
    requires forall t | t in trees :: WellFormed(t)
  {
    NodesClean(Source(trees), lay) && forall t | t in trees :: TreeOk(false, t)
  }

  /**
    A reading of a printed document yields its trees as they were printed, or fails exactly when they cannot
    be read back; it yields the trees themselves exactly when no hexadecimal value is annotated.
   */
  lemma SettledOnPrinted(trees: seq<Tree>, lay: Layout, ok: bool, ts: seq<Token>, eof: Token, s: Machine.PState)
    requires forall t | t in trees :: WellFormed(t)
    requires DocumentScans(Source(trees)) && Blank(lay.indent)
    requires Settled(ScanFrom(PrintedText(trees, lay), false, true), ok, ts, eof, V1, s)
    ensures ok <==> ReadableTrees(trees, lay)
    ensures var r := UnplaceResult(Machine.Result(s, Machine.Ok));
            ok ==> Yields(r, V1, PrintedAll(trees)) && (Yields(r, V1, trees) <==> forall t | t in trees :: TypesKept(t))
  {
    hide ScanFrom, NodesTokens, NodesClean, WellFormed, TreeOk, TypesKept, Yields, ParseTokens, Printer.Text;
    var printed := NodesTokens(Source(trees), 0, lay);
    TextReadBack(Source(trees), lay);
    if NodesClean(Source(trees), lay) {
      SameTokens(ts, printed);
      NodesAtOrigin(Source(trees), 0, lay);
      OriginUnplaced(printed);
      UnplaceSnoc(ts, eof);
      PrintedTokens(V1, trees, lay, ts + [eof]);
      var p := ParseToEnd(V1, ts, eof);
    }
  }

  /** Without nodes there is nothing to read. */
  lemma NothingPrinted(trees: seq<Tree>, lay: Layout)
    requires forall t | t in trees :: WellFormed(t)
    requires PrintedText(trees, lay) == [] && DocumentScans(Source(trees)) && Blank(lay.indent)
    ensures trees == []
  {
    hide WellFormed, NodesClean;
    TextReadBack(Source(trees), lay);
    assert ScanFrom([], false, true) == Tokens([]) by {
      NothingThere(true);
    }
  }

  /**
    Version 1, the whole way on the running objects: a printed document that a reader delivers in any
    pieces, into a buffer of any size from sixteen bytes on, is read back exactly when its trees can be
    read back at all, as the trees the text stands for; without annotated hexadecimal values these are the
    trees it was printed from.
   */
  method ReadBack(ghost trees: seq<Tree>, ghost lay: Layout, reader: Reader, b: array<byte>, inputSizeEstimate: int)
    returns (ok: bool, ctx: ParseContext)
    requires forall t | t in trees :: WellFormed(t)
    requires DocumentScans(Source(trees)) && Blank(lay.indent)
    requires reader.Rest() == PrintedText(trees, lay) && b.Length >= LEAST_CAPACITY
    modifies reader, b
    ensures ok <==> ReadableTrees(trees, lay)
    ensures var r := UnplaceResult(Machine.Result(ctx.View(), Machine.Ok));
            ok ==> Yields(r, V1, PrintedAll(trees)) && (Yields(r, V1, trees) <==> forall t | t in trees :: TypesKept(t))
  {
    hide ScanFrom, WellFormed, ReadableTrees, TypesKept, Yields, Settled, PrintedText, Reader.Rest, DocumentScans, Blank;
    var sc := new Scanner.NewBuffer(reader, b);
    ghost var ts, eof;
    ok, ctx, ts, eof := ParseOne(sc, V1, inputSizeEstimate);
    if sc.stream == [] {
      NothingPrinted(trees, lay);
      NothingYielded();
      NoTrees(lay);
    } else {
      SettledOnPrinted(trees, lay, ok, ts, eof, ctx.View());
    }
  }

  lemma NothingYielded()
    ensures Yields(UnplaceResult(Machine.Result(Machine.Initial(V1), Machine.Ok)), V1, [])
  {}

  lemma NoTrees(lay: Layout)
    ensures ReadableTrees([], lay)
  {}
}
