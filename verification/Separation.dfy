/** The separation check of version 2: which neighbouring tokens are refused, and nothing else. */
module Separation {
  import opened Utf8
  import opened Tokens
  import opened Document
  import opened Machine
  import opened StackShape
  import opened Syntax
  import opened PrintParse
  import opened Driver

  /** Values and names, kind by kind. */
  predicate ValueKind(id: TokenID) {
    match id
    case BareIdentifier => true
    case RawString => true
    case QuotedString => true
    case Decimal => true
    case Hexadecimal => true
    case Octal => true
    case Binary => true
    case SuffixedDecimal => true
    case Boolean => true
    case Null => true
    case Keyword => true
    case _ => false
  }

  /** curr begins in the line and column in which prev ends. */
  predicate Meets(prev: Token, curr: Token) {
    curr.line == prev.line && curr.column - prev.column == |prev.data|
  }

  /** A value or a closing brace before a value, or a closing parenthesis before a slashdash. */
  predicate Clash(prev: TokenID, curr: TokenID) {
    || ((ValueKind(prev) || prev == BraceClose) && ValueKind(curr))
    || (prev == ParensClose && curr == TokenComment)
  }

  /**
    The parser reports a missing separator exactly in version 2, for a token that clashes with the one it
    meets; in that case the context is left alone.
   */
  lemma MissingSeparatorExactly(c: Context, t: Token)
    ensures var r := Parse(c, t);
            && (r.o == Fail(MissingSeparator) <==> c.s.version == V2 && Meets(c.prev, t) && Clash(c.prev.id, t.id))
            && (r.o == Fail(MissingSeparator) ==> r.c.s == c.s)
            && (r.o != Fail(MissingSeparator) ==> r.c.s == Step(c.s, t).s && r.o == Step(c.s, t).o)
  {
    hide Step;
    VersionStays(c.s, t);
  }

  lemma {:induction false} ContextStays(c: Context, ts: seq<Token>)
    requires Shape(c.s)
    ensures var r := ParseTokens(c, ts);
            && r.c.s.version == c.s.version
            && (r.o.Ok? ==> Shape(r.c.s) && r.c.prev == if ts == [] then c.prev else ts[|ts| - 1])
    decreases |ts|
  {
    hide Step, Shape;
    if ts != [] {
      var t := ts[0];
      var r := Parse(c, t);
      VersionStays(c.s, t);
      StepShape(c.s, t);
      FeedShape(c.s, t);
      if r.o.Reenter? {
        VersionStays(r.c.s, t);
        StepShape(r.c.s, t);
      }
      if FeedContext(c, t).o.Ok? {
        ContextStays(FeedContext(c, t).c, ts[1..]);
      }
    }
  }

  /** A clash ends every run of version 2 that gets there, whatever comes before and after. */
  lemma ClashEndsRun(c: Context, before: seq<Token>, p: Token, q: Token, after: seq<Token>)
    requires Shape(c.s) && c.s.version == V2 && Meets(p, q) && Clash(p.id, q.id)
    ensures var r := ParseTokens(c, before + [p]);
            var all := ParseTokens(c, before + [p] + ([q] + after));
            if r.o.Ok? then all.o == Fail(MissingSeparator) && all.c.s == r.c.s else all == r
  {
    hide ParseTokens, Parse, Shape;
    ParseConcat(c, before + [p], [q] + after);
    ContextStays(c, before + [p]);
    var r := ParseTokens(c, before + [p]);
    if r.o.Ok? {
      MissingSeparatorExactly(r.c, q);
      FirstFails(r.c, q, after);
    }
  }

  lemma FirstFails(c: Context, t: Token, ts: seq<Token>)
    requires Parse(c, t).o.Fail?
    ensures ParseTokens(c, [t] + ts) == Parse(c, t)
  {
    hide Parse;
  }

  /** And nothing else does: the error is that of the first clash, where everything before was accepted. */
  lemma {:induction false} ErrorIsClash(c: Context, ts: seq<Token>) returns (i: nat)
    requires Shape(c.s) && ParseTokens(c, ts).o == Fail(MissingSeparator)
    ensures i < |ts| && ParseTokens(c, ts[..i]).o.Ok? && c.s.version == V2
    ensures var prev := if i == 0 then c.prev else ts[i - 1]; Meets(prev, ts[i]) && Clash(prev.id, ts[i].id)
    decreases |ts|
  {
    hide Step, Shape, Parse;
    var t := ts[0];
    StepShape(c.s, t);
    FeedShape(c.s, t);
    VersionStays(c.s, t);
    MissingSeparatorExactly(c, t);
    var r := Parse(c, t);
    if r.o == Fail(MissingSeparator) {
      i := 0;
    } else {
      assert r.c.prev == t by { PrevIs(c, t); }
      if r.o.Reenter? {
        MissingSeparatorExactly(r.c, t);
        VersionStays(r.c.s, t);
        StepShape(r.c.s, t);
        PrevIs(r.c, t);
      }
      var r' := FeedContext(c, t);
      var j := ErrorIsClash(r'.c, ts[1..]);
      i := j + 1;
      assert ts[..i][1..] == ts[1..][..j];
    }
  }

  lemma PrevIs(c: Context, t: Token)
    ensures Parse(c, t).c.prev == t
  {
    hide Step;
  }

  lemma ValueKinds(v: Value, key: Bytes)
    requires Plain(v)
    ensures ValueKind(ValTok(v).id) && ValueKind(NameTok(key).id)
  {
    ValueReads(v);
    NameReads(key);
    hide ValTok, NameTok, Plain, ValueFromToken, ValueOk, NameOk;
  }

  /** The last token of an entry is its value, and the first one of an argument or property a value or name. */
  lemma EntryEnds(e: Entry)
    requires Plain(e.v.value)
    ensures var ts := EntryTokens(e);
            ts != [] && ValueKind(ts[|ts| - 1].id) && (e.Prop? || e.v.typ == [] ==> ValueKind(ts[0].id))
  {
    hide ValTok, NameTok, Plain, ValueKind, TypeTok;
    match e
    case Arg(v) => ValueKinds(v.value, []);
    case Prop(key, v) => ValueKinds(v.value, key);
  }

  /** Two entries with nothing between them, whatever stands before and after, are refused. */
  lemma JoinedEntries(before: seq<Token>, e: Entry, e': Entry, after: seq<Token>, all: seq<Token>)
    requires Plain(e.v.value) && Plain(e'.v.value) && (e'.Prop? || e'.v.typ == [])
    requires UnplaceAll(all) == before + EntryTokens(e) + (EntryTokens(e') + after)
    requires var i := |before| + |EntryTokens(e)|; 1 <= i < |all| && Meets(all[i - 1], all[i])
    ensures !ParseTokens(Context(Initial(V2), NO_TOKEN), all).o.Ok?
  {
    hide ParseTokens, EntryTokens, Plain, Shape, ValueKind, Meets, UnplaceAll;
    var i := |before| + |EntryTokens(e)|;
    EntryEnds(e);
    EntryEnds(e');
    UnplacedAt(all, i - 1);
    UnplacedAt(all, i);
    Joint(before, EntryTokens(e), EntryTokens(e'), after);
    InitialShape(V2);
    Around(all, i);
    ClashEndsRun(Context(Initial(V2), NO_TOKEN), all[..i - 1], all[i - 1], all[i], all[i + 1..]);
  }

  lemma Joint(before: seq<Token>, a: seq<Token>, b: seq<Token>, after: seq<Token>)
    requires a != [] && b != []
    ensures var ts, i := before + a + (b + after), |before| + |a|; i < |ts| && ts[i - 1] == a[|a| - 1] && ts[i] == b[0]
  {}

  lemma Around(ts: seq<Token>, i: nat)
    requires 1 <= i < |ts|
    ensures ts == ts[..i - 1] + [ts[i - 1]] + ([ts[i]] + ts[i + 1..])
  {}

  lemma {:induction false} UnplacedAt(ts: seq<Token>, i: nat)
    requires i < |ts|
    ensures UnplaceAll(ts)[i] == Unplace(ts[i])
  {
    if i > 0 {
      UnplacedAt(ts[1..], i - 1);
    }
  }
}
