/**
  Whole sessions with a scanner: any sequence of reads, looks ahead, marks and copies gives the same
  answers over a reader, in whatever pieces it delivers, as over one slice that holds the whole input.
 */
module Streaming {
  import opened Wrappers
  import opened Utf8
  import opened Lookahead
  import opened Tokenize
  import opened Scanner
  import opened Readers

  datatype Op = GetRune | PeekRune | PeekTwoRunes | SetMark | DropMark | CopyMarked

  datatype Answer = OneRune(p: Peeked) | TwoRunes(t: PeekedTwo) | Copied(data: Bytes) | NoAnswer

  /** A second rune may be asked for after a one-byte rune, and marked bytes while there is a mark. */
  predicate Allowed(c: Cursor, op: Op) {
    match op
    case PeekTwoRunes => c.Rest() == [] || (Peek(c.Rest()).Rune? && Peek(c.Rest()).size == 1)
    case DropMark => c.marks != []
    case CopyMarked => c.marks != [] && c.marks[|c.marks| - 1] <= c.pos <= |c.stream|
    case _ => true
  }

  /** The answer, and the place where the operation leaves the scanner, in terms of the whole input. */
  function AnswerOf(c: Cursor, op: Op): Answer
    requires Allowed(c, op)
  {
    match op
    case GetRune => OneRune(Peek(c.Rest()))
    case PeekRune => OneRune(Peek(c.Rest()))
    case PeekTwoRunes => TwoRunes(PeekTwo(c.Rest()))
    case CopyMarked => Copied(c.stream[c.marks[|c.marks| - 1]..c.pos])
    case _ => NoAnswer
  }

  function After(c: Cursor, op: Op): Cursor
    requires Allowed(c, op)
  {
    match op
    case GetRune => c.Past(if Peek(c.Rest()).Rune? then Peek(c.Rest()).size else 0)
    case SetMark => c.(marks := c.marks + [c.pos])
    case DropMark => c.(marks := c.marks[..|c.marks| - 1])
    case _ => c
  }

  predicate AllAllowed(c: Cursor, ops: seq<Op>)
    decreases |ops|
  {
    ops == [] || (Allowed(c, ops[0]) && AllAllowed(After(c, ops[0]), ops[1..]))
  }

  function Answers(c: Cursor, ops: seq<Op>): seq<Answer>
    requires AllAllowed(c, ops)
    decreases |ops|
  {
    if ops == [] then [] else [AnswerOf(c, ops[0])] + Answers(After(c, ops[0]), ops[1..])
  }

  /** One operation on the running scanner. */
  method Perform(sc: Scanner, op: Op) returns (a: Answer)
    requires sc.Valid() && Allowed(At(sc), op)
    modifies sc, sc.Live()
    ensures sc.Valid() && Onward(sc)
    ensures a == AnswerOf(old(At(sc)), op) && At(sc) == After(old(At(sc)), op)
  {
    hide Peek, Scanner.Valid, At;
    a := NoAnswer;
    match op
    case GetRune =>
      var p := Get(sc);
      a := OneRune(p);
    case PeekRune =>
      var p := Look(sc);
      a := OneRune(p);
    case PeekTwoRunes =>
      var t := LookTwo(sc);
      a := TwoRunes(t);
    case SetMark => Mark(sc);
    case DropMark => Unmark(sc);
    case CopyMarked =>
      var d := FromMark(sc);
      a := Copied(d.value.Bytes());
  }

  lemma Proceeds(c: Cursor, ops: seq<Op>, i: nat, c': Cursor, done: seq<Answer>)
    requires AllAllowed(c, ops) && i < |ops| && AllAllowed(c', ops[i..]) && Answers(c, ops) == done + Answers(c', ops[i..])
    ensures Allowed(c', ops[i]) && AllAllowed(After(c', ops[i]), ops[i + 1..])
    ensures Answers(c, ops) == (done + [AnswerOf(c', ops[i])]) + Answers(After(c', ops[i]), ops[i + 1..])
  {
    hide Allowed, After, AnswerOf;
    assert ops[i..][0] == ops[i] && ops[i..][1..] == ops[i + 1..];
    var rest := Answers(After(c', ops[i]), ops[i + 1..]);
    assert done + ([AnswerOf(c', ops[i])] + rest) == (done + [AnswerOf(c', ops[i])]) + rest;
  }

  /** A session: every answer is the one the whole input gives. */
  method PerformAll(sc: Scanner, ops: seq<Op>) returns (answers: seq<Answer>)
    requires sc.Valid() && AllAllowed(At(sc), ops)
    modifies sc, sc.Live()
    ensures sc.Valid() && Onward(sc) && answers == Answers(old(At(sc)), ops)
  {
    hide Scanner.Valid, At, Answers, AllAllowed, Allowed, AnswerOf, After;
    ghost var c := At(sc);
    answers := [];
    var i := 0;
    assert ops[0..] == ops && [] + Answers(c, ops) == Answers(c, ops);
    while i < |ops|
      invariant i <= |ops| && sc.Valid() && Onward(sc) && AllAllowed(At(sc), ops[i..])
      invariant Answers(c, ops) == answers + Answers(At(sc), ops[i..])
    {
      Proceeds(c, ops, i, At(sc), answers);
      var a := Perform(sc, ops[i]);
      answers := answers + [a];
      i := i + 1;
    }
    NoMore(At(sc), ops[i..]);
    assert answers + [] == answers;
  }

  lemma NoMore(c: Cursor, ops: seq<Op>)
    requires ops == [] && AllAllowed(c, ops)
    ensures Answers(c, ops) == []
  {}

  /** The error a scanner was constructed with has no part in this. */
  lemma {:induction false} ErrorIrrelevant(c: Cursor, e: Option<ScanError>, ops: seq<Op>)
    ensures AllAllowed(c.(err := e), ops) <==> AllAllowed(c, ops)
    ensures AllAllowed(c, ops) ==> Answers(c.(err := e), ops) == Answers(c, ops)
    decreases |ops|
  {
    hide Peek;
    if ops != [] && Allowed(c, ops[0]) {
      assert After(c.(err := e), ops[0]) == After(c, ops[0]).(err := e);
      ErrorIrrelevant(After(c, ops[0]), e, ops[1..]);
    }
  }

  /** Where a session begins. */
  function Beginning(input: Bytes): Cursor { Cursor(input, 0, [], None) }

  /**
    Streaming refines slices: a session over a reader, into a buffer of any size, and the same session over
    an array with the same bytes end with the same answers.
   */
  method SameSession(reader: Reader, b: array<byte>, input: array<byte>, ops: seq<Op>)
    returns (streamed: seq<Answer>, sliced: seq<Answer>)
    requires reader.Rest() == input[..] && b != input && b.Length >= LEAST_CAPACITY
    requires AllAllowed(Beginning(input[..]), ops)
    modifies reader, b
    ensures streamed == sliced == Answers(Beginning(old(input[..])), ops)
  {
    hide AllAllowed, Answers, Scanner.Valid, Reader.Rest;
    ghost var whole := Beginning(input[..]);
    var slice := new Scanner.NewSlice(input);
    sliced := PerformAll(slice, ops);
    var stream := new Scanner.NewBuffer(reader, b);
    ErrorIrrelevant(whole, stream.err, ops);
    streamed := PerformAll(stream, ops);
  }
}
