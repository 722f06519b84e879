/** The ring of recently parsed tokens. */
module Recent {
  import opened Utf8
  import opened Tokens

  const RECENT_TOKENS_COUNT: nat := 5

  /** The known tokens of ts, in order. */
  function Known(ts: seq<Token>): seq<Token> {
    if ts == [] then []
    else Known(ts[..|ts| - 1]) + if ts[|ts| - 1].id.Unknown? then [] else [ts[|ts| - 1]]
  }

  /** The last five of everything added, padded in front with cleared tokens. */
  function Window(all: seq<Token>): (w: seq<Token>)
    ensures |w| == RECENT_TOKENS_COUNT
  {
    seq(RECENT_TOKENS_COUNT, i requires 0 <= i < RECENT_TOKENS_COUNT =>
      var k := |all| - RECENT_TOKENS_COUNT + i;
      if k >= 0 then all[k] else NO_TOKEN)
  }

  /** The ring read from the head's successor on, where the oldest token stands. */
  function Ring(ts: seq<Token>, h: nat): (r: seq<Token>)
    requires h < |ts|
    ensures |r| == |ts|
  {
    ts[h + 1..] + ts[..h + 1]
  }

  lemma RingAt(ts: seq<Token>, h: nat, i: nat)
    requires |ts| == RECENT_TOKENS_COUNT && h < RECENT_TOKENS_COUNT && i < RECENT_TOKENS_COUNT
    ensures var n := ((h + i) % RECENT_TOKENS_COUNT + 1) % RECENT_TOKENS_COUNT;
            n == (h + i + 1) % RECENT_TOKENS_COUNT && Ring(ts, h)[i] == ts[n]
  {
    if h + 1 + i >= RECENT_TOKENS_COUNT {
      assert (h + i + 1) % RECENT_TOKENS_COUNT == h + i + 1 - RECENT_TOKENS_COUNT;
    }
  }

  /** A token written over the oldest one becomes the newest. */
  lemma Rotated(was: seq<Token>, h: nat, t: Token)
    requires |was| == RECENT_TOKENS_COUNT && h < RECENT_TOKENS_COUNT
    ensures var n := (h + 1) % RECENT_TOKENS_COUNT; Ring(was[n := t], n) == Ring(was, h)[1..] + [t]
  {
    if h + 1 < RECENT_TOKENS_COUNT {
      var n := h + 1;
      assert was[n := t][..n + 1] == was[..n] + [t] && was[n := t][n + 1..] == was[n + 1..];
      assert (was[n..] + was[..n])[1..] == was[n + 1..] + was[..n];
    } else {
      assert was[0 := t][..1] == [t] && was[0 := t][1..] == was[1..];
    }
  }

  class RecentTokens {
    const tokens: array<Token>
    var head: nat
    /** Everything added so far. */
    ghost var all: seq<Token>

    ghost predicate Valid()
      reads this, tokens
    {
      tokens.Length == RECENT_TOKENS_COUNT && head < RECENT_TOKENS_COUNT && Ring(tokens[..], head) == Window(all)
    }

    constructor ()
      ensures Valid() && fresh(tokens) && all == []
    {
      tokens := new Token[RECENT_TOKENS_COUNT](_ => NO_TOKEN);
      head, all := 0, [];
      new;
      assert Ring(tokens[..], 0) == Window([]);
    }

    method Add(t: Token)
      requires Valid()
      modifies this, tokens
      ensures Valid() && all == old(all) + [t]
    {
      hide Window, Ring;
      WindowSlides(all, t);
      ghost var was := tokens[..];
      Rotated(was, head, t);
      head := (head + 1) % RECENT_TOKENS_COUNT;
      tokens[head] := t;
      all := all + [t];
      assert tokens[..] == was[head := t];
    }

    /** The recent tokens that are known, oldest first. */
    method Get() returns (consec: seq<Token>)
      requires Valid()
      ensures consec == Known(Window(all))
    {
      hide Window, Ring;
      consec := [];
      var n := head;
      var i := 0;
      while i < tokens.Length
        invariant 0 <= i <= tokens.Length && n == (head + i) % RECENT_TOKENS_COUNT
        invariant consec == Known(Window(all)[..i])
      {
        RingAt(tokens[..], head, i);
        n := (n + 1) % RECENT_TOKENS_COUNT;
        assert Window(all)[..i + 1][..i] == Window(all)[..i];
        if tokens[n].id != Unknown {
          consec := consec + [tokens[n]];
        }
        i := i + 1;
      }
      assert Window(all)[..i] == Window(all);
    }
  }

  lemma WindowSlides(all: seq<Token>, t: Token)
    ensures Window(all + [t]) == Window(all)[1..] + [t]
  {}

  lemma KnownSnoc(ts: seq<Token>, t: Token)
    ensures Known(ts + [t]) == Known(ts) + if t.id.Unknown? then [] else [t]
  {
    assert (ts + [t])[..|ts|] == ts;
  }

  lemma {:induction false} NothingKnown(ts: seq<Token>)
    requires forall t | t in ts :: t.id.Unknown?
    ensures Known(ts) == []
  {
    if ts != [] {
      NothingKnown(ts[..|ts| - 1]);
    }
  }

  /** The token before the newest one, when the tokens added are known ones. */
  lemma PreviousToken(all: seq<Token>)
    requires all != [] && forall t | t in all :: t.Valid()
    ensures var w := Known(Window(all));
            && (|w| >= 2 <==> |all| >= 2)
            && (|all| >= 2 ==> w[|w| - 2] == all[|all| - 2])
  {
    var w := Window(all);
    KnownSnoc(w[..4], w[4]);
    assert w == w[..4] + [w[4]] && w[4] == all[|all| - 1];
    assert all[|all| - 1] in all;
    if |all| >= 2 {
      assert all[|all| - 2] in all;
      KnownSnoc(w[..3], w[3]);
      assert w[..4] == w[..3] + [w[3]] && w[3] == all[|all| - 2];
    } else {
      NothingKnown(w[..4]);
    }
  }
}
