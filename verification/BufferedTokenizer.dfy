// A window of the next few default-channel tokens, kept in a ring.
module BufferedTokenizers {
  import opened Tokens

  // Index of the k-th slot after index in a ring of the given size.
  function Slot(index: nat, k: nat, size: nat): (slot: nat)
    requires index < size && k <= size
    ensures slot < size
  {
    if index + k < size then index + k else index + k - size
  }

  lemma RemainderOfSmall(x: nat, size: nat)
    requires x < size
    ensures x % size == x
  {
  }

  lemma RemainderAfterWrap(x: nat, size: nat)
    requires size <= x < 2 * size
    ensures x % size == x - size
  {
    var q := x / size;
    assert 0 <= x - q * size < size;
    assert q == 1 by {
      assert (q - 1) * size == q * size - size;
      assert (q - 2) * size == q * size - 2 * size;
    }
  }

  lemma SlotIsRemainder(index: nat, k: nat, size: nat)
    requires index < size && k <= size
    ensures (index + k) % size == Slot(index, k, size)
  {
    if index + k < size {
      RemainderOfSmall(index + k, size);
    } else {
      RemainderAfterWrap(index + k, size);
    }
  }

  // The first n slots from index hold the stream elements from, from + 1, ...
  ghost predicate Window(ring: seq<Token>, index: nat, stream: seq<Token>, size: nat, from: nat, n: nat)
    requires index < |ring| && n <= |ring|
  {
    n == 0 || (
      && Window(ring, index, stream, size, from, n - 1)
      && ring[Slot(index, n - 1, |ring|)] == At(stream, from + n - 1, size))
  }

  lemma {:induction false} WindowAt(ring: seq<Token>, index: nat, stream: seq<Token>, size: nat, from: nat,
                                    n: nat, k: nat)
    requires index < |ring| && k < n <= |ring| && Window(ring, index, stream, size, from, n)
    ensures ring[Slot(index, k, |ring|)] == At(stream, from + k, size)
  {
    if k < n - 1 {
      WindowAt(ring, index, stream, size, from, n - 1, k);
    }
  }

  lemma {:induction false} WindowFrom(ring: seq<Token>, index: nat, stream: seq<Token>, size: nat, from: nat, n: nat)
    requires index < |ring| && n <= |ring|
    requires forall k :: 0 <= k < n ==> ring[Slot(index, k, |ring|)] == At(stream, from + k, size)
    ensures Window(ring, index, stream, size, from, n)
  {
    if n > 0 {
      WindowFrom(ring, index, stream, size, from, n - 1);
    }
  }

  // Overwriting the oldest slot with the next stream element moves the window on by one.
  lemma WindowMoves(ring: seq<Token>, index: nat, stream: seq<Token>, size: nat, from: nat)
    requires index < |ring| && Window(ring, index, stream, size, from, |ring|)
    ensures var next := Written(ring, index, stream, size, from + |ring|, 1);
      Window(next, Slot(index, 1, |ring|), stream, size, from + 1, |ring|)
  {
    var next, index' := Written(ring, index, stream, size, from + |ring|, 1), Slot(index, 1, |ring|);
    forall k | 0 <= k < |ring|
      ensures next[Slot(index', k, |ring|)] == At(stream, from + 1 + k, size)
    {
      WrittenSlot(ring, index, stream, size, from + |ring|, 1, if k + 1 < |ring| then k + 1 else 0);
      if k + 1 < |ring| {
        assert Slot(index', k, |ring|) == Slot(index, k + 1, |ring|);
        WindowAt(ring, index, stream, size, from, |ring|, k + 1);
      } else {
        assert Slot(index', k, |ring|) == Slot(index, 0, |ring|);
      }
    }
    WindowFrom(next, index', stream, size, from + 1, |ring|);
  }

  // Filling every slot opens the window on the first elements.
  lemma WindowOpens(ring: seq<Token>, stream: seq<Token>, size: nat)
    requires 0 < |ring|
    ensures Window(Written(ring, 0, stream, size, 0, |ring|), 0, stream, size, 0, |ring|)
  {
    forall k | 0 <= k < |ring|
      ensures Written(ring, 0, stream, size, 0, |ring|)[Slot(0, k, |ring|)] == At(stream, 0 + k, size)
    {
      WrittenSlot(ring, 0, stream, size, 0, |ring|, k);
    }
    WindowFrom(Written(ring, 0, stream, size, 0, |ring|), 0, stream, size, 0, |ring|);
  }

  // The ring after writing the stream elements from, from + 1, ... over its n oldest slots.
  ghost function Written(ring: seq<Token>, index: nat, stream: seq<Token>, size: nat, from: nat, n: nat)
    : (r: seq<Token>)
    requires index < |ring| && n <= |ring|
    ensures |r| == |ring|
  {
    if n == 0 then ring
    else Written(ring, index, stream, size, from, n - 1)[Slot(index, n - 1, |ring|) := At(stream, from + n - 1, size)]
  }

  lemma {:induction false} WrittenSlot(ring: seq<Token>, index: nat, stream: seq<Token>, size: nat, from: nat,
                                       n: nat, k: nat)
    requires index < |ring| && n <= |ring| && k < |ring|
    ensures Written(ring, index, stream, size, from, n)[Slot(index, k, |ring|)] ==
      if k < n then At(stream, from + k, size) else ring[Slot(index, k, |ring|)]
  {
    if n > 0 {
      WrittenSlot(ring, index, stream, size, from, n - 1, k);
      assert Slot(index, k, |ring|) == Slot(index, n - 1, |ring|) <==> k == n - 1;
    }
  }

  class BufferedTokenizer {
    const source: TokenSource
    const tokens: array<Token>
    var index: nat
    // How many tokens of the default channel Consume has dropped.
    ghost var consumed: nat

    // The whole default-channel stream, EOF left off.
    ghost function All(): seq<Token> {
      Visible(source.tokens)
    }

    // The source has handed out exactly the first n tokens of the stream.
    ghost predicate Loaded(n: nat)
      reads source
    {
      && source.Valid()
      && Visible(source.tokens[source.pos..]) == All()[if n < |All()| then n else |All()|..]
    }

    ghost predicate Valid()
      reads this, source, tokens
    {
      && index < tokens.Length
      && Loaded(consumed + tokens.Length)
      && Window(tokens[..], index, All(), |source.input|, consumed, tokens.Length)
    }

    // Fills the buffer for the first time.
    constructor (source: TokenSource, bufferSize: nat)
      requires 0 < bufferSize && source.Valid() && source.pos == 0
      modifies source
      ensures Valid() && fresh(tokens)
      ensures this.source == source && tokens.Length == bufferSize && consumed == 0
    {
      this.source := source;
      this.tokens := new Token[bufferSize](_ => EofToken(0));
      index := 0;
      consumed := 0;
      new;
      assert source.tokens[0..] == source.tokens;
      assert Loaded(0);
      WindowOpens(tokens[..], All(), |source.input|);
      Load(bufferSize, 0);
    }

    // Reads n default-channel tokens into the n oldest slots and skips the hidden ones.
    // The stream position to load from is the ghost argument `from`.
    method Load(n: nat, ghost from: nat)
      requires index < tokens.Length && n <= tokens.Length && Loaded(from)
      modifies this`index, source, tokens
      ensures Loaded(from + n)
      ensures index == Slot(old(index), n, tokens.Length)
      ensures tokens[..] == Written(old(tokens[..]), old(index), All(), |source.input|, from, n)
    {
      var i := 0;
      while i < n
        invariant 0 <= i <= n && index == old(index) && Loaded(from + i)
        invariant tokens[..] == Written(old(tokens[..]), index, All(), |source.input|, from, i)
        decreases |source.tokens| - source.pos, n - i
      {
        var token := Read(from + i);
        if token.channel != DEFAULT_CHANNEL {
          continue;
        }
        Store(i, token);
        i := i + 1;
      }
      SlotIsRemainder(index, i, tokens.Length);
      index := (index + i) % tokens.Length;
    }

    // One token from the source, hidden or not, when the first m tokens of the stream are loaded.
    method Read(ghost m: nat) returns (token: Token)
      requires Loaded(m)
      modifies source
      ensures token.channel != DEFAULT_CHANNEL ==> Loaded(m) && source.pos == old(source.pos) + 1
      ensures token.channel == DEFAULT_CHANNEL ==>
        token == At(All(), m, |source.input|) && Loaded(m + 1) && source.pos >= old(source.pos)
    {
      ghost var rest := source.tokens[source.pos..];
      token := source.NextToken();
      assert rest != [] ==> rest[1..] == source.tokens[source.pos..];
    }

    method Store(i: nat, token: Token)
      requires index < tokens.Length && i < tokens.Length
      modifies tokens
      ensures tokens[..] == old(tokens[..])[Slot(index, i, tokens.Length) := token]
    {
      SlotIsRemainder(index, i, tokens.Length);
      tokens[(index + i) % tokens.Length] := token;
    }

    method Consume()
      requires Valid()
      modifies this, source, tokens
      ensures Valid() && consumed == old(consumed) + 1
    {
      WindowMoves(tokens[..], index, All(), |source.input|, consumed);
      Load(1, consumed + tokens.Length);
      consumed := consumed + 1;
    }

    // The k-th token ahead; the source panics when k is not inside the buffer.
    function Get(k: nat): (token: Token)
      requires Valid() && k < tokens.Length
      reads this, source, tokens
      ensures token == At(All(), consumed + k, |source.input|)
    {
      SlotIsRemainder(index, k, tokens.Length);
      WindowAt(tokens[..], index, All(), |source.input|, consumed, tokens.Length, k);
      tokens[(index + k) % tokens.Length]
    }

    predicate IsEOF()
      requires Valid()
      reads this, source, tokens
      ensures IsEOF() <==> |All()| <= consumed
    {
      EofIsTheEnd();
      Get(0).kind == Eof
    }

    lemma EofIsTheEnd()
      requires Valid()
      ensures At(All(), consumed, |source.input|).kind == Eof <==> |All()| <= consumed
    {
      VisibleIsLexerOutput(source.tokens, |source.input|);
      if consumed < |All()| {
        TokenAt(All(), |source.input|, consumed);
      }
    }
  }
}
