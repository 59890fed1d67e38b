/**
 The block buffering shared by the Merkle-Damgard hash functions, over any compression function.

 MD_UPDATE compresses every block as soon as it is full and keeps the rest; MD_PAD appends 0x80
 and zeros so that only the length field is missing from the last block.
 */
module HashBuffer {
  import opened Arithmetic

  type Byte = x: int | 0 <= x < 256

  type Compression<!S> = (S, seq<Byte>) -> S

  /** What a context stands for: the chaining state, the blocks counted, and the bytes not yet compressed. */
  datatype Digest<S> = Digest(state: S, count: nat, pending: seq<Byte>)

  /** Compress the full blocks at the front of bytes. */
  function Compress<S>(f: Compression<S>, blockSize: nat, state: S, count: nat, bytes: seq<Byte>): (d: Digest<S>)
    requires blockSize > 0
    ensures |d.pending| < blockSize
    decreases |bytes|
  {
    if |bytes| < blockSize then Digest(state, count, bytes)
    else Compress(f, blockSize, f(state, bytes[..blockSize]), count + 1, bytes[blockSize..])
  }

  function Absorb<S>(f: Compression<S>, blockSize: nat, d: Digest<S>, data: seq<Byte>): (r: Digest<S>)
    requires blockSize > 0
  {
    Compress(f, blockSize, d.state, d.count, d.pending + data)
  }

  // ----- Chunking independence -----

  lemma {:induction false} CompressInParts<S>(f: Compression<S>, blockSize: nat, state: S, count: nat, x: seq<Byte>,
      y: seq<Byte>)
    requires blockSize > 0
    ensures Compress(f, blockSize, state, count, x + y) ==
      Absorb(f, blockSize, Compress(f, blockSize, state, count, x), y)
    decreases |x|
  {
    if |x| >= blockSize {
      assert (x + y)[..blockSize] == x[..blockSize] && (x + y)[blockSize..] == x[blockSize..] + y;
      CompressInParts(f, blockSize, f(state, x[..blockSize]), count + 1, x[blockSize..], y);
    }
  }

  /** Absorbing two chunks is absorbing their concatenation. */
  lemma AbsorbTwice<S>(f: Compression<S>, blockSize: nat, d: Digest<S>, x: seq<Byte>, y: seq<Byte>)
    requires blockSize > 0
    ensures Absorb(f, blockSize, Absorb(f, blockSize, d, x), y) == Absorb(f, blockSize, d, x + y)
  {
    CompressInParts(f, blockSize, d.state, d.count, d.pending + x, y);
    assert d.pending + x + y == d.pending + (x + y);
  }

  function AbsorbAll<S>(f: Compression<S>, blockSize: nat, d: Digest<S>, chunks: seq<seq<Byte>>): (r: Digest<S>)
    requires blockSize > 0
    decreases |chunks|
  {
    if chunks == [] then d else AbsorbAll(f, blockSize, Absorb(f, blockSize, d, chunks[0]), chunks[1..])
  }

  function Concat(chunks: seq<seq<Byte>>): seq<Byte> {
    if chunks == [] then [] else chunks[0] + Concat(chunks[1..])
  }

  /** Every way of chunking a message leaves the same state, count and remainder as one call. */
  lemma {:induction false} ChunkingIndependence<S>(f: Compression<S>, blockSize: nat, d: Digest<S>,
      chunks: seq<seq<Byte>>)
    requires blockSize > 0 && |d.pending| < blockSize
    ensures AbsorbAll(f, blockSize, d, chunks) == Absorb(f, blockSize, d, Concat(chunks))
    decreases |chunks|
  {
    if chunks == [] {
      assert d.pending + [] == d.pending;
    } else {
      ChunkingIndependence(f, blockSize, Absorb(f, blockSize, d, chunks[0]), chunks[1..]);
      AbsorbTwice(f, blockSize, d, chunks[0], Concat(chunks[1..]));
    }
  }

  // ----- What has been compressed -----

  /** The state after the first n blocks of a message. */
  function FoldBlocks<S>(f: Compression<S>, blockSize: nat, state: S, message: seq<Byte>, n: nat): S
    requires Times(n, blockSize) <= |message|
    decreases n
  {
    if n == 0 then state
    else f(FoldBlocks(f, blockSize, state, message, n - 1), message[Times(n - 1, blockSize)..Times(n, blockSize)])
  }

  lemma {:induction false} FoldFrom<S>(f: Compression<S>, blockSize: nat, state: S, message: seq<Byte>, n: nat)
    requires blockSize > 0 && Times(n + 1, blockSize) <= |message|
    ensures blockSize <= |message| && Times(n, blockSize) <= |message| - blockSize
    ensures FoldBlocks(f, blockSize, state, message, n + 1)
         == FoldBlocks(f, blockSize, f(state, message[..blockSize]), message[blockSize..], n)
  {
    if n > 0 {
      FoldFrom(f, blockSize, state, message, n - 1);
      assert message[blockSize..][Times(n - 1, blockSize)..Times(n, blockSize)] ==
        message[Times(n, blockSize)..Times(n + 1, blockSize)];
    } else {
      assert Times(1, blockSize) == blockSize && message[0..blockSize] == message[..blockSize];
    }
  }

  /** Compress folds exactly the whole blocks, counts them, and keeps what is left over. */
  lemma {:induction false} CompressIsFold<S>(f: Compression<S>, blockSize: nat, state: S, count: nat,
      message: seq<Byte>) returns (n: nat)
    requires blockSize > 0
    ensures Times(n, blockSize) <= |message| < Times(n, blockSize) + blockSize
    ensures Compress(f, blockSize, state, count, message) ==
      Digest(FoldBlocks(f, blockSize, state, message, n), count + n, message[Times(n, blockSize)..])
    decreases |message|
  {
    if |message| < blockSize {
      n := 0;
    } else {
      var rest := message[blockSize..];
      var m := CompressIsFold(f, blockSize, f(state, message[..blockSize]), count + 1, rest);
      n := m + 1;
      assert Times(n, blockSize) == Times(m, blockSize) + blockSize;
      FoldFrom(f, blockSize, state, message, m);
      assert rest[Times(m, blockSize)..] == message[Times(n, blockSize)..];
    }
  }

  // ----- Padding -----

  function Zeros(n: nat): (z: seq<Byte>)
    ensures |z| == n && forall i :: 0 <= i < n ==> z[i] == 0
  {
    seq(n, i => 0)
  }

  /** The message with its padding of k zeros, as far as the length field. */
  function Padded(message: seq<Byte>, k: nat): (r: seq<Byte>) {
    message + [0x80] + Zeros(k)
  }

  /** k zeros leave exactly size bytes free in the last block. */
  ghost predicate Fits(n: nat, k: nat, blockSize: nat, size: nat) {
    exists t: nat :: n + 1 + k + size == Times(t, blockSize)
  }

  /** Zeros that MD_PAD writes, given the number of bytes pending. */
  function ZeroCount(pending: nat, blockSize: nat, size: nat): (k: nat)
    requires pending < blockSize && 0 < size <= blockSize
  {
    if pending + 1 > blockSize - size then 2 * blockSize - size - pending - 1 else blockSize - size - pending - 1
  }

  /** They fit, and fewer would not. */
  lemma FewestZeros(n: nat, pending: nat, blocks: nat, blockSize: nat, size: nat)
    requires 0 < size <= blockSize && pending < blockSize && n == Times(blocks, blockSize) + pending
    ensures Fits(n, ZeroCount(pending, blockSize, size), blockSize, size)
    ensures forall k: nat :: Fits(n, k, blockSize, size) ==> ZeroCount(pending, blockSize, size) <= k
  {
    var k0 := ZeroCount(pending, blockSize, size);
    assert Times(blocks + 1, blockSize) == Times(blocks, blockSize) + blockSize;
    assert Times(blocks + 2, blockSize) == Times(blocks + 1, blockSize) + blockSize;
    assert n + 1 + k0 + size == Times(if pending + 1 > blockSize - size then blocks + 2 else blocks + 1, blockSize);
    forall k: nat | Fits(n, k, blockSize, size) ensures k0 <= k {
      var t: nat :| n + 1 + k + size == Times(t, blockSize);
      if t <= blocks { TimesMonotone(t, blocks, blockSize); }
      if t > blocks + 1 { TimesMonotone(blocks + 2, t, blockSize); }
    }
  }

  lemma {:induction false} TimesMonotone(i: nat, j: nat, n: nat)
    requires i <= j
    ensures Times(i, n) <= Times(j, n)
  {
    if i < j { TimesMonotone(i, j - 1, n); }
  }

  /** What MD_PAD makes of the pending bytes: the new state, and the last block up to the length field. */
  function Pad<S>(f: Compression<S>, blockSize: nat, state: S, pending: seq<Byte>, size: nat): (r: (S, seq<Byte>))
    requires |pending| < blockSize && 0 < size <= blockSize
    ensures |r.1| == blockSize - size
  {
    var begun := pending + [0x80];
    if |begun| > blockSize - size then (f(state, begun + Zeros(blockSize - |begun|)), Zeros(blockSize - size))
    else (state, begun + Zeros(blockSize - size - |begun|))
  }

  /** Padding compresses and keeps exactly what the padded message, with the fewest zeros, would. */
  lemma PadIsAbsorb<S>(f: Compression<S>, blockSize: nat, state: S, message: seq<Byte>, size: nat)
    requires 0 < size <= blockSize
    ensures var d := Compress(f, blockSize, state, 0, message);
      var (state', tail) := Pad(f, blockSize, d.state, d.pending, size);
      var p := Compress(f, blockSize, state, 0, Padded(message, ZeroCount(|d.pending|, blockSize, size)));
      p.state == state' && p.pending == tail
  {
    var d := Compress(f, blockSize, state, 0, message);
    var k := ZeroCount(|d.pending|, blockSize, size);
    var begun := d.pending + [0x80];
    assert Padded(message, k) == message + ([0x80] + Zeros(k));
    CompressInParts(f, blockSize, state, 0, message, [0x80] + Zeros(k));
    assert d.pending + ([0x80] + Zeros(k)) == begun + Zeros(k);
    var all := begun + Zeros(k);
    if |begun| > blockSize - size {
      assert all[..blockSize] == begun + Zeros(blockSize - |begun|);
      assert all[blockSize..] == Zeros(blockSize - size);
      assert Compress(f, blockSize, d.state, d.count, all) ==
        Compress(f, blockSize, f(d.state, all[..blockSize]), d.count + 1, all[blockSize..]);
    }
  }

  class Context<!S> {
    const f: Compression<S>
    const block: array<Byte>
    var index: nat
    var state: S
    var count: nat

    ghost predicate Valid()
      reads this
    {
      index < block.Length
    }

    ghost function Value(): Digest<S>
      reads this, block
      requires Valid()
    {
      Digest(state, count, block[..index])
    }

    constructor (f: Compression<S>, blockSize: nat, state: S)
      requires blockSize > 0
      ensures Valid() && fresh(block) && this.f == f && block.Length == blockSize
      ensures Value() == Digest(state, 0, [])
    {
      this.f, this.state, index, count := f, state, 0, 0;
      block := new Byte[blockSize];
    }

    /** memcpy of all of src to block + at. */
    method Copy(at: nat, src: seq<Byte>)
      requires at + |src| <= block.Length
      modifies block
      ensures block[..] == old(block[..at]) + src + old(block[at + |src|..])
    {
      for i := 0 to |src|
        invariant block[..] == old(block[..at]) + src[..i] + old(block[at + i..])
      {
        block[at + i] := src[i];
      }
    }

    /** MD_UPDATE. */
    method MdUpdate(input: seq<Byte>)
      requires Valid()
      modifies this, block
      ensures Valid() && Value() == Absorb(f, block.Length, old(Value()), input)
    {
      hide Times;
      var data := input;
      ghost var goal := Absorb(f, block.Length, Value(), input);
      if index > 0 {
        var left := block.Length - index;
        if |data| < left {
          Copy(index, data);
          index := index + |data|;
          return;
        }
        ghost var all := block[..index] + data;
        Copy(index, data[..left]);
        assert block[..] == all[..block.Length] && data[left..] == all[block.Length..];
        state := f(state, block[..]);
        count := count + 1;
        data := data[left..];
      }
      assert [] + data == data && block[..0] == [];
      while |data| >= block.Length
        invariant Compress(f, block.Length, state, count, data) == goal
        decreases |data|
      {
        state := f(state, data[..block.Length]);
        count := count + 1;
        data := data[block.Length..];
      }
      Copy(0, data);
      index := |data|;
    }

    /** memset of count zeros at block + at. */
    method Clear(at: nat, n: nat)
      requires at + n <= block.Length
      modifies block
      ensures block[..] == old(block[..at]) + Zeros(n) + old(block[at + n..])
    {
      for i := 0 to n
        invariant block[..] == old(block[..at]) + Zeros(i) + old(block[at + i..])
      {
        block[at + i] := 0;
      }
    }

    /** MD_PAD: the counter is left alone; block up to the length field is ready. */
    method MdPad(size: nat)
      requires Valid() && 0 < size <= block.Length
      modifies this`state, block
      ensures (state, block[..block.Length - size]) == old(Pad(f, block.Length, state, block[..index], size))
    {
      ghost var begun := block[..index] + [0x80];
      var i := index;
      block[i] := 0x80;
      i := i + 1;
      assert block[..i] == begun;
      if i > block.Length - size {
        Clear(i, block.Length - i);
        assert block[..] == begun + Zeros(block.Length - i);
        state := f(state, block[..]);
        i := 0;
      }
      ghost var before := block[..i];
      assert before == if i == 0 then [] else begun;
      assert [] + Zeros(block.Length - size) == Zeros(block.Length - size);
      Clear(i, block.Length - size - i);
      assert block[..block.Length - size] == before + Zeros(block.Length - size - i);
    }
  }

  /** state and tail are what compressing message, 0x80 and the fewest zeros that fit leaves behind. */
  ghost predicate IsPadded<S>(f: Compression<S>, blockSize: nat, init: S, message: seq<Byte>, size: nat, k: nat,
      state: S, tail: seq<Byte>)
    requires blockSize > 0
  {
    && Fits(|message|, k, blockSize, size) && (forall j: nat :: Fits(|message|, j, blockSize, size) ==> k <= j)
    && var d := Compress(f, blockSize, init, 0, Padded(message, k));
      d.state == state && d.pending == tail && |tail| == blockSize - size
  }

  lemma PadIsRight<S>(f: Compression<S>, blockSize: nat, init: S, message: seq<Byte>, size: nat) returns (k: nat)
    requires 0 < size <= blockSize
    ensures var d := Compress(f, blockSize, init, 0, message);
      var (state, tail) := Pad(f, blockSize, d.state, d.pending, size);
      IsPadded(f, blockSize, init, message, size, k, state, tail)
  {
    var d := Compress(f, blockSize, init, 0, message);
    k := ZeroCount(|d.pending|, blockSize, size);
    var blocks := CompressIsFold(f, blockSize, init, 0, message);
    PadIsAbsorb(f, blockSize, init, message, size);
    FewestZeros(|message|, |d.pending|, blocks, blockSize, size);
  }

  /** A whole message in any chunks, then the padding: state and last block are those of the padded message. */
  method HashUpToLength<S>(f: Compression<S>, blockSize: nat, init: S, chunks: seq<seq<Byte>>, size: nat)
    returns (state: S, tail: seq<Byte>, count: nat, ghost zeros: nat)
    requires 0 < size <= blockSize
    ensures IsPadded(f, blockSize, init, Concat(chunks), size, zeros, state, tail)
    ensures Times(count, blockSize) <= |Concat(chunks)| < Times(count, blockSize) + blockSize
  {
    hide Compress, AbsorbAll, Concat, Pad, IsPadded, Times;
    var ctx := new Context(f, blockSize, init);
    ghost var m, d0 := Concat(chunks), Digest(init, 0, []);
    for i := 0 to |chunks|
      invariant ctx.Valid() && ctx.f == f && ctx.block.Length == blockSize && fresh(ctx) && fresh(ctx.block)
      invariant AbsorbAll(f, blockSize, ctx.Value(), chunks[i..]) == AbsorbAll(f, blockSize, d0, chunks)
    {
      AbsorbNext(f, blockSize, ctx.Value(), chunks[i..]);
      assert chunks[i..][0] == chunks[i] && chunks[i..][1..] == chunks[i + 1..];
      ctx.MdUpdate(chunks[i]);
    }
    ChunkingIndependence(f, blockSize, d0, chunks);
    AbsorbNone(f, blockSize, ctx.Value());
    assert chunks[|chunks|..] == [] && [] + m == m;
    ghost var blocks := CompressIsFold(f, blockSize, init, 0, m);
    count := ctx.count;
    zeros := PadIsRight(f, blockSize, init, m, size);
    ctx.MdPad(size);
    state, tail := ctx.state, ctx.block[..blockSize - size];
  }

  lemma AbsorbNext<S>(f: Compression<S>, blockSize: nat, d: Digest<S>, chunks: seq<seq<Byte>>)
    requires blockSize > 0 && chunks != []
    ensures AbsorbAll(f, blockSize, d, chunks) ==
      AbsorbAll(f, blockSize, Absorb(f, blockSize, d, chunks[0]), chunks[1..])
  {}

  lemma AbsorbNone<S>(f: Compression<S>, blockSize: nat, d: Digest<S>)
    requires blockSize > 0
    ensures AbsorbAll(f, blockSize, d, []) == d
  {}

  // ----- Counters -----

  const WORD := 0x1_0000_0000_0000_0000

  /** MD_INCR: ++count_low with a carry into count_high, both 64 bits wide. */
  function MdIncr(high: nat, low: nat): (r: (nat, nat)) {
    var low' := (low + 1) % WORD;
    (if low' == 0 then (high + 1) % WORD else high, low')
  }

  /** The two words count modulo 2^128. */
  lemma MdIncrCounts(high: nat, low: nat)
    requires high < WORD && low < WORD
    ensures var (h, l) := MdIncr(high, low);
      h < WORD && l < WORD && h * WORD + l == (high * WORD + low + 1) % (WORD * WORD)
  {
  }

  /** A big-endian counter's value, and the number of values it has. */
  function Number(ctr: seq<Byte>): nat {
    if ctr == [] then 0 else Number(ctr[..|ctr| - 1]) * 256 + ctr[|ctr| - 1]
  }

  function Range(n: nat): (r: nat)
    ensures r > 0
  {
    if n == 0 then 1 else Range(n - 1) * 256
  }

  function Incremented(ctr: seq<Byte>): (r: seq<Byte>)
    ensures |r| == |ctr|
  {
    if ctr == [] then []
    else
      var n := |ctr| - 1;
      if ctr[n] < 255 then ctr[..n] + [ctr[n] + 1] else Incremented(ctr[..n]) + [0]
  }

  lemma {:induction false} NumberBelowRange(ctr: seq<Byte>)
    ensures Number(ctr) < Range(|ctr|)
  {
    if ctr != [] { NumberBelowRange(ctr[..|ctr| - 1]); }
  }

  /** Incrementing adds one modulo the number of values. */
  lemma {:induction false} IncrementedAddsOne(ctr: seq<Byte>)
    ensures Number(Incremented(ctr)) == if Number(ctr) + 1 == Range(|ctr|) then 0 else Number(ctr) + 1
  {
    if ctr != [] {
      var n := |ctr| - 1;
      var r := Incremented(ctr);
      NumberBelowRange(ctr[..n]);
      if ctr[n] < 255 {
        assert r[..n] == ctr[..n];
      } else {
        IncrementedAddsOne(ctr[..n]);
        assert r[..n] == Incremented(ctr[..n]);
      }
    }
  }

  /** ++ on a byte. */
  function NextByte(b: Byte): Byte { if b == 255 then 0 else b + 1 }

  /** INCREMENT: the last byte is incremented, and every byte that wraps to 0 carries into the one before. */
  method Increment(ctr: array<Byte>)
    requires ctr.Length > 0
    modifies ctr
    ensures ctr[..] == Incremented(old(ctr[..]))
  {
    var i := ctr.Length - 1;
    ghost var s := ctr[..];
    assert s[..i + 1] == s && s[i + 1..] == [];
    ctr[i] := NextByte(ctr[i]);
    while ctr[i] == 0 && i > 0
      invariant 0 <= i < ctr.Length && ctr[i] == NextByte(s[i])
      invariant ctr[..i] == s[..i]
      invariant Incremented(s) == Incremented(s[..i + 1]) + ctr[i + 1..]
    {
      assert s[..i + 1][..i] == s[..i];
      i := i - 1;
      ctr[i] := NextByte(ctr[i]);
    }
  }
}
