/**
 The streaming SHA-256: a block buffer filled in place, compressed when full, and
 padded at the end by feeding the padding through the same path.
 */
module Digest {
  import opened Prelude
  import opened Fips180

  const TWO_64: nat := 0x1_0000_0000_0000_0000

  lemma BlocksStep(data: Bytes, block: Bytes)
    requires |data| % 64 == 0 && |block| == 64
    ensures |data + block| % 64 == 0
    ensures Blocks(data + block) == Compress(Blocks(data), block)
  {
    var all := data + block;
    assert all[..|all| - 64] == data && all[|all| - 64..] == block;
  }

  /** The bit counter over `n` bytes; it wraps. */
  function Counted(n: nat): nat {
    (8 * n) % TWO_64
  }

  lemma CountedAdds(m: nat, n: nat)
    ensures Counted(m + n) == (Counted(m) + 8 * n) % TWO_64
  {
  }

  lemma NothingAbsorbed()
    ensures Blocks([]) == H0 && Counted(0) == 0
  {
  }

  lemma StartsEmpty(s: Sha256)
    requires s.block.Length == 64 && s.filled == 0 && s.totalBits == 0 && s.absorbed == []
    requires s.state == Blocks([])
    ensures s.Valid()
  {
    hide Blocks;
    assert s.block[..0] == [] && s.absorbed[0..] == [] && s.absorbed[..0] == [];
  }

  class Sha256 {
    const block: array<byte>
    var state: Fips180.State
    var filled: nat
    var totalBits: nat
    /** Everything absorbed so far, padding included. */
    ghost var absorbed: Bytes

    /** The state is that of the whole blocks absorbed, and the buffer holds the
        bytes after them. */
    ghost predicate Buffered()
      reads this, block
    {
      && block.Length == 64 && filled < 64
      && filled == |absorbed| % 64
      && block[..filled] == absorbed[|absorbed| - filled..]
      && state == Blocks(absorbed[..|absorbed| - filled])
    }

    ghost predicate Valid()
      reads this, block
    {
      Buffered() && totalBits == Counted(|absorbed|)
    }

    constructor ()
      ensures Valid() && fresh(block) && absorbed == []
    {
      hide *;
      NothingAbsorbed();
      // what the buffer holds past `filled` never reaches the hash
      state := H0;
      block := new byte[64];
      filled, totalBits, absorbed := 0, 0, [];
      new;
      StartsEmpty(this);
    }

    method Update(data: Bytes)
      requires Valid()
      modifies this, block
      ensures Valid() && absorbed == old(absorbed) + data
    {
      hide Blocks, Counted;
      CountedAdds(|absorbed|, |data|);
      totalBits := (totalBits + 8 * |data|) % TWO_64;
      ghost var before := absorbed;
      var rest := data;
      while rest != []
        invariant Buffered() && totalBits == Counted(|before| + |data|)
        invariant absorbed + rest == before + data
        decreases |rest|
      {
        var take := if 64 - filled < |rest| then 64 - filled else |rest|;
        Resplit(absorbed, rest, take);
        Absorb(rest[..take]);
        rest := rest[take..];
      }
      assert absorbed + [] == absorbed;
    }

    /** Copy what fits into the block, and compress the block once it is full. */
    method Absorb(piece: Bytes)
      requires Buffered() && |piece| <= 64 - filled
      modifies this`state, this`filled, this`absorbed, block
      ensures Buffered() && absorbed == old(absorbed) + piece
    {
      hide Blocks, Compress;
      ghost var done, held := absorbed[..|absorbed| - filled], block[..filled];
      CopyIn(piece);
      Grown(absorbed, filled, piece);
      FillsBlock(|absorbed|, |piece|);
      filled := filled + |piece|;
      absorbed := absorbed + piece;
      if filled == 64 {
        var full := block[..];
        assert full == held + piece;
        BlocksStep(done, full);
        CompressBlock(full);
        filled := 0;
        WholeAndNone(absorbed);
      }
    }

    method CopyIn(piece: Bytes)
      requires filled + |piece| <= block.Length
      modifies block
      ensures block[..filled + |piece|] == old(block[..filled]) + piece
    {
      forall i | 0 <= i < |piece| {
        block[filled + i] := piece[i];
      }
    }

    /** Absorb `data` behind its length. */
    method UpdateFramed(data: Bytes)
      requires Valid()
      modifies this, block
      ensures Valid() && absorbed == old(absorbed) + Framed(data)
    {
      hide Blocks;
      Update(BigEndian(|data|, 8));
      Update(data);
    }

    method CompressBlock(input: Bytes)
      requires |input| == 64
      modifies this`state
      ensures state == Compress(old(state), input)
    {
      hide Schedule, Rounds, WordOf, SmallSigma0, SmallSigma1, RotR, Plus;
      var w := new Word[64](_ => 0);
      for i := 0 to 16
        invariant state == old(state)
        invariant forall t :: 0 <= t < i ==> w[t] == Schedule(input, t)
      {
        w[i] := WordOf(input[4 * i], input[4 * i + 1], input[4 * i + 2], input[4 * i + 3]);
        ScheduleStarts(input, i);
      }
      for i := 16 to 64
        invariant state == old(state)
        invariant forall t :: 0 <= t < i ==> w[t] == Schedule(input, t)
      {
        var s0 := RotR(w[i - 15], 7) ^ RotR(w[i - 15], 18) ^ (w[i - 15] >> 3);
        var s1 := RotR(w[i - 2], 17) ^ RotR(w[i - 2], 19) ^ (w[i - 2] >> 10);
        ScheduleSteps(input, i);
        SmallSigmasAre(w[i - 15], w[i - 2]);
        w[i] := Plus(Plus(Plus(w[i - 16], s0), w[i - 7]), s1);
      }
      var after := RunRounds(input, w[..]);
      AddSwaps(state, after);
      state := Add(state, after);
    }

    method RunRounds(ghost input: Bytes, w: seq<Word>) returns (s: Fips180.State)
      requires |input| == 64 && |w| == 64
      requires forall t :: 0 <= t < 64 ==> w[t] == Schedule(input, t)
      ensures s == Rounds(state, input, 64)
    {
      hide Schedule, Rounds, RotR, Plus, BigSigma0, BigSigma1, Ch, Maj;
      var a, b, c, d := state.a, state.b, state.c, state.d;
      var e, f, g, h := state.e, state.f, state.g, state.h;
      RoundsStart(state, input);
      for i := 0 to 64
        invariant Fips180.State(a, b, c, d, e, f, g, h) == Rounds(state, input, i)
      {
        RoundsStep(state, input, i);
        BigSigmasAre(a, e);
        ChoicesAre(a, b, c, e, f, g);
        var s1 := RotR(e, 6) ^ RotR(e, 11) ^ RotR(e, 25);
        var ch := (e & f) ^ ((!e) & g);
        var t1 := Plus(Plus(Plus(Plus(h, s1), ch), K[i]), w[i]);
        var s0 := RotR(a, 2) ^ RotR(a, 13) ^ RotR(a, 22);
        var maj := (a & b) ^ (a & c) ^ (b & c);
        var t2 := Plus(s0, maj);
        h := g;
        g := f;
        f := e;
        e := Plus(d, t1);
        d := c;
        c := b;
        b := a;
        a := Plus(t1, t2);
      }
      s := Fips180.State(a, b, c, d, e, f, g, h);
    }

    /** Feed the one bit and zeros until the length field is next. */
    method Pad()
      requires Valid()
      modifies this, block
      ensures Valid() && filled == 56
      ensures absorbed == old(absorbed) + [0x80] + Zeros(ZeroBytes(|old(absorbed)|))
    {
      hide Blocks, Compress;
      ghost var message := absorbed;
      Update([0x80]);
      ghost var zeros := 0;
      assert absorbed == message + [0x80] + Zeros(zeros);
      while filled != 56
        invariant Valid() && absorbed == message + [0x80] + Zeros(zeros)
        invariant zeros <= ZeroBytes(|message|)
        decreases 64 - zeros
      {
        assert |absorbed| == |message| + 1 + zeros;
        ZerosReach(|message|, zeros);
        Update([0x00]);
        ZerosGrow(message, zeros);
        zeros := zeros + 1;
      }
      assert |absorbed| == |message| + 1 + zeros;
      ZerosFit(|message|, zeros);
    }

    /** Pad, record the message's own length, and render the state. For a message
        the length field has room for, this is SHA-256 of what was absorbed,
        however it was divided. */
    method Finish() returns (out: Bytes)
      requires Valid()
      modifies this, block
      ensures |out| == 32
      ensures 8 * |old(absorbed)| < TWO_64 ==> out == Fips180.Sha256(old(absorbed))
    {
      hide Blocks, Compress, DigestOf, BigEndian, Zeros, ZeroBytes, LeavesTheLength, Padding, Fips180.Sha256;
      ghost var message := absorbed;
      var bits := totalBits;
      Pad();
      var tail := BigEndian(bits, 8);
      var final := block[..56] + tail;
      LastBlock(absorbed, block[..56], tail);
      CompressBlock(final);
      assert state == Blocks(absorbed + tail);
      out := DigestOf(state);
      if 8 * |message| < TWO_64 {
        DigestIs(message, absorbed, tail);
      }
    }
  }

  lemma DigestIs(message: Bytes, padded: Bytes, tail: Bytes)
    requires padded == message + [0x80] + Zeros(ZeroBytes(|message|)) && tail == BigEndian(8 * |message|, 8)
    ensures |padded + tail| % 64 == 0
    ensures DigestOf(Blocks(padded + tail)) == Fips180.Sha256(message)
  {
    hide Blocks, DigestOf, Padding;
    PaddingIs(message, tail);
    PaddedIsWhole(message);
  }

  lemma PaddingIs(message: Bytes, tail: Bytes)
    requires tail == BigEndian(8 * |message|, 8)
    ensures message + [0x80] + Zeros(ZeroBytes(|message|)) + tail == message + Padding(|message|)
  {
    hide BigEndian, Zeros;
  }

  function Concat(chunks: seq<Bytes>): Bytes {
    if chunks == [] then [] else Concat(chunks[..|chunks| - 1]) + chunks[|chunks| - 1]
  }

  /** The hash of a message fed piece by piece is that of the whole, at every
      division into pieces. */
  method HashPieces(chunks: seq<Bytes>) returns (out: Bytes)
    ensures |out| == 32
    ensures 8 * |Concat(chunks)| < TWO_64 ==> out == Fips180.Sha256(Concat(chunks))
  {
    hide Blocks, Compress, Counted, Fips180.Sha256;
    var hasher := new Sha256();
    for i := 0 to |chunks|
      invariant hasher.Valid() && fresh(hasher) && fresh(hasher.block)
      invariant hasher.absorbed == Concat(chunks[..i])
    {
      hasher.Update(chunks[i]);
      assert chunks[..i + 1][..i] == chunks[..i];
    }
    assert chunks[..|chunks|] == chunks;
    out := hasher.Finish();
  }

  /** `data` behind its length as eight big-endian bytes. */
  function Framed(data: Bytes): Bytes {
    BigEndian(|data|, 8) + data
  }

  lemma Resplit(a: Bytes, rest: Bytes, take: nat)
    requires take <= |rest|
    ensures (a + rest[..take]) + rest[take..] == a + rest
  {
    assert rest == rest[..take] + rest[take..];
  }

  lemma Grown(a: Bytes, filled: nat, piece: Bytes)
    requires filled <= |a|
    ensures var b := a + piece;
            && b[..|b| - (filled + |piece|)] == a[..|a| - filled]
            && b[|b| - (filled + |piece|)..] == a[|a| - filled..] + piece
            && b == a[..|a| - filled] + (a[|a| - filled..] + piece)
  {
  }

  lemma WholeAndNone(a: Bytes)
    ensures a[..|a| - 0] == a && a[|a| - 0..] == []
  {
  }

  lemma FillsBlock(n: nat, k: nat)
    requires n % 64 + k <= 64
    ensures (n + k) % 64 == (if n % 64 + k == 64 then 0 else n % 64 + k)
  {
  }

  lemma ZerosGrow(message: Bytes, n: nat)
    ensures message + [0x80] + Zeros(n) + [0x00] == message + [0x80] + Zeros(n + 1)
  {
    assert Zeros(n) + [0x00] == Zeros(n + 1);
  }

  /** The padding loop is short of its end until the block has 56 bytes in it. */
  lemma ZerosReach(length: nat, zeros: nat)
    requires zeros <= ZeroBytes(length) && (length + 1 + zeros) % 64 != 56
    ensures zeros < ZeroBytes(length)
  {
  }

  lemma ZerosFit(length: nat, zeros: nat)
    requires zeros < 64 && (length + 1 + zeros) % 64 == 56
    ensures zeros == ZeroBytes(length)
  {
  }

  lemma LastBlock(a: Bytes, held: Bytes, tail: Bytes)
    requires |a| >= 56 && |a| % 64 == 56 && held == a[|a| - 56..] && |tail| == 8
    ensures |a + tail| % 64 == 0
    ensures Compress(Blocks(a[..|a| - 56]), held + tail) == Blocks(a + tail)
  {
    assert a[..|a| - 56] + (held + tail) == a + tail;
    BlocksStep(a[..|a| - 56], held + tail);
  }

  lemma ScheduleStarts(block: Bytes, t: nat)
    requires |block| == 64 && t < 16
    ensures Schedule(block, t) == WordOf(block[4 * t], block[4 * t + 1], block[4 * t + 2], block[4 * t + 3])
  {
  }

  lemma ScheduleSteps(block: Bytes, t: nat)
    requires |block| == 64 && 16 <= t < 64
    ensures Schedule(block, t) == Plus(Plus(Plus(Schedule(block, t - 16), SmallSigma0(Schedule(block, t - 15))),
                                            Schedule(block, t - 7)), SmallSigma1(Schedule(block, t - 2)))
  {
    hide Plus, SmallSigma0, SmallSigma1, WordOf;
  }

  lemma RoundsStart(s: Fips180.State, block: Bytes)
    requires |block| == 64
    ensures Rounds(s, block, 0) == s
  {
  }

  lemma RoundsStep(s: Fips180.State, block: Bytes, t: nat)
    requires |block| == 64 && t < 64
    ensures Rounds(s, block, t + 1) == Round(Rounds(s, block, t), K[t], Schedule(block, t))
  {
    hide Round, Schedule;
  }

  lemma SmallSigmasAre(x: Word, y: Word)
    ensures SmallSigma0(x) == RotR(x, 7) ^ RotR(x, 18) ^ (x >> 3)
    ensures SmallSigma1(y) == RotR(y, 17) ^ RotR(y, 19) ^ (y >> 10)
  {
    hide RotR;
  }

  lemma BigSigmasAre(x: Word, y: Word)
    ensures BigSigma0(x) == RotR(x, 2) ^ RotR(x, 13) ^ RotR(x, 22)
    ensures BigSigma1(y) == RotR(y, 6) ^ RotR(y, 11) ^ RotR(y, 25)
  {
    hide RotR;
  }

  lemma ChoicesAre(a: Word, b: Word, c: Word, e: Word, f: Word, g: Word)
    ensures Maj(a, b, c) == (a & b) ^ (a & c) ^ (b & c)
    ensures Ch(e, f, g) == (e & f) ^ ((!e) & g)
  {
  }

  lemma AddSwaps(x: Fips180.State, y: Fips180.State)
    ensures Add(x, y) == Add(y, x)
  {
  }
}
