/**
 Incremental SHA-256 (FIPS 180-4).  However the message is cut into updates, the digest is that of the
 whole message: the state is the fold of the full blocks, and the buffer holds the bytes after them.
 */
module Sha256 {
  import opened Powers
  import opened Utf8

  // ---- 32-bit words ----

  /** A word; the operations below look at 32 bits and give 32 bits. */
  type Word = nat

  const WORD_LIMIT := 0x1_0000_0000

  datatype Gate = AndGate | XorGate

  function GateBit(gate: Gate, x: nat, y: nat): nat {
    match gate
    case AndGate => if x == 1 && y == 1 then 1 else 0
    case XorGate => if x != y then 1 else 0
  }

  /** The lowest `n` bits of the two words, combined bit by bit. */
  function Bitwise(gate: Gate, x: Word, y: Word, n: nat): Word {
    if n == 0 then 0 else Bitwise(gate, x / 2, y / 2, n - 1) * 2 + GateBit(gate, x % 2, y % 2)
  }

  function Xor(x: Word, y: Word): Word {
    Bitwise(XorGate, x, y, 32)
  }

  function And(x: Word, y: Word): Word {
    Bitwise(AndGate, x, y, 32)
  }

  function Not(x: Word): Word {
    Xor(x, WORD_LIMIT - 1)
  }

  function Add(x: Word, y: Word): Word {
    Wrapped(x + y)
  }

  /** `n` modulo the word size. */
  function Wrapped(n: nat): Word {
    if n < WORD_LIMIT then n else Wrapped(n - WORD_LIMIT)
  }

  lemma {:induction false} WrappedIsModulo(n: nat)
    ensures Wrapped(n) == n % WORD_LIMIT
  {
    if n >= WORD_LIMIT {
      WrappedIsModulo(n - WORD_LIMIT);
      assert n % WORD_LIMIT == (n - WORD_LIMIT) % WORD_LIMIT;
    }
  }

  function ShiftRight(x: Word, n: nat): Word {
    if n == 0 then x else ShiftRight(x, n - 1) / 2
  }

  function RotateRight(x: Word, n: nat): Word {
    if n == 0 then x
    else
      var y := RotateRight(x, n - 1);
      y / 2 + y % 2 * 0x8000_0000
  }

  // ---- the compression function, section 6.2.2 ----

  const K_0: seq<Word> := [
    0x428a2f98, 0x71374491, 0xb5c0fbcf, 0xe9b5dba5, 0x3956c25b, 0x59f111f1, 0x923f82a4, 0xab1c5ed5,
    0xd807aa98, 0x12835b01, 0x243185be, 0x550c7dc3, 0x72be5d74, 0x80deb1fe, 0x9bdc06a7, 0xc19bf174]

  const K_16: seq<Word> := [
    0xe49b69c1, 0xefbe4786, 0x0fc19dc6, 0x240ca1cc, 0x2de92c6f, 0x4a7484aa, 0x5cb0a9dc, 0x76f988da,
    0x983e5152, 0xa831c66d, 0xb00327c8, 0xbf597fc7, 0xc6e00bf3, 0xd5a79147, 0x06ca6351, 0x14292967]

  const K_32: seq<Word> := [
    0x27b70a85, 0x2e1b2138, 0x4d2c6dfc, 0x53380d13, 0x650a7354, 0x766a0abb, 0x81c2c92e, 0x92722c85,
    0xa2bfe8a1, 0xa81a664b, 0xc24b8b70, 0xc76c51a3, 0xd192e819, 0xd6990624, 0xf40e3585, 0x106aa070]

  const K_48: seq<Word> := [
    0x19a4c116, 0x1e376c08, 0x2748774c, 0x34b0bcb5, 0x391c0cb3, 0x4ed8aa4a, 0x5b9cca4f, 0x682e6ff3,
    0x748f82ee, 0x78a5636f, 0x84c87814, 0x8cc70208, 0x90befffa, 0xa4506ceb, 0xbef9a3f7, 0xc67178f2]

  const K: seq<Word> := K_0 + K_16 + K_32 + K_48

  datatype Hash = Hash(a: Word, b: Word, c: Word, d: Word, e: Word, f: Word, g: Word, h: Word)

  const INITIAL := Hash(0x6a09e667, 0xbb67ae85, 0x3c6ef372, 0xa54ff53a, 0x510e527f, 0x9b05688c, 0x1f83d9ab, 0x5be0cd19)

  const BLOCK := 64

  function WordAt(block: seq<Byte>, t: nat): Word
    requires |block| == BLOCK && t < 16
  {
    var b0: nat, b1: nat, b2: nat, b3: nat := block[4 * t], block[4 * t + 1], block[4 * t + 2], block[4 * t + 3];
    ((b0 * 0x100 + b1) * 0x100 + b2) * 0x100 + b3
  }

  function SmallSigma0(x: Word): Word {
    Xor(Xor(RotateRight(x, 7), RotateRight(x, 18)), ShiftRight(x, 3))
  }

  function SmallSigma1(x: Word): Word {
    Xor(Xor(RotateRight(x, 17), RotateRight(x, 19)), ShiftRight(x, 10))
  }

  function BigSigma0(x: Word): Word {
    Xor(Xor(RotateRight(x, 2), RotateRight(x, 13)), RotateRight(x, 22))
  }

  function BigSigma1(x: Word): Word {
    Xor(Xor(RotateRight(x, 6), RotateRight(x, 11)), RotateRight(x, 25))
  }

  function Choice(x: Word, y: Word, z: Word): Word {
    Xor(And(x, y), And(Not(x), z))
  }

  function Majority(x: Word, y: Word, z: Word): Word {
    Xor(Xor(And(x, y), And(x, z)), And(y, z))
  }

  function ScheduleStep(w16: Word, w15: Word, w7: Word, w2: Word): Word {
    Add(Add(Add(w16, SmallSigma0(w15)), w7), SmallSigma1(w2))
  }

  /** The message schedule. */
  function Schedule(block: seq<Byte>, t: nat): Word
    requires |block| == BLOCK && t < 64
  {
    if t < 16 then WordAt(block, t)
    else
      ScheduleStep(Schedule(block, t - 16), Schedule(block, t - 15), Schedule(block, t - 7), Schedule(block, t - 2))
  }

  function FirstSum(e: Word, f: Word, g: Word, h: Word, k: Word, w: Word): Word {
    Add(Add(Add(Add(h, BigSigma1(e)), Choice(e, f, g)), k), w)
  }

  function SecondSum(a: Word, b: Word, c: Word): Word {
    Add(BigSigma0(a), Majority(a, b, c))
  }

  function Round(v: Hash, k: Word, w: Word): Hash {
    var t1 := FirstSum(v.e, v.f, v.g, v.h, k, w);
    var t2 := SecondSum(v.a, v.b, v.c);
    Hash(Add(t1, t2), v.a, v.b, v.c, Add(v.d, t1), v.e, v.f, v.g)
  }

  function Rounds(v: Hash, block: seq<Byte>, t: nat): Hash
    requires |block| == BLOCK && t <= 64
  {
    if t == 0 then v else Round(Rounds(v, block, t - 1), K[t - 1], Schedule(block, t - 1))
  }

  function AddHash(x: Hash, y: Hash): Hash {
    Hash(Add(x.a, y.a), Add(x.b, y.b), Add(x.c, y.c), Add(x.d, y.d),
         Add(x.e, y.e), Add(x.f, y.f), Add(x.g, y.g), Add(x.h, y.h))
  }

  function Compress(v: Hash, block: seq<Byte>): Hash
    requires |block| == BLOCK
  {
    AddHash(v, Rounds(v, block, 64))
  }

  // ---- whole messages, sections 5.1.1 and 6.2 ----

  /** The hash of a whole number of blocks. */
  function Absorb(message: seq<Byte>): Hash
    requires |message| % BLOCK == 0
  {
    if message == [] then INITIAL
    else
      var last := |message| - BLOCK;
      Compress(Absorb(message[..last]), message[last..])
  }

  /** The length of the message in bits, as eight bytes, most significant first. */
  function LengthBytes(bits: nat): (s: seq<Byte>)
    ensures |s| == 8
  {
    seq(8, i requires 0 <= i < 8 => LengthByte(bits, i))
  }

  function LengthByte(bits: nat, i: nat): Byte
    requires i < 8
  {
    ShiftBytes(bits, 7 - i) % 0x100
  }

  function ShiftBytes(n: nat, count: nat): nat {
    if count == 0 then n else ShiftBytes(n, count - 1) / 0x100
  }

  const WORD64 := 0x1_0000_0000_0000_0000

  function Zeros(n: nat): (s: seq<Byte>)
    ensures |s| == n
  {
    seq(n, _ => 0)
  }

  /** The least number of zero bytes that leaves room for the length in the last block. */
  function PadZeros(length: nat): (k: nat)
    ensures k < BLOCK && (length + 1 + k + 8) % BLOCK == 0
  {
    (119 - length % BLOCK) % BLOCK
  }

  function Pad(message: seq<Byte>): (padded: seq<Byte>)
    ensures |padded| % BLOCK == 0
  {
    message + [0x80] + Zeros(PadZeros(|message|)) + LengthBytes(|message| * 8 % WORD64)
  }

  function HashBytes(v: Hash): seq<Byte> {
    WordBytes(v.a) + WordBytes(v.b) + WordBytes(v.c) + WordBytes(v.d)
    + WordBytes(v.e) + WordBytes(v.f) + WordBytes(v.g) + WordBytes(v.h)
  }

  function WordBytes(w: Word): seq<Byte> {
    [ShiftBytes(w, 3) % 0x100, ShiftBytes(w, 2) % 0x100, ShiftBytes(w, 1) % 0x100, w % 0x100]
  }

  function Digest(message: seq<Byte>): seq<Byte> {
    HashBytes(Absorb(Pad(message)))
  }

  // ---- absorbing in pieces ----

  function Full(message: seq<Byte>): (whole: seq<Byte>)
    ensures |whole| % BLOCK == 0
  {
    message[..|message| / BLOCK * BLOCK]
  }

  function Rest(message: seq<Byte>): (rest: seq<Byte>)
    ensures |rest| < BLOCK
  {
    message[|message| / BLOCK * BLOCK..]
  }

  lemma AbsorbBlock(v: Hash, whole: seq<Byte>, block: seq<Byte>)
    requires |whole| % BLOCK == 0 && |block| == BLOCK && v == Absorb(whole)
    ensures |whole + block| % BLOCK == 0 && Absorb(whole + block) == Compress(v, block)
  {
    AppendSlices(whole, block);
    OneMoreBlock(|whole|);
    AbsorbLast(whole + block, whole, block);
  }

  lemma OneMoreBlock(n: nat)
    requires n % BLOCK == 0
    ensures (n + BLOCK) % BLOCK == 0
  {
  }

  lemma CountWraps(a: nat, n: nat)
    ensures (a % WORD64 + n) % WORD64 == (a + n) % WORD64
  {
  }

  lemma AppendSlices(a: seq<Byte>, b: seq<Byte>)
    ensures (a + b)[..|a|] == a && (a + b)[|a|..] == b
  {
  }

  lemma AbsorbLast(message: seq<Byte>, whole: seq<Byte>, block: seq<Byte>)
    requires |whole| % BLOCK == 0 && |block| == BLOCK && |message| == |whole| + BLOCK
    requires message[..|whole|] == whole && message[|whole|..] == block
    ensures Absorb(message) == Compress(Absorb(whole), block)
  {
  }

  /** How full and rest of a message are recognised. */
  lemma SplitUnique(message: seq<Byte>, whole: seq<Byte>, rest: seq<Byte>)
    requires message == whole + rest && |whole| % BLOCK == 0 && |rest| < BLOCK
    ensures Full(message) == whole && Rest(message) == rest
  {
    assert |message| / BLOCK * BLOCK == |whole|;
  }

  // ---- the loops of one block ----

  /** `message_schedule`. */
  method MessageSchedule(block: seq<Byte>) returns (schedule: array<Word>)
    requires |block| == BLOCK
    ensures fresh(schedule) && schedule.Length == 64
    ensures forall t: nat | t < 64 :: schedule[t] == Schedule(block, t)
  {
    schedule := new Word[64](_ => 0);
    var index := 0;
    while index < 16
      invariant index <= 16 && forall t: nat | t < index :: schedule[t] == Schedule(block, t)
    {
      schedule[index] := WordAt(block, index);
      index := index + 1;
    }
    while index < 64
      invariant 16 <= index <= 64 && forall t: nat | t < index :: schedule[t] == Schedule(block, t)
    {
      schedule[index] :=
        ScheduleStep(schedule[index - 16], schedule[index - 15], schedule[index - 7], schedule[index - 2]);
      index := index + 1;
    }
  }

  function HashIn(state: array<Word>): Hash
    reads state
    requires state.Length == 8
  {
    Hash(state[0], state[1], state[2], state[3], state[4], state[5], state[6], state[7])
  }

  /** The rounds of `compress_scalar`. */
  method RunRounds(initial: Hash, schedule: array<Word>, ghost block: seq<Byte>) returns (v: Hash)
    requires |block| == BLOCK && schedule.Length == 64
    requires forall t: nat | t < 64 :: schedule[t] == Schedule(block, t)
    ensures v == Rounds(initial, block, 64)
  {
    var a, b, c, d := initial.a, initial.b, initial.c, initial.d;
    var e, f, g, h := initial.e, initial.f, initial.g, initial.h;
    var index := 0;
    while index < 64
      invariant index <= 64 && Hash(a, b, c, d, e, f, g, h) == Rounds(initial, block, index)
    {
      var t1 := FirstSum(e, f, g, h, K[index], schedule[index]);
      var t2 := SecondSum(a, b, c);
      h := g;
      g := f;
      f := e;
      e := Add(d, t1);
      d := c;
      c := b;
      b := a;
      a := Add(t1, t2);
      index := index + 1;
    }
    v := Hash(a, b, c, d, e, f, g, h);
  }

  // ---- the hasher ----

  class Hasher {
    const state: array<Word>
    const block: array<Byte>
    var used: nat
    var bytes: nat
    /** Everything hashed so far. */
    ghost var message: seq<Byte>

    ghost predicate Shape()
      reads `used
    {
      state.Length == 8 && block.Length == BLOCK && used <= BLOCK
    }

    /** The state has absorbed `whole`, and `part` waits in the buffer. */
    ghost predicate Holds(whole: seq<Byte>, part: seq<Byte>)
      reads `used, state, block
    {
      && Shape() && |whole| % BLOCK == 0 && HashIn(state) == Absorb(whole)
      && used == |part| && block[..used] == part
    }

    ghost predicate Valid()
      reads this, state, block
    {
      Holds(Full(message), Rest(message)) && bytes == |message| % WORD64
    }

    constructor ()
      ensures Valid() && message == [] && fresh(state) && fresh(block)
    {
      state, block := new Word[8](_ => 0), new Byte[BLOCK](_ => 0);
      used, bytes, message := 0, 0, [];
      new;
      hide Holds, Valid;
      var v := INITIAL;
      state[0], state[1], state[2], state[3] := v.a, v.b, v.c, v.d;
      state[4], state[5], state[6], state[7] := v.e, v.f, v.g, v.h;
      Empty();
    }

    /** A hasher that has seen nothing. */
    lemma Empty()
      requires Shape() && used == bytes == 0 && message == [] && HashIn(state) == INITIAL
      ensures Valid()
    {
      NothingYet();
    }

    /** `compress`: one more block into the state. */
    method CompressBlock(data: seq<Byte>)
      requires Shape() && |data| == BLOCK
      modifies state
      ensures HashIn(state) == Compress(old(HashIn(state)), data)
    {
      hide Rounds, Schedule, AddHash;
      var schedule := MessageSchedule(data);
      var before := HashIn(state);
      var v := RunRounds(before, schedule, data);
      var sum := AddHash(before, v);
      state[0], state[1], state[2], state[3] := sum.a, sum.b, sum.c, sum.d;
      state[4], state[5], state[6], state[7] := sum.e, sum.f, sum.g, sum.h;
    }

    method Store(data: seq<Byte>, at: nat)
      requires Shape() && at + |data| <= BLOCK
      modifies block
      ensures block[..at] == old(block[..at]) && block[at..at + |data|] == data
    {
      var i := 0;
      while i < |data|
        invariant i <= |data| && block[..at] == old(block[..at]) && block[at..at + i] == data[..i]
      {
        block[at + i] := data[i];
        i := i + 1;
      }
    }

    /** One more block behind what the state has absorbed. */
    method AbsorbNext(data: seq<Byte>, ghost whole: seq<Byte>)
      requires Shape() && |data| == BLOCK && |whole| % BLOCK == 0 && HashIn(state) == Absorb(whole)
      modifies state
      ensures |whole + data| % BLOCK == 0 && HashIn(state) == Absorb(whole + data)
    {
      ghost var v := HashIn(state);
      AbsorbBlock(v, whole, data);
      CompressBlock(data);
    }

    /** The loop over whole blocks. */
    method AbsorbAll(input: seq<Byte>, ghost whole: seq<Byte>) returns (rest: seq<Byte>)
      requires Shape() && |whole| % BLOCK == 0 && HashIn(state) == Absorb(whole)
      modifies state
      ensures rest == Rest(input) && |whole + Full(input)| % BLOCK == 0
      ensures HashIn(state) == Absorb(whole + Full(input))
    {
      rest := input;
      ghost var done := whole;
      while |rest| >= BLOCK
        invariant |done| % BLOCK == 0 && HashIn(state) == Absorb(done)
        invariant done + rest == whole + input && |done| >= |whole|
      {
        AbsorbNext(rest[..BLOCK], done);
        TakeDrop(done, rest);
        done := done + rest[..BLOCK];
        rest := rest[BLOCK..];
      }
      SplitAfter(whole, input, done, rest);
    }

    /** Whole blocks into the state, the rest into the buffer. */
    method UpdateBlocks(input: seq<Byte>, ghost whole: seq<Byte>)
      requires Holds(whole, [])
      modifies this`used, state, block
      ensures Holds(whole + Full(input), Rest(input))
    {
      var rest := AbsorbAll(input, whole);
      Store(rest, 0);
      used := |rest|;
      assert block[..used] == block[0..0 + |rest|];
    }

    /** The bytes of a block that is being filled up. */
    method FillUp(input: seq<Byte>, ghost part: seq<Byte>) returns (rest: seq<Byte>)
      requires Shape() && used == |part| < BLOCK && block[..used] == part
      modifies this`used, block
      ensures Shape() && used == if |part| + |input| < BLOCK then |part| + |input| else BLOCK
      ensures block[..used] == (part + input)[..used] && rest == (part + input)[used..]
    {
      var take := if BLOCK - used <= |input| then BLOCK - used else |input|;
      Store(input[..take], used);
      assert block[..used + take] == block[..used] + block[used..used + take];
      assert part + input == (part + input[..take]) + input[take..];
      used := used + take;
      rest := input[take..];
    }

    /** Fill up the block that is waiting; false when the input was too short for that. */
    method UpdatePartial(input: seq<Byte>, ghost whole: seq<Byte>, ghost part: seq<Byte>)
        returns (closed: bool, rest: seq<Byte>)
      requires Holds(whole, part) && 0 < used < BLOCK
      modifies this`used, state, block
      ensures closed <==> |part| + |input| >= BLOCK
      ensures !closed ==> Holds(whole, part + input)
      ensures closed ==> rest == (part + input)[BLOCK..] && Holds(whole + (part + input)[..BLOCK], [])
    {
      rest := FillUp(input, part);
      closed := used == BLOCK;
      if closed {
        assert block[..] == (part + input)[..BLOCK];
        AbsorbNext(block[..], whole);
        used := 0;
      } else {
        assert (part + input)[..used] == part + input;
      }
    }

    /** `update`: afterwards the hasher stands where it would after the whole message so far. */
    method Update(input: seq<Byte>)
      requires Valid()
      modifies this, state, block
      ensures Valid() && message == old(message) + input
    {
      hide Full, Rest, Holds;
      ghost var whole, part := Full(message), Rest(message);
      ghost var all := message + input;
      UpdateSplits(message, input);
      Advance(input, whole, part);
      assert Holds(Full(all), Rest(all));
      CountWraps(|message|, |input|);
      bytes := (bytes + |input|) % WORD64;
      message := all;
    }

    /** Put bytes behind those that wait in the buffer. */
    method Append(data: seq<Byte>, ghost part: seq<Byte>)
      requires Shape() && used == |part| && block[..used] == part && used + |data| <= BLOCK
      modifies this`used, block
      ensures Shape() && used == |part + data| && block[..used] == part + data
    {
      Store(data, used);
      assert block[..used + |data|] == block[..used] + block[used..used + |data|];
      used := used + |data|;
    }

    /** The full buffer goes into the state. */
    method AbsorbBuffer(ghost whole: seq<Byte>, ghost data: seq<Byte>)
      requires Holds(whole, data) && |data| == BLOCK
      modifies this`used, state
      ensures Holds(whole + data, [])
    {
      assert block[..] == data;
      AbsorbNext(block[..], whole);
      used := 0;
    }

    /** Room for the length behind the marker: zeros, the length, one block. */
    method PadShort(bits: nat, ghost whole: seq<Byte>, ghost marked: seq<Byte>)
      requires Holds(whole, marked) && used <= 56
      modifies this`used, state, block
      ensures Holds(whole + (marked + Zeros(56 - |marked|) + LengthBytes(bits)), [])
    {
      Append(Zeros(56 - used), marked);
      Append(LengthBytes(bits), marked + Zeros(56 - |marked|));
      AbsorbBuffer(whole, marked + Zeros(56 - |marked|) + LengthBytes(bits));
    }

    /** No room for the length: zeros to the end of the block, and a second block for it. */
    method PadLong(bits: nat, ghost whole: seq<Byte>, ghost marked: seq<Byte>)
      requires Holds(whole, marked) && 56 < used
      modifies this`used, state, block
      ensures Holds(whole + (marked + Zeros(BLOCK - |marked|)) + (Zeros(56) + LengthBytes(bits)), [])
    {
      Append(Zeros(BLOCK - used), marked);
      AbsorbBuffer(whole, marked + Zeros(BLOCK - |marked|));
      NothingBefore(Zeros(56));
      Append(Zeros(56), []);
      Append(LengthBytes(bits), Zeros(56));
      AbsorbBuffer(whole + (marked + Zeros(BLOCK - |marked|)), Zeros(56) + LengthBytes(bits));
    }

    /** The padding of `finish`. */
    method PadBuffer(bits: nat, ghost whole: seq<Byte>, ghost part: seq<Byte>)
      requires Holds(whole, part) && |part| < BLOCK
      modifies this`used, state, block
      ensures Holds(whole + PadTail(part, bits), [])
    {
      hide PadTail, Absorb;
      PadBlocks(whole, part, bits);
      Append([0x80], part);
      if used > 56 {
        PadLong(bits, whole, part + [0x80]);
      } else {
        PadShort(bits, whole, part + [0x80]);
      }
    }

    /** `finish`: the digest of everything hashed. */
    method Finish() returns (digest: seq<Byte>)
      requires Valid()
      modifies this, state, block
      ensures digest == Digest(old(message))
    {
      var bitLength := bytes * 8 % WORD64;
      BitsWrap(|message|);
      PadFromRest(message);
      PadBuffer(bitLength, Full(message), Rest(message));
      digest := HashBytes(HashIn(state));
    }

    /** The buffers after one update, in terms of what they held before. */
    method Advance(input: seq<Byte>, ghost whole: seq<Byte>, ghost part: seq<Byte>)
      requires Holds(whole, part) && |part| < BLOCK
      modifies this`used, state, block
      ensures Holds(whole + Full(part + input), Rest(part + input))
    {
      FirstBlock(whole, part, input);
      if used == 0 {
        UpdateBlocks(input, whole);
        return;
      }
      var closed, rest := UpdatePartial(input, whole, part);
      if closed {
        UpdateBlocks(rest, whole + (part + input)[..BLOCK]);
      }
    }
  }

  lemma NothingYet()
    ensures Full([]) == [] && Rest([]) == [] && Absorb([]) == INITIAL
  {
  }

  // ---- padding ----

  /** What padding adds to the bytes after the last full block. */
  function PadTail(part: seq<Byte>, bits: nat): (tail: seq<Byte>)
    requires |part| < BLOCK
    ensures |tail| == if |part| < 56 then BLOCK else 2 * BLOCK
  {
    part + [0x80] + Zeros(PadZeros(|part|)) + LengthBytes(bits)
  }

  lemma PadFromRest(message: seq<Byte>)
    ensures Pad(message) == Full(message) + PadTail(Rest(message), |message| * 8 % WORD64)
  {
    var whole, part := Full(message), Rest(message);
    var zeros, length := Zeros(PadZeros(|part|)), LengthBytes(|message| * 8 % WORD64);
    assert message == whole + part;
    assert PadZeros(|message|) == PadZeros(|part|);
    assert whole + part + [0x80] + zeros + length == whole + (part + [0x80] + zeros + length);
  }

  /** With room for the length, the tail is one block; otherwise it is two. */
  lemma PadBlocks(whole: seq<Byte>, part: seq<Byte>, bits: nat)
    requires |part| < BLOCK
    ensures |part| < 56 ==>
      whole + PadTail(part, bits) == whole + ((part + [0x80]) + Zeros(56 - |part + [0x80]|) + LengthBytes(bits))
    ensures |part| >= 56 ==>
      whole + PadTail(part, bits)
      == whole + ((part + [0x80]) + Zeros(BLOCK - |part + [0x80]|)) + (Zeros(56) + LengthBytes(bits))
  {
    if |part| >= 56 {
      assert Zeros(119 - |part|) == Zeros(63 - |part|) + Zeros(56);
      assert PadTail(part, bits) == ((part + [0x80]) + Zeros(63 - |part|)) + (Zeros(56) + LengthBytes(bits));
    }
  }

  lemma NothingBefore(a: seq<Byte>)
    ensures [] + a == a
  {
  }

  lemma BitsWrap(n: nat)
    ensures n % WORD64 * 8 % WORD64 == n * 8 % WORD64
  {
    var r := n % WORD64 * 8;
    assert n * 8 == n / WORD64 * 8 * WORD64 + r;
    Remainder(n * 8, n / WORD64 * 8 + r / WORD64, WORD64, r % WORD64);
  }

  lemma TakeDrop(done: seq<Byte>, rest: seq<Byte>)
    requires |rest| >= BLOCK
    ensures done + rest == (done + rest[..BLOCK]) + rest[BLOCK..]
  {
  }

  lemma Regroup(message: seq<Byte>, input: seq<Byte>)
    ensures message + input == Full(message) + (Rest(message) + input)
  {
    assert message == Full(message) + Rest(message);
  }

  /** How the whole blocks of buffer and input together are made up. */
  lemma FirstBlock(whole: seq<Byte>, part: seq<Byte>, input: seq<Byte>)
    requires |part| < BLOCK
    ensures part == [] ==> part + input == input
    ensures |part| + |input| < BLOCK ==>
      whole + Full(part + input) == whole && Rest(part + input) == part + input
    ensures |part| + |input| >= BLOCK ==>
      var first, rest := (part + input)[..BLOCK], (part + input)[BLOCK..];
      whole + first + Full(rest) == whole + Full(part + input) && Rest(rest) == Rest(part + input)
  {
    var all := part + input;
    if |all| >= BLOCK {
      var first, rest := all[..BLOCK], all[BLOCK..];
      FullAfter(all, first, rest);
      assert whole + first + Full(rest) == whole + (first + Full(rest));
    }
  }

  lemma UpdateSplits(message: seq<Byte>, input: seq<Byte>)
    ensures var all := Rest(message) + input;
      Full(message + input) == Full(message) + Full(all) && Rest(message + input) == Rest(all)
  {
    Regroup(message, input);
    FullAfter(message + input, Full(message), Rest(message) + input);
  }

  lemma FullAfter(message: seq<Byte>, whole: seq<Byte>, rest: seq<Byte>)
    requires message == whole + rest && |whole| % BLOCK == 0
    ensures Full(message) == whole + Full(rest) && Rest(message) == Rest(rest)
  {
    assert rest == Full(rest) + Rest(rest);
    assert whole + (Full(rest) + Rest(rest)) == (whole + Full(rest)) + Rest(rest);
    SplitUnique(message, whole + Full(rest), Rest(rest));
  }

  lemma SplitAfter(whole: seq<Byte>, input: seq<Byte>, done: seq<Byte>, rest: seq<Byte>)
    requires done + rest == whole + input && |rest| < BLOCK
    requires |done| % BLOCK == 0 && |whole| % BLOCK == 0 && |done| >= |whole|
    ensures done == whole + Full(input) && rest == Rest(input)
  {
    var k := |done| - |whole|;
    assert input == (whole + input)[|whole|..] == (done + rest)[|whole|..] == done[|whole|..] + rest;
    assert whole == (whole + input)[..|whole|] == (done + rest)[..|whole|] == done[..|whole|];
    assert |done[|whole|..]| % BLOCK == 0;
    SplitUnique(input, done[|whole|..], rest);
  }

  // ---- any partition ----

  /** Hashing the pieces one by one gives the digest of the whole message. */
  method DigestPieces(pieces: seq<seq<Byte>>) returns (digest: seq<Byte>)
    ensures digest == Digest(Flatten(pieces))
  {
    var hasher := new Hasher();
    var i := 0;
    while i < |pieces|
      invariant i <= |pieces|
      invariant hasher.Valid() && fresh(hasher) && fresh(hasher.state) && fresh(hasher.block)
      invariant hasher.message == Flatten(pieces[..i])
    {
      FlattenNext(pieces, i);
      hasher.Update(pieces[i]);
      i := i + 1;
    }
    assert pieces[..i] == pieces;
    digest := hasher.Finish();
  }
}
