/** The Luby-transform fountain codec of the Android plugin.

    An encoded block is the exclusive or of some source blocks.  The peeling decoder strips
    known source blocks from the received ones until one with a single unknown is left, which
    it then knows.  It succeeds exactly when every set of source blocks that could be missing
    is met by some received block in exactly one of its members: no matter in which order the
    blocks came, or how often. */
module Fountain {
  import opened Options
  import opened Sequences

  type Byte = bv8

  type Block = seq<Byte>

  // ---- Exclusive or ----

  /** xorInPlace: bytes of b beyond the end of a are ignored, and the other way round. */
  function Xor(a: Block, b: Block): (r: Block)
    ensures |r| == |a|
  {
    seq(|a|, i requires 0 <= i < |a| => if i < |b| then a[i] ^ b[i] else a[i])
  }

  function Zeros(size: nat): (r: Block)
    ensures |r| == size
  {
    seq(size, _ => 0)
  }

  lemma XorTwice(a: Block, b: Block)
    ensures Xor(Xor(a, b), b) == a
  {
  }

  lemma XorSwaps(a: Block, b: Block, c: Block)
    ensures Xor(Xor(a, b), c) == Xor(Xor(a, c), b)
  {
  }

  lemma XorWithZeros(b: Block)
    ensures Xor(Zeros(|b|), b) == b
  {
  }

  predicate Uniform(source: seq<Block>, size: nat) {
    forall i :: 0 <= i < |source| ==> |source[i]| == size
  }

  /** The exclusive or of the blocks in s among the first k source blocks. */
  function Combined(source: seq<Block>, s: set<nat>, k: nat, size: nat): (r: Block)
    requires k <= |source|
    ensures |r| == size
  {
    if k == 0 then Zeros(size)
    else
      var c := Combined(source, s, k - 1, size);
      if k - 1 in s then Xor(c, source[k - 1]) else c
  }

  lemma {:induction false} CombinedAgree(source: seq<Block>, s: set<nat>, t: set<nat>, k: nat, size: nat)
    requires k <= |source| && forall i :: 0 <= i < k ==> (i in s <==> i in t)
    ensures Combined(source, s, k, size) == Combined(source, t, k, size)
  {
    if k == 0 {
    } else {
      CombinedAgree(source, s, t, k - 1, size);
    }
  }

  /** Adding a member of the set once more takes it out. */
  lemma {:induction false} XorOut(source: seq<Block>, s: set<nat>, i: nat, k: nat, size: nat)
    requires i < k <= |source| && i in s
    ensures Xor(Combined(source, s, k, size), source[i]) == Combined(source, s - {i}, k, size)
  {
    var c := Combined(source, s, k - 1, size);
    if i == k - 1 {
      XorTwice(c, source[i]);
      CombinedAgree(source, s, s - {i}, k - 1, size);
    } else {
      XorOut(source, s, i, k - 1, size);
      if k - 1 in s {
        XorSwaps(c, source[k - 1], source[i]);
      }
    }
  }

  lemma {:induction false} XorIn(source: seq<Block>, s: set<nat>, i: nat, k: nat, size: nat)
    requires i < k <= |source| && i !in s
    ensures Xor(Combined(source, s, k, size), source[i]) == Combined(source, s + {i}, k, size)
  {
    XorOut(source, s + {i}, i, k, size);
    assert s + {i} - {i} == s;
    XorTwice(Combined(source, s + {i}, k, size), source[i]);
  }

  lemma {:induction false} NothingCombined(source: seq<Block>, k: nat, size: nat)
    requires k <= |source|
    ensures Combined(source, {}, k, size) == Zeros(size)
  {
    if k == 0 {
    } else {
      NothingCombined(source, k - 1, size);
    }
  }

  lemma {:induction false} OneCombined(source: seq<Block>, i: nat, size: nat)
    requires i < |source| && |source[i]| == size
    ensures Combined(source, {i}, |source|, size) == source[i]
  {
    NothingCombined(source, |source|, size);
    XorIn(source, {}, i, |source|, size);
    assert {} + {i} == {i};
    XorWithZeros(source[i]);
  }

  // ---- Splitting and reassembling ----

  /** The data length divided by the block size, rounded up. */
  function BlockCount(length: nat, size: nat): nat
    requires size > 0
  {
    (length + size - 1) / size
  }

  function BlockOf(data: seq<Byte>, i: nat, size: nat): (b: Block)
    ensures |b| == size
  {
    seq(size, p requires 0 <= p < size => if i * size + p < |data| then data[i * size + p] else 0)
  }

  /** The source blocks, the last one padded with zeros. */
  function Split(data: seq<Byte>, size: nat): (blocks: seq<Block>)
    requires size > 0
    ensures |blocks| == BlockCount(|data|, size) && Uniform(blocks, size)
  {
    seq(BlockCount(|data|, size), i requires 0 <= i < BlockCount(|data|, size) => BlockOf(data, i, size))
  }

  /** The first `total` bytes of the blocks in a row, and zeros beyond their end. */
  function Assembled(blocks: seq<Block>, total: nat, size: nat): (data: seq<Byte>)
    requires size > 0 && Uniform(blocks, size)
    ensures |data| == total
  {
    seq(total, p requires 0 <= p < total => if p / size < |blocks| then blocks[p / size][p % size] else 0)
  }

  lemma {:induction false} Multiples(a: nat, b: nat, size: nat)
    requires a < b
    ensures a * size + size <= b * size
  {
    assert (b - 1) * size + size == b * size;
    if a == b - 1 {
    } else {
      Multiples(a, b - 1, size);
    }
  }

  lemma Quotient(n: nat, i: nat, p: nat, size: nat)
    requires p < size && n == i * size + p
    ensures n / size == i && n % size == p
  {
    var q, r := n / size, n % size;
    assert n == q * size + r;
    if q > i {
      Multiples(i, q, size);
    } else if q < i {
      Multiples(q, i, size);
    }
  }

  lemma CountCovers(length: nat, size: nat, p: nat)
    requires size > 0 && p < length
    ensures p / size < BlockCount(length, size)
  {
    var q, k := p / size, BlockCount(length, size);
    assert q * size <= p;
    assert length + size - 1 == k * size + (length + size - 1) % size;
    if k < q {
      Multiples(k, q, size);
    }
  }

  /** The blocks cover the data, and no fewer would. */
  lemma CountIsLeast(length: nat, size: nat)
    requires size > 0
    ensures length <= BlockCount(length, size) * size
    ensures length > 0 ==> (BlockCount(length, size) - 1) * size < length
  {
    var k := BlockCount(length, size);
    assert length + size - 1 == k * size + (length + size - 1) % size;
    assert (k - 1) * size == k * size - size;
  }

  /** Byte p of block i is byte i*size+p of the data, or zero beyond its end. */
  lemma {:induction false} SplitEntry(data: seq<Byte>, size: nat, i: nat, p: nat)
    requires size > 0 && i < BlockCount(|data|, size) && p < size
    ensures i * size + p < |data| ==> Split(data, size)[i][p] == data[i * size + p]
    ensures i * size + p >= |data| ==> Split(data, size)[i][p] == 0
  {
    assert Split(data, size)[i] == BlockOf(data, i, size);
  }

  lemma {:induction false} AssembledSplitAt(data: seq<Byte>, size: nat, p: nat)
    requires size > 0 && p < |data|
    ensures Assembled(Split(data, size), |data|, size)[p] == data[p]
  {
    var q, r := p / size, p % size;
    assert p == q * size + r;
    CountCovers(|data|, size, p);
    assert Split(data, size)[q] == BlockOf(data, q, size);
    assert BlockOf(data, q, size)[r] == data[p];
  }

  /** Reassembling undoes splitting, whatever the length. */
  lemma {:induction false} AssembledSplit(data: seq<Byte>, size: nat)
    requires size > 0
    ensures Assembled(Split(data, size), |data|, size) == data
  {
    forall p | 0 <= p < |data|
      ensures Assembled(Split(data, size), |data|, size)[p] == data[p]
    {
      AssembledSplitAt(data, size, p);
    }
  }

  // ---- Encoded blocks ----

  datatype EncodedBlock = EncodedBlock(seed: int, sourceBlockCount: nat, totalLength: nat,
                                       sourceIndices: seq<nat>, payload: Block)

  function Indices(b: EncodedBlock): set<nat> {
    set i | i in b.sourceIndices
  }

  /** Block b is an encoding of the data. */
  predicate Encodes(b: EncodedBlock, data: seq<Byte>, size: nat)
    requires size > 0
  {
    && b.sourceBlockCount == BlockCount(|data|, size) && b.totalLength == |data|
    && b.payload == Combined(Split(data, size), Indices(b), BlockCount(|data|, size), size)
  }

  predicate AllEncode(blocks: seq<EncodedBlock>, data: seq<Byte>, size: nat)
    requires size > 0
  {
    forall j :: 0 <= j < |blocks| ==> Encodes(blocks[j], data, size)
  }

  // ---- When peeling reaches everything ----

  function All(k: nat): (all: set<nat>)
    ensures forall i :: i in all <==> 0 <= i < k
    ensures |all| == k
  {
    if k == 0 then {} else All(k - 1) + {k - 1}
  }

  /** No received block has exactly one member of u: nothing in u can ever be peeled. */
  predicate Stopping(cover: seq<set<nat>>, u: set<nat>) {
    forall j :: 0 <= j < |cover| ==> |cover[j] * u| != 1
  }

  /** No set of source blocks stops the peeling. */
  ghost predicate Solvable(cover: seq<set<nat>>, k: nat) {
    forall u :: u <= All(k) && u != {} ==> !Stopping(cover, u)
  }

  function Cover(blocks: seq<EncodedBlock>): (c: seq<set<nat>>)
    ensures |c| == |blocks|
  {
    seq(|blocks|, j requires 0 <= j < |blocks| => Indices(blocks[j]))
  }

  lemma SizeOfPart<T>(part: set<T>, whole: set<T>)
    requires part <= whole
    ensures |part| <= |whole| && (|part| == |whole| ==> part == whole)
  {
    assert whole == part + (whole - part);
  }

  lemma OnlyMember<T>(s: set<T>, x: T)
    requires |s| == 1 && x in s
    ensures s == {x}
  {
    SizeOfPart({x}, s);
  }

  /** How many source blocks of a received one are unknown. */
  function Unknown(cover: set<nat>, known: set<nat>): nat {
    |cover - known|
  }

  /** None of the first n received blocks reveals anything. */
  predicate Quiet(cover: seq<set<nat>>, known: set<nat>, n: nat) {
    n <= |cover| && forall j :: 0 <= j < n ==> Unknown(cover[j], known) != 1
  }

  lemma PartOfOne<T>(s: set<T>, x: T)
    requires s <= {x}
    ensures |s| == 1 <==> x in s
  {
    if x in s {
      assert s == {x};
    } else {
      assert s == {};
    }
  }

  lemma CoverWithin(cover: set<nat>, k: nat, known: set<nat>)
    requires cover <= All(k)
    ensures cover * (All(k) - known) == cover - known
  {
  }

  /** What one block reveals belongs to no set that stops the peeling. */
  lemma {:induction false} RevealedAvoidsStopping(cover: seq<set<nat>>, j: nat, u: set<nat>, known: set<nat>, i: nat)
    requires j < |cover| && Stopping(cover, u) && u !! known
    requires cover[j] - known <= {i} && i in cover[j]
    ensures i !in u
  {
    assert cover[j] * u <= {i};
    PartOfOne(cover[j] * u, i);
  }

  // ---- Seeds ----

  // Java's int: 32 bits, two's complement.
  function Wrapped(n: int): int {
    var low := n % 0x1_0000_0000;
    if low >= 0x8000_0000 then low - 0x1_0000_0000 else low
  }

  /** generateSeed: products and sum wrap around, and the mask keeps 16 bits. */
  function Seed(transferId: int, blockIndex: int): int {
    Wrapped(Wrapped(transferId * 31337) + Wrapped(blockIndex * 7919)) % 0x1_0000
  }

  lemma SameBits(a: int, b: int, q: int)
    requires a == b + q * 0x1_0000
    ensures a % 0x1_0000 == b % 0x1_0000
  {
    var d := q + b / 0x1_0000 - a / 0x1_0000;
    assert a % 0x1_0000 - b % 0x1_0000 == d * 0x1_0000;
  }

  lemma BitsApart(a: int, b: int) returns (q: int)
    requires a % 0x1_0000 == b % 0x1_0000
    ensures a == b + q * 0x1_0000
  {
    q := a / 0x1_0000 - b / 0x1_0000;
  }

  lemma LowBits(n: int)
    ensures Wrapped(n) % 0x1_0000 == n % 0x1_0000
  {
    var q := n / 0x1_0000_0000;
    SameBits(Wrapped(n), n, if n % 0x1_0000_0000 >= 0x8000_0000 then -(q + 1) * 0x1_0000 else -q * 0x1_0000);
  }

  lemma SeedIsSum(transferId: int, blockIndex: int)
    ensures Seed(transferId, blockIndex) == (transferId * 31337 + blockIndex * 7919) % 0x1_0000
  {
    var x, y := transferId * 31337, blockIndex * 7919;
    LowBits(x);
    LowBits(y);
    var p := BitsApart(Wrapped(x), x);
    var q := BitsApart(Wrapped(y), y);
    SameBits(Wrapped(x) + Wrapped(y), x + y, p + q);
    LowBits(Wrapped(x) + Wrapped(y));
  }

  /** Two blocks of a transfer share a seed exactly when their numbers agree in 16 bits; so no
      other of the first 65536 is taken for the first one, whose degree is forced. */
  lemma SeedsDiffer(transferId: int, i: int, j: int)
    ensures Seed(transferId, i) == Seed(transferId, j) <==> i % 0x1_0000 == j % 0x1_0000
  {
    var a, b := transferId * 31337 + i * 7919, transferId * 31337 + j * 7919;
    SeedIsSum(transferId, i);
    SeedIsSum(transferId, j);
    if i % 0x1_0000 == j % 0x1_0000 {
      var q := BitsApart(i, j);
      SameBits(a, b, 7919 * q);
    }
    if a % 0x1_0000 == b % 0x1_0000 {
      // 53263 is the inverse of 7919.
      var q := BitsApart(a, b);
      SameBits(i, j, 53263 * q - 6436 * (i - j));
    }
  }

  /** The indices that Java's generator selects from a seed among k source blocks; the degree
      is forced, or sampled. */
  type Selection = (int, nat, Option<nat>) -> seq<nat>

  predicate IsSelected(indices: seq<nat>, k: nat, forced: Option<nat>) {
    && NoRepeats(indices) && (forall i :: i in indices ==> i < k)
    && (forced.Some? ==> |indices| == if forced.value < k then forced.value else k)
  }

  ghost predicate Selects(select: Selection) {
    forall seed, k, forced :: IsSelected(select(seed, k, forced), k, forced)
  }

  // The encoder forces the degree of its block number 0, the decoder that of its seed.
  function EncoderIndices(select: Selection, transferId: int, k: nat, blockIndex: nat): seq<nat> {
    select(Seed(transferId, blockIndex), k, if blockIndex == 0 then Some(1) else None)
  }

  function RegeneratedIndices(select: Selection, seed: int, k: nat, transferId: int): seq<nat> {
    select(seed, k, if seed == Wrapped(transferId * 31337) % 0x1_0000 then Some(1) else None)
  }

  /** The receiver regenerates from its seed the very indices that the encoder used, for each
      of the first 65536 blocks. */
  lemma IndicesRegenerated(select: Selection, transferId: int, k: nat, blockIndex: nat)
    requires blockIndex < 0x1_0000
    ensures RegeneratedIndices(select, Seed(transferId, blockIndex), k, transferId)
         == select(Seed(transferId, blockIndex), k, if blockIndex == 0 then Some(1) else None)
    ensures RegeneratedIndices(select, Seed(transferId, blockIndex), k, transferId)
         == EncoderIndices(select, transferId, k, blockIndex)
  {
    SeedIsSum(transferId, 0);
    LowBits(transferId * 31337);
    SeedsDiffer(transferId, blockIndex, 0);
  }

  // ---- The encoder ----

  method XorInPlace(target: array<Byte>, source: Block)
    modifies target
    ensures target[..] == Xor(old(target[..]), source)
  {
    var len := if target.Length < |source| then target.Length else |source|;
    for i := 0 to len
      invariant forall j :: 0 <= j < i ==> target[j] == old(target[j]) ^ source[j]
      invariant forall j :: i <= j < target.Length ==> target[j] == old(target[j])
    {
      target[i] := target[i] ^ source[i];
    }
  }

  /** The members of a list's first n entries. */
  function Members(list: seq<nat>, n: nat): set<nat>
    requires n <= |list|
  {
    set i | 0 <= i < n :: list[i]
  }

  lemma MembersGrow(list: seq<nat>, n: nat)
    requires n < |list| && NoRepeats(list)
    ensures list[n] !in Members(list, n) && Members(list, n + 1) == Members(list, n) + {list[n]}
  {
  }

  method SplitIntoSourceBlocks(data: seq<Byte>, size: nat) returns (blocks: seq<Block>)
    requires size > 0
    ensures blocks == Split(data, size)
  {
    blocks := [];
    for i := 0 to BlockCount(|data|, size)
      invariant blocks == Split(data, size)[..i]
    {
      var start := i * size;
      var len := if size < |data| - start then size else |data| - start;
      var block := Zeros(size);
      if len > 0 {
        block := data[start..start + len] + block[len..];
      }
      assert block == BlockOf(data, i, size);
      blocks := blocks + [block];
    }
  }

  /** One encoded block.  The indices are those that the random generator selects for the seed. */
  method EncodeBlock(data: seq<Byte>, seed: int, indices: seq<nat>, size: nat) returns (block: EncodedBlock)
    requires size > 0 && NoRepeats(indices)
    requires forall i :: i in indices ==> i < BlockCount(|data|, size)
    ensures Encodes(block, data, size) && block.seed == seed && block.sourceIndices == indices
  {
    var k := BlockCount(|data|, size);
    var source := SplitIntoSourceBlocks(data, size);
    var payload := new Byte[size](_ => 0);
    NothingCombined(source, k, size);
    assert Members(indices, 0) == {};
    assert payload[..] == Zeros(size);
    for n := 0 to |indices|
      invariant payload[..] == Combined(source, Members(indices, n), k, size)
    {
      MembersGrow(indices, n);
      assert indices[n] in indices;
      XorIn(source, Members(indices, n), indices[n], k, size);
      XorInPlace(payload, source[indices[n]]);
    }
    block := EncodedBlock(seed, k, |data|, indices, payload[..]);
    assert Members(indices, |indices|) == Indices(block);
  }

  /** All blocks of a transfer, each with the indices selected for its seed. */
  method Encode(data: seq<Byte>, numBlocks: nat, transferId: int, select: Selection, size: nat)
    returns (blocks: seq<EncodedBlock>)
    requires size > 0 && Selects(select)
    ensures |blocks| == numBlocks && AllEncode(blocks, data, size)
    ensures forall i :: 0 <= i < numBlocks ==>
              && blocks[i].seed == Seed(transferId, i)
              && blocks[i].sourceIndices == EncoderIndices(select, transferId, BlockCount(|data|, size), i)
    ensures numBlocks > 0 ==>
              blocks[0].sourceIndices == select(blocks[0].seed, BlockCount(|data|, size), Some(1))
    ensures forall i :: 0 < i < numBlocks ==>
              blocks[i].sourceIndices == select(blocks[i].seed, BlockCount(|data|, size), None)
    ensures numBlocks > 0 && data != [] ==> |blocks[0].sourceIndices| == 1
  {
    blocks := [];
    var k := BlockCount(|data|, size);
    for i := 0 to numBlocks
      invariant |blocks| == i && AllEncode(blocks, data, size)
      invariant forall j :: 0 <= j < i ==>
                  && blocks[j].seed == Seed(transferId, j)
                  && blocks[j].sourceIndices == EncoderIndices(select, transferId, k, j)
    {
      var indices := EncoderIndices(select, transferId, k, i);
      assert IsSelected(indices, k, if i == 0 then Some(1) else None);
      var block := EncodeBlock(data, Seed(transferId, i), indices, size);
      blocks := blocks + [block];
    }
    if numBlocks > 0 && data != [] {
      CountCovers(|data|, size, 0);
      assert IsSelected(blocks[0].sourceIndices, k, Some(1));
    }
  }

  // ---- The decoder ----

  /** A received block on its way: used up, or what is left of it. */
  datatype Working = Used | Open(payload: Block, indices: set<nat>)

  datatype Peeling = Peeling(working: seq<Working>, decoded: seq<Option<Block>>, count: nat)

  function Known(decoded: seq<Option<Block>>): set<nat> {
    set i | 0 <= i < |decoded| && decoded[i].Some?
  }

  // What is left of block j, whose source blocks but those known have been taken out.
  predicate LeftOf(w: Working, cover: set<nat>, known: set<nat>) {
    match w
    case Used => cover <= known
    case Open(_, indices) => indices <= cover && cover - indices <= known
  }

  predicate Genuine(w: Working, source: seq<Block>, size: nat) {
    w.Open? ==> w.payload == Combined(source, w.indices, |source|, size)
  }

  /** What is to be decoded: the sets of source blocks received, and, if the received blocks
      are genuine, the source. */
  datatype Task = Task(cover: seq<set<nat>>, k: nat, size: nat, source: seq<Block>, genuine: bool)

  // The shape of the decoder's state: what is left of each block, and how much is known.
  predicate InShape(p: Peeling, t: Task) {
    && |p.working| == |t.cover| && |p.decoded| == t.k && p.count == |Known(p.decoded)|
    && (forall j :: 0 <= j < |t.cover| ==> t.cover[j] <= All(t.k) && LeftOf(p.working[j], t.cover[j], Known(p.decoded)))
    && (forall j :: 0 <= j < |t.cover| ==> p.working[j].Open? ==> |p.working[j].payload| == t.size)
    && (forall i :: 0 <= i < t.k ==> p.decoded[i].Some? ==> |p.decoded[i].value| == t.size)
  }

  // Nothing that stops the peeling is known.
  ghost predicate AvoidsStopping(known: set<nat>, t: Task) {
    forall u :: u <= All(t.k) && Stopping(t.cover, u) ==> u !! known
  }

  // All that is known, and all that is left, comes from the source.
  predicate FromSource(p: Peeling, t: Task) {
    && |t.source| == t.k == |p.decoded| && Uniform(t.source, t.size)
    && (forall j :: 0 <= j < |p.working| ==> Genuine(p.working[j], t.source, t.size))
    && (forall i :: 0 <= i < t.k ==> p.decoded[i].Some? ==> p.decoded[i].value == t.source[i])
  }

  ghost predicate PeelInv(p: Peeling, t: Task) {
    InShape(p, t) && AvoidsStopping(Known(p.decoded), t) && (t.genuine ==> FromSource(p, t))
  }

  lemma KnownGrows(decoded: seq<Option<Block>>, i: nat, b: Block)
    requires i < |decoded| && decoded[i].None?
    ensures Known(decoded[i := Some(b)]) == Known(decoded) + {i} && i !in Known(decoded)
  {
  }

  // Block j is replaced by what is left of it.
  function Stripped(p: Peeling, j: nat, w: Working): Peeling
    requires j < |p.working|
  {
    p.(working := p.working[j := w])
  }

  // Block j has revealed source block i.
  function Revealed(p: Peeling, j: nat, i: nat, b: Block): Peeling
    requires j < |p.working| && i < |p.decoded|
  {
    Peeling(p.working[j := Used], p.decoded[i := Some(b)], p.count + 1)
  }

  lemma {:induction false} StrippedInv(p: Peeling, t: Task, j: nat, w: Working)
    requires PeelInv(p, t) && j < |t.cover|
    requires LeftOf(w, t.cover[j], Known(p.decoded)) && (w.Open? ==> |w.payload| == t.size)
    requires t.genuine ==> Genuine(w, t.source, t.size)
    ensures PeelInv(Stripped(p, j, w), t)
  {
  }

  lemma {:induction false} RevealedAvoids(t: Task, known: set<nat>, j: nat, i: nat)
    requires AvoidsStopping(known, t) && j < |t.cover| && t.cover[j] - known == {i}
    ensures AvoidsStopping(known + {i}, t)
  {
    assert i in t.cover[j] - known;
    forall u | u <= All(t.k) && Stopping(t.cover, u)
      ensures u !! known + {i}
    {
      RevealedAvoidsStopping(t.cover, j, u, known, i);
    }
  }

  lemma MoreKnown(w: Working, cover: set<nat>, known: set<nat>, more: set<nat>)
    requires LeftOf(w, cover, known)
    ensures LeftOf(w, cover, known + more)
  {
  }

  lemma {:induction false} RevealedInShape(p: Peeling, t: Task, j: nat, i: nat, b: Block)
    requires InShape(p, t) && j < |t.cover| && i < t.k
    requires t.cover[j] - Known(p.decoded) == {i} && |b| == t.size
    ensures InShape(Revealed(p, j, i, b), t)
  {
    var known, p' := Known(p.decoded), Revealed(p, j, i, b);
    assert i in t.cover[j] - known;
    KnownGrows(p.decoded, i, b);
    assert t.cover[j] <= known + {i};
    forall l | 0 <= l < |t.cover|
      ensures LeftOf(p'.working[l], t.cover[l], known + {i})
    {
      if l != j {
        MoreKnown(p.working[l], t.cover[l], known, {i});
      }
    }
  }

  lemma {:induction false} RevealedInv(p: Peeling, t: Task, j: nat, i: nat, b: Block)
    requires PeelInv(p, t) && j < |t.cover| && i < t.k
    requires t.cover[j] - Known(p.decoded) == {i} && |b| == t.size
    requires t.genuine ==> b == t.source[i]
    ensures PeelInv(Revealed(p, j, i, b), t)
  {
    assert i in t.cover[j] - Known(p.decoded);
    KnownGrows(p.decoded, i, b);
    RevealedAvoids(t, Known(p.decoded), j, i);
    RevealedInShape(p, t, j, i, b);
  }

  /** Takes the known source blocks out of a received one. */
  method TakeOutKnown(payload: Block, indices: set<nat>, decoded: seq<Option<Block>>, ghost source: seq<Block>,
                      ghost genuine: bool)
    returns (left: Block, remaining: set<nat>)
    requires forall i :: i in indices ==> i < |decoded|
    requires genuine ==> |source| == |decoded| && payload == Combined(source, indices, |source|, |payload|)
    requires genuine ==> forall i :: 0 <= i < |decoded| ==> decoded[i].Some? ==> decoded[i].value == source[i]
    ensures |left| == |payload| && remaining == indices - Known(decoded)
    ensures genuine ==> left == Combined(source, remaining, |source|, |payload|)
  {
    var buffer := new Byte[|payload|](j requires 0 <= j < |payload| => payload[j]);
    assert buffer[..] == payload;
    remaining := indices;
    var todo := indices;
    while todo != {}
      invariant todo <= remaining <= indices
      invariant forall i :: i in remaining - todo ==> decoded[i].None?
      invariant forall i :: i in indices - remaining ==> decoded[i].Some?
      invariant genuine ==> buffer[..] == Combined(source, remaining, |source|, |payload|)
      decreases |todo|
    {
      var i :| i in todo;
      todo := todo - {i};
      if decoded[i].Some? {
        XorInPlace(buffer, decoded[i].value);
        if genuine {
          XorOut(source, remaining, i, |source|, |payload|);
        }
        remaining := remaining - {i};
      }
    }
    left := buffer[..];
  }

  /** One received block: strips it, and learns from it if a single source block is left. */
  method PeelOne(p: Peeling, j: nat, ghost t: Task) returns (p': Peeling, progress: bool)
    requires PeelInv(p, t) && j < |t.cover|
    ensures PeelInv(p', t)
    ensures if progress then p'.count == p.count + 1
            else p'.decoded == p.decoded && p'.count == p.count && Unknown(t.cover[j], Known(p.decoded)) != 1
  {
    var w := p.working[j];
    ghost var known := Known(p.decoded);
    if w.Used? {
      assert t.cover[j] - known == {};
      return p, false;
    }
    var left, remaining := TakeOutKnown(w.payload, w.indices, p.decoded, t.source, t.genuine);
    assert remaining == t.cover[j] - known;
    if |remaining| == 1 {
      var i :| i in remaining;
      OnlyMember(remaining, i);
      if t.genuine {
        OneCombined(t.source, i, t.size);
      }
      RevealedInv(p, t, j, i, left);
      p', progress := Revealed(p, j, i, left), true;
    } else if remaining == {} {
      StrippedInv(p, t, j, Used);
      p', progress := Stripped(p, j, Used), false;
    } else {
      StrippedInv(p, t, j, Open(left, remaining));
      p', progress := Stripped(p, j, Open(left, remaining)), false;
    }
  }

  lemma QuietNext(cover: seq<set<nat>>, known: set<nat>, n: nat)
    requires n < |cover| && Quiet(cover, known, n) && Unknown(cover[n], known) != 1
    ensures Quiet(cover, known, n + 1)
  {
  }

  /** One round over all received blocks. */
  method PeelAll(p: Peeling, ghost t: Task) returns (p': Peeling, progress: bool)
    requires PeelInv(p, t)
    ensures PeelInv(p', t)
    ensures if progress then p'.count > p.count
            else p'.count == p.count && Quiet(t.cover, Known(p'.decoded), |t.cover|)
  {
    p', progress := p, false;
    ghost var known := Known(p.decoded);
    for j := 0 to |p.working|
      invariant PeelInv(p', t)
      invariant if progress then p'.count > p.count else p'.count == p.count && p'.decoded == p.decoded
      invariant !progress ==> Quiet(t.cover, known, j)
    {
      var more;
      p', more := PeelOne(p', j, t);
      progress := progress || more;
      if !progress {
        QuietNext(t.cover, known, j);
      }
    }
  }

  // When no block reveals anything any more, what is unknown is what stops the peeling.
  lemma {:induction false} StuckOnUnknown(cover: seq<set<nat>>, k: nat, known: set<nat>)
    requires Quiet(cover, known, |cover|) && forall j :: 0 <= j < |cover| ==> cover[j] <= All(k)
    ensures Stopping(cover, All(k) - known)
  {
    forall j | 0 <= j < |cover|
      ensures |cover[j] * (All(k) - known)| != 1
    {
      CoverWithin(cover[j], k, known);
      assert Unknown(cover[j], known) != 1;
    }
  }

  lemma {:induction false} KnownWithin(decoded: seq<Option<Block>>)
    ensures Known(decoded) <= All(|decoded|)
    ensures |Known(decoded)| <= |decoded|
    ensures |Known(decoded)| == |decoded| ==> forall i :: 0 <= i < |decoded| ==> decoded[i].Some?
  {
    SizeOfPart(Known(decoded), All(|decoded|));
    forall i | 0 <= i < |decoded| && |Known(decoded)| == |decoded|
      ensures decoded[i].Some?
    {
      assert i in All(|decoded|);
    }
  }

  /** Peeling finds everything exactly when nothing can stop it. */
  lemma {:induction false} PeeledAllIff(p: Peeling, t: Task)
    requires PeelInv(p, t) && (p.count == t.k || Quiet(t.cover, Known(p.decoded), |t.cover|))
    ensures p.count <= t.k && (p.count == t.k <==> Solvable(t.cover, t.k))
  {
    var known := Known(p.decoded);
    KnownWithin(p.decoded);
    if p.count == t.k {
      forall u | u <= All(t.k) && u != {}
        ensures !Stopping(t.cover, u)
      {
        var i :| i in u;
        assert i in known;
      }
    } else {
      StuckOnUnknown(t.cover, t.k, known);
      if All(t.k) - known == {} {
        SizeOfPart(All(t.k), known);
      }
    }
  }

  function Blocks(decoded: seq<Option<Block>>): (blocks: seq<Block>)
    requires forall i :: 0 <= i < |decoded| ==> decoded[i].Some?
    ensures |blocks| == |decoded|
  {
    seq(|decoded|, i requires 0 <= i < |decoded| => decoded[i].value)
  }

  lemma AssembledAt(blocks: seq<Block>, total: nat, size: nat, i: nat, p: nat)
    requires size > 0 && Uniform(blocks, size) && i < |blocks| && i * size <= p < i * size + size && p < total
    ensures Assembled(blocks, total, size)[p] == blocks[i][p - i * size]
  {
    Quotient(p, i, p - i * size, size);
  }

  lemma AssembledBeyond(blocks: seq<Block>, total: nat, size: nat, p: nat)
    requires size > 0 && Uniform(blocks, size) && |blocks| * size <= p < total
    ensures Assembled(blocks, total, size)[p] == 0
  {
    var q := p / size;
    assert p == q * size + p % size;
    if q < |blocks| {
      Multiples(q, |blocks|, size);
    }
  }

  method CopyInto(target: array<Byte>, at: nat, source: Block, len: nat)
    requires len <= |source| && at + len <= target.Length
    modifies target
    ensures forall p :: 0 <= p < target.Length ==>
              target[p] == if at <= p < at + len then source[p - at] else old(target[p])
  {
    for q := 0 to len
      invariant forall p :: 0 <= p < target.Length ==>
                  target[p] == if at <= p < at + q then source[p - at] else old(target[p])
    {
      target[at + q] := source[q];
    }
  }

  method Reassemble(blocks: seq<Block>, total: nat, size: nat) returns (data: seq<Byte>)
    requires size > 0 && Uniform(blocks, size)
    ensures data == Assembled(blocks, total, size)
  {
    ghost var goal := Assembled(blocks, total, size);
    var result := new Byte[total](_ => 0);
    var pos := 0;
    ghost var end := 0;
    for i := 0 to |blocks|
      invariant end == i * size
      invariant pos <= total && pos <= end && (pos < total ==> pos == end)
      invariant forall p :: 0 <= p < pos ==> result[p] == goal[p]
      invariant forall p :: pos <= p < total ==> result[p] == 0
    {
      var len := if size < total - pos then size else total - pos;
      if len > 0 {
        forall p | pos <= p < pos + len
          ensures goal[p] == blocks[i][p - pos]
        {
          AssembledAt(blocks, total, size, i, p);
        }
        CopyInto(result, pos, blocks[i], len);
        pos := pos + len;
      }
      end := end + size;
      assert end == (i + 1) * size;
    }
    forall p | pos <= p < total
      ensures goal[p] == 0
    {
      AssembledBeyond(blocks, total, size, p);
    }
    data := result[..];
  }

  /** What the decoder takes for granted of the blocks it is given. */
  predicate WellFormed(blocks: seq<EncodedBlock>, size: nat) {
    && size > 0
    && (forall j :: 0 <= j < |blocks| ==>
         |blocks[j].payload| == size && Indices(blocks[j]) <= All(blocks[0].sourceBlockCount))
  }

  // Nothing is known yet, and everything is left.
  function Begun(blocks: seq<EncodedBlock>, k: nat): Peeling {
    Peeling(seq(|blocks|, j requires 0 <= j < |blocks| => Open(blocks[j].payload, Indices(blocks[j]))),
            seq(k, _ => None), 0)
  }

  function TaskOf(blocks: seq<EncodedBlock>, data: seq<Byte>, size: nat): Task
    requires size > 0 && blocks != []
  {
    Task(Cover(blocks), blocks[0].sourceBlockCount, size, Split(data, size), AllEncode(blocks, data, size))
  }

  lemma NothingKnown(k: nat)
    ensures Known(seq(k, _ => None)) == {}
  {
  }

  lemma {:induction false} BegunInv(blocks: seq<EncodedBlock>, data: seq<Byte>, size: nat)
    requires WellFormed(blocks, size) && blocks != []
    ensures PeelInv(Begun(blocks, blocks[0].sourceBlockCount), TaskOf(blocks, data, size))
  {
    var t, p := TaskOf(blocks, data, size), Begun(blocks, blocks[0].sourceBlockCount);
    NothingKnown(t.k);
    assert p.decoded == seq(t.k, _ => None);
    forall j | 0 <= j < |blocks|
      ensures t.cover[j] <= All(t.k) && LeftOf(p.working[j], t.cover[j], {})
    {
      assert t.cover[j] - Indices(blocks[j]) == {};
    }
    if t.genuine {
      forall j | 0 <= j < |blocks|
        ensures Genuine(p.working[j], t.source, size)
      {
        assert Encodes(blocks[j], data, size);
      }
    }
  }

  /** Rounds of peeling until everything is known or a round brings nothing new. */
  method PeelToRest(p: Peeling, k: nat, ghost t: Task) returns (p': Peeling)
    requires PeelInv(p, t) && k == t.k
    ensures PeelInv(p', t)
    ensures p'.count <= k && (p'.count == k <==> Solvable(t.cover, k))
  {
    p' := p;
    var progress := true;
    KnownWithin(p.decoded);
    while progress && p'.count < k
      invariant PeelInv(p', t) && p'.count <= k
      invariant !progress ==> Quiet(t.cover, Known(p'.decoded), |t.cover|)
      decreases k - p'.count, if progress then 1 else 0
    {
      p', progress := PeelAll(p', t);
      KnownWithin(p'.decoded);
    }
    PeeledAllIff(p', t);
  }

  // If the blocks are genuine, what has been found is the source.
  lemma {:induction false} FoundIsData(p: Peeling, blocks: seq<EncodedBlock>, data: seq<Byte>, size: nat)
    requires size > 0 && blocks != [] && PeelInv(p, TaskOf(blocks, data, size)) && AllEncode(blocks, data, size)
    requires forall i :: 0 <= i < |p.decoded| ==> p.decoded[i].Some?
    ensures Uniform(Blocks(p.decoded), size)
    ensures Assembled(Blocks(p.decoded), blocks[0].totalLength, size) == data
  {
    assert Encodes(blocks[0], data, size);
    assert Blocks(p.decoded) == Split(data, size);
    AssembledSplit(data, size);
  }

  /** Decodes exactly when nothing can stop the peeling, and then, if the blocks encode some
      data, returns that data; otherwise returns nothing.  Order and repetition do not matter. */
  method Decode(blocks: seq<EncodedBlock>, size: nat, ghost data: seq<Byte>) returns (r: Option<seq<Byte>>)
    requires WellFormed(blocks, size)
    ensures r.Some? <==> blocks != [] && Solvable(Cover(blocks), blocks[0].sourceBlockCount)
    ensures r.Some? && AllEncode(blocks, data, size) ==> r.value == data
  {
    if blocks == [] {
      return None;
    }
    var k, total := blocks[0].sourceBlockCount, blocks[0].totalLength;
    BegunInv(blocks, data, size);
    var p := PeelToRest(Begun(blocks, k), k, TaskOf(blocks, data, size));
    if p.count < k {
      return None;
    }
    KnownWithin(p.decoded);
    if AllEncode(blocks, data, size) {
      FoundIsData(p, blocks, data, size);
    }
    var whole := Reassemble(Blocks(p.decoded), total, size);
    return Some(whole);
  }

  /** Blocks that arrive are encodings of the data, whichever of those sent they are, in
      whatever order and however often; so what is decoded from them is the data. */
  lemma {:induction false} AnyArrivalEncodes(sent: seq<EncodedBlock>, arrived: seq<EncodedBlock>, data: seq<Byte>,
                                             size: nat)
    requires size > 0 && AllEncode(sent, data, size) && forall b :: b in arrived ==> b in sent
    ensures AllEncode(arrived, data, size)
  {
    forall j | 0 <= j < |arrived|
      ensures Encodes(arrived[j], data, size)
    {
      assert arrived[j] in sent;
    }
  }

  /** More blocks never hurt, and neither order nor repetition matters. */
  lemma {:induction false} MoreBlocksHelp(some: seq<set<nat>>, all: seq<set<nat>>, k: nat)
    requires (forall s :: s in some ==> s in all) && Solvable(some, k)
    ensures Solvable(all, k)
  {
    forall u | u <= All(k) && u != {}
      ensures !Stopping(all, u)
    {
      assert !Stopping(some, u);
      var j :| 0 <= j < |some| && |some[j] * u| == 1;
      assert some[j] in all;
    }
  }

  /** Some received block must hold a single source block, which is why the encoder forces
      its first block to. */
  lemma {:induction false} NeedsSingleBlock(cover: seq<set<nat>>, k: nat)
    requires Solvable(cover, k) && k > 0 && forall j :: 0 <= j < |cover| ==> cover[j] <= All(k)
    ensures exists j :: 0 <= j < |cover| && |cover[j]| == 1
  {
    assert !Stopping(cover, All(k));
    var j :| 0 <= j < |cover| && |cover[j] * All(k)| == 1;
    assert cover[j] * All(k) == cover[j];
  }

  /** Peeling with the blocks of some indices reveals at most one source block for each. */
  lemma {:induction false} PeelableBound(cover: seq<set<nat>>, left: set<nat>, known: set<nat>, k: nat)
      returns (closed: set<nat>)
    requires known <= All(k) && forall j :: j in left ==> j < |cover| && cover[j] <= All(k)
    ensures known <= closed <= All(k) && |closed| <= |known| + |left|
    ensures forall j :: j in left ==> Unknown(cover[j], closed) != 1
    decreases |left|
  {
    if j :| j in left && Unknown(cover[j], known) == 1 {
      closed := PeelableBound(cover, left - {j}, known + cover[j], k);
      assert known + cover[j] == known + (cover[j] - known);
      assert cover[j] - closed == {};
    } else {
      closed := known;
    }
  }

  /** At least as many blocks are needed as there are source blocks. */
  lemma {:induction false} NeedsAsMany(cover: seq<set<nat>>, k: nat)
    requires Solvable(cover, k) && forall j :: 0 <= j < |cover| ==> cover[j] <= All(k)
    ensures |cover| >= k
  {
    var closed := PeelableBound(cover, All(|cover|), {}, k);
    assert Quiet(cover, closed, |cover|);
    StuckOnUnknown(cover, k, closed);
    assert All(k) - closed == {};
    SizeOfPart(All(k), closed);
  }

  /** But as many need not do, although the first holds a single source block. */
  lemma {:induction false} AsManyMayFail()
    ensures !Solvable([{0}, {1, 2}, {0, 1, 2}], 3)
  {
    var cover: seq<set<nat>>, u: set<nat> := [{0}, {1, 2}, {0, 1, 2}], {1, 2};
    assert cover[0] * u == {} && cover[1] * u == u && cover[2] * u == u;
    assert Stopping(cover, u);
  }
}
