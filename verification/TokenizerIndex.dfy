/**
 The whole construction of the tokenizer index: byte map, merge table with its self-checks, and the two digests that pin
 the bytes of the index down.
 */
module TokenizerIndex {
  import opened Bpe
  import M = MergeIndex
  import Sha256
  import T = TokenText
  import opened Utf8
  import opened Wrappers

  /** 686aa5b5..., of the byte map, and 393d697e..., of the whole index */
  const MAP_HASH: seq<Byte> :=
    [0x68, 0x6a, 0xa5, 0xb5, 0xbe, 0x47, 0xb5, 0x8e, 0x8b, 0x4e, 0xee, 0x7a, 0x56, 0x32, 0x99, 0x4d,
     0x9e, 0x3d, 0xd8, 0x51, 0xc3, 0xf6, 0x9b, 0x7d, 0xdf, 0xab, 0xc3, 0x9e, 0x19, 0xaa, 0x75, 0x5a]
  const INDEX_HASH: seq<Byte> :=
    [0x39, 0x3d, 0x69, 0x7e, 0xcc, 0x53, 0xa1, 0x2c, 0xb4, 0xea, 0x69, 0x40, 0xf0, 0x8b, 0xfb, 0xe8,
     0xba, 0x4f, 0x56, 0xbc, 0x08, 0x09, 0xa6, 0x8f, 0xb2, 0x8a, 0xf3, 0xcb, 0xc8, 0x7c, 0xc3, 0x2a]

  datatype ConstructError =
    | MissingByte(byte: Byte)
    | BadIndex(error: M.IndexError)
    | HashByte(ofMap: bool, at: nat)

  // ---- the bytes of the index ----

  /** A 32-bit word, least significant byte first. */
  function WordBytes(x: nat): (bytes: seq<Byte>)
    ensures |bytes| == 4
  {
    [x % 0x100, x / 0x100 % 0x100, x / 0x1_0000 % 0x100, x / 0x100_0000 % 0x100]
  }

  function SlotBytes(slot: M.Slot): (bytes: seq<Byte>)
    ensures |bytes| == 16
  {
    WordBytes(slot.left) + WordBytes(slot.right) + WordBytes(slot.result) + WordBytes(slot.rank)
  }

  function TableBytes(slots: seq<M.Slot>): seq<Byte> {
    if slots == [] then [] else TableBytes(slots[..|slots| - 1]) + SlotBytes(slots[|slots| - 1])
  }

  function MapBytes(tokens: seq<nat>): seq<Byte> {
    if tokens == [] then [] else MapBytes(tokens[..|tokens| - 1]) + WordBytes(tokens[|tokens| - 1])
  }

  /** The value of bytes that come least significant first. */
  function LittleEndian(bytes: seq<Byte>): nat {
    if bytes == [] then 0 else bytes[0] + 0x100 * LittleEndian(bytes[1..])
  }

  lemma WordReadBack(x: nat)
    requires x < 0x1_0000_0000
    ensures LittleEndian(WordBytes(x)) == x
  {
    hide LittleEndian;
    var b := WordBytes(x);
    FourBytes(b[0], b[1], b[2], b[3]);
    assert b == [b[0], b[1], b[2], b[3]];
  }

  lemma FourBytes(b0: Byte, b1: Byte, b2: Byte, b3: Byte)
    ensures LittleEndian([b0, b1, b2, b3]) == b0 as int + 0x100 * (b1 as int + 0x100 * (b2 as int + 0x100 * b3))
  {
    assert [b0, b1, b2, b3][1..] == [b1, b2, b3];
    assert [b1, b2, b3][1..] == [b2, b3];
    assert [b2, b3][1..] == [b3];
    assert [b3][1..] == [] && LittleEndian([b3]) == b3;
    assert LittleEndian([b2, b3]) == b2 as int + 0x100 * b3;
    assert LittleEndian([b1, b2, b3]) == b1 as int + 0x100 * (b2 as int + 0x100 * b3);
  }

  lemma {:induction false} TableBytesAt(slots: seq<M.Slot>, i: nat)
    requires i < |slots|
    ensures |TableBytes(slots)| == 16 * |slots| && TableBytes(slots)[16 * i..16 * i + 16] == SlotBytes(slots[i])
  {
    hide SlotBytes;
    var before := slots[..|slots| - 1];
    if before == [] {
    } else if i < |before| {
      TableBytesAt(before, i);
    } else {
      TableBytesAt(before, 0);
    }
  }

  lemma {:induction false} MapBytesAt(tokens: seq<nat>, i: nat)
    requires i < |tokens|
    ensures |MapBytes(tokens)| == 4 * |tokens| && MapBytes(tokens)[4 * i..4 * i + 4] == WordBytes(tokens[i])
  {
    hide WordBytes;
    var before := tokens[..|tokens| - 1];
    if before == [] {
    } else if i < |before| {
      MapBytesAt(before, i);
    } else {
      MapBytesAt(before, 0);
    }
  }

  /** Slot `i` can be read back from the bytes of the table, word by word. */
  lemma SlotReadBack(slots: seq<M.Slot>, i: nat)
    requires i < |slots|
    requires var s := slots[i];
      s.left < 0x1_0000_0000 && s.right < 0x1_0000_0000 && s.result < 0x1_0000_0000 && s.rank < 0x1_0000_0000
    ensures |TableBytes(slots)| == 16 * |slots|
    ensures var words := seq(4, k requires 0 <= k < 4 =>
                               LittleEndian(TableBytes(slots)[16 * i..16 * i + 16][4 * k..4 * k + 4]));
      slots[i] == M.Slot(words[0], words[1], words[2], words[3])
  {
    hide WordBytes, LittleEndian;
    TableBytesAt(slots, i);
    var s, bytes := slots[i], SlotBytes(slots[i]);
    assert bytes[0..4] == WordBytes(s.left) && bytes[4..8] == WordBytes(s.right);
    assert bytes[8..12] == WordBytes(s.result) && bytes[12..16] == WordBytes(s.rank);
    WordReadBack(s.left);
    WordReadBack(s.right);
    WordReadBack(s.result);
    WordReadBack(s.rank);
  }

  /** So can the token of byte `i`. */
  lemma MapReadBack(byteMap: seq<nat>, i: nat)
    requires i < |byteMap| && byteMap[i] < 0x1_0000_0000
    ensures |MapBytes(byteMap)| == 4 * |byteMap|
    ensures LittleEndian(MapBytes(byteMap)[4 * i..4 * i + 4]) == byteMap[i]
  {
    MapBytesAt(byteMap, i);
    WordReadBack(byteMap[i]);
  }

  // ---- the digests ----

  method UpdateMap(hasher: Sha256.Hasher, byteMap: ByteMap)
    requires hasher.Valid()
    modifies hasher, hasher.state, hasher.block
    ensures hasher.Valid() && hasher.message == old(hasher.message) + MapBytes(byteMap)
  {
    hide WordBytes, Sha256.Hasher.Valid;
    assert hasher.message + [] == hasher.message;
    for i := 0 to |byteMap|
      invariant hasher.Valid() && hasher.message == old(hasher.message) + MapBytes(byteMap[..i])
    {
      assert byteMap[..i + 1][..i] == byteMap[..i];
      hasher.Update(WordBytes(byteMap[i]));
    }
    assert byteMap[..|byteMap|] == byteMap;
  }

  method UpdateTable(hasher: Sha256.Hasher, slots: seq<M.Slot>)
    requires hasher.Valid()
    modifies hasher, hasher.state, hasher.block
    ensures hasher.Valid() && hasher.message == old(hasher.message) + TableBytes(slots)
  {
    hide SlotBytes, Sha256.Hasher.Valid;
    assert hasher.message + [] == hasher.message;
    for i := 0 to |slots|
      invariant hasher.Valid() && hasher.message == old(hasher.message) + TableBytes(slots[..i])
    {
      assert slots[..i + 1][..i] == slots[..i];
      hasher.Update(SlotBytes(slots[i]));
    }
    assert slots[..|slots|] == slots;
  }

  method MapDigest(byteMap: ByteMap) returns (digest: seq<Byte>)
    ensures digest == Sha256.Digest(MapBytes(byteMap))
  {
    var hasher := new Sha256.Hasher();
    UpdateMap(hasher, byteMap);
    assert [] + MapBytes(byteMap) == MapBytes(byteMap);
    digest := hasher.Finish();
  }

  method IndexDigest(slots: seq<M.Slot>, byteMap: ByteMap) returns (digest: seq<Byte>)
    ensures digest == Sha256.Digest(TableBytes(slots) + MapBytes(byteMap))
  {
    var hasher := new Sha256.Hasher();
    UpdateTable(hasher, slots);
    assert [] + TableBytes(slots) == TableBytes(slots);
    UpdateMap(hasher, byteMap);
    digest := hasher.Finish();
  }

  lemma DigestLength(message: seq<Byte>)
    ensures |Sha256.Digest(message)| == 32
  {
    hide Sha256.Absorb, Sha256.Pad;
  }

  /** The first byte in which two digests differ. */
  ghost predicate DiffersAt(expected: seq<Byte>, actual: seq<Byte>, at: nat) {
    at < |expected| == |actual| && expected[..at] == actual[..at] && expected[at] != actual[at]
  }

  /** `first_hash_error`. */
  method FirstHashError(expected: seq<Byte>, actual: seq<Byte>) returns (at: Option<nat>)
    requires |expected| == |actual|
    ensures if at.None? then expected == actual else DiffersAt(expected, actual, at.value)
  {
    for i := 0 to |expected|
      invariant expected[..i] == actual[..i]
    {
      if expected[i] != actual[i] {
        return Some(i);
      }
    }
    assert expected[..|expected|] == expected && actual[..|actual|] == actual;
    at := None;
  }

  // ---- the construction ----

  /** Every byte has its first token. */
  ghost predicate IsByteMap(pieces: seq<seq<Byte>>, byteMap: ByteMap) {
    forall b: Byte :: T.FirstToken(pieces, b, byteMap[b])
  }

  /** The merges are distinct, fit, and lie as expected in the table. */
  ghost predicate WellPlaced(merges: seq<M.Merge>, slots: M.Table, places: seq<nat>) {
    && |places| == |merges| && M.Holds(slots, merges, places)
    && M.MaxOf(places) == M.EXPECTED_DISPLACEMENT && M.LongestRun(slots, M.EXPECTED_CLUSTER)
  }

  ghost predicate RightDigests(slots: seq<M.Slot>, byteMap: ByteMap) {
    && Sha256.Digest(MapBytes(byteMap)) == MAP_HASH
    && Sha256.Digest(TableBytes(slots) + MapBytes(byteMap)) == INDEX_HASH
  }

  /** Which digest is wrong first, and where. */
  ghost predicate WrongDigest(slots: seq<M.Slot>, byteMap: ByteMap, ofMap: bool, at: nat) {
    var mapDigest, indexDigest := Sha256.Digest(MapBytes(byteMap)), Sha256.Digest(TableBytes(slots) + MapBytes(byteMap));
    if ofMap then DiffersAt(MAP_HASH, mapDigest, at)
    else mapDigest == MAP_HASH && DiffersAt(INDEX_HASH, indexDigest, at)
  }

  /** The digest checks. */
  method CheckDigests(slots: seq<M.Slot>, byteMap: ByteMap) returns (error: Option<ConstructError>)
    ensures error.None? ==> RightDigests(slots, byteMap)
    ensures error.Some? ==> error.value.HashByte? && WrongDigest(slots, byteMap, error.value.ofMap, error.value.at)
  {
    hide Sha256.Digest;
    DigestLength(MapBytes(byteMap));
    DigestLength(TableBytes(slots) + MapBytes(byteMap));
    var mapDigest := MapDigest(byteMap);
    var at := FirstHashError(MAP_HASH, mapDigest);
    if at.Some? {
      return Some(HashByte(true, at.value));
    }
    var indexDigest := IndexDigest(slots, byteMap);
    at := FirstHashError(INDEX_HASH, indexDigest);
    if at.Some? {
      return Some(HashByte(false, at.value));
    }
    error := None;
  }

  /**
   `construct`. It succeeds exactly if every byte has a token, the merges lie in the table as expected and the bytes of
   the index have the two digests; and then every lookup is the search of the merge list. Otherwise it names the first
   check that fails.
   */
  method Construct(pieces: seq<seq<Byte>>, merges: seq<M.Merge>, table: array<M.Slot>)
      returns (error: Option<ConstructError>, byteMap: ByteMap, ghost places: seq<nat>)
    requires table.Length == M.TABLE_ENTRIES && M.ValidMerges(merges) && merges != []
    requires forall i | 0 <= i < M.TABLE_ENTRIES :: table[i].left == M.UNUSED
    modifies table
    ensures error.None? ==>
      && IsByteMap(pieces, byteMap) && WellPlaced(merges, table[..], places) && RightDigests(table[..], byteMap)
      && M.Distinct(merges)
      && forall left: nat, right: nat :: M.Probe(table[..], left, right, 0).0 == M.MergeOf(merges, left, right)
    ensures error.Some? && error.value.MissingByte? ==>
      T.NoToken(pieces, error.value.byte) && forall x: Byte | x < error.value.byte :: !T.NoToken(pieces, x)
    ensures error.Some? && error.value.BadIndex? ==>
      && IsByteMap(pieces, byteMap) && !WellPlaced(merges, table[..], places)
      && M.Refused(table[..], merges, places, error.value.error)
    ensures error.Some? && error.value.HashByte? ==>
      && IsByteMap(pieces, byteMap) && WellPlaced(merges, table[..], places)
      && WrongDigest(table[..], byteMap, error.value.ofMap, error.value.at)
  {
    hide RightDigests, WrongDigest;
    places, byteMap := [], seq(256, _ => 0);
    var built := T.BuildByteMap(pieces);
    if built.Err? {
      return Some(MissingByte(built.error)), byteMap, places;
    }
    byteMap := built.value;
    var indexError;
    indexError, places := M.Construct(merges, table);
    assert merges[..|merges|] == merges;
    if indexError.Some? {
      return Some(BadIndex(indexError.value)), byteMap, places;
    }
    error := CheckDigests(table[..], byteMap);
  }
}
