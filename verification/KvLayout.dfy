/**
 Where the key and value words of a position live in the KV arena.  Values are stored row
 by row; keys are stored in tiles of four positions, component by component.
 */
module KvLayout {
  const CONTEXT_LIMIT := 32_768
  const LAYERS := 24
  const KV_HEADS := 2
  const HEAD_WORDS := 64
  const KV_TILE := 4
  const KV_VALUE_WORDS := KV_HEADS * CONTEXT_LIMIT * HEAD_WORDS
  const KV_LAYER_WORDS := 2 * KV_VALUE_WORDS
  const KV_BYTES := 805_306_368
  const KV_WORDS := KV_BYTES / 4

  /** kind 0 is a key word, kind 1 a value word. */
  datatype Address = Address(layer: nat, kind: nat, position: nat, head: nat, component: nat)

  predicate InArena(a: Address) {
    a.layer < LAYERS && a.kind < 2 && a.position < CONTEXT_LIMIT && a.head < KV_HEADS && a.component < HEAD_WORDS
  }

  function KvWord(layer: nat, kind: nat, position: nat, head: nat, component: nat): nat {
    var base := layer * KV_LAYER_WORDS;
    if kind == 0 then
      base + ((head * (CONTEXT_LIMIT / KV_TILE) + position / KV_TILE) * HEAD_WORDS + component) * KV_TILE
           + position % KV_TILE
    else
      base + KV_VALUE_WORDS + (head * CONTEXT_LIMIT + position) * HEAD_WORDS + component
  }

  function WordOf(a: Address): nat {
    KvWord(a.layer, a.kind, a.position, a.head, a.component)
  }

  /** The inverse: which logical word an arena word holds. */
  function AddressOf(word: nat): Address {
    var layer, inLayer := word / KV_LAYER_WORDS, word % KV_LAYER_WORDS;
    if inLayer < KV_VALUE_WORDS then
      var lane, rest := inLayer % KV_TILE, inLayer / KV_TILE;
      var component, tile := rest % HEAD_WORDS, rest / HEAD_WORDS;
      Address(layer, 0, tile % (CONTEXT_LIMIT / KV_TILE) * KV_TILE + lane, tile / (CONTEXT_LIMIT / KV_TILE), component)
    else
      var inValues := inLayer - KV_VALUE_WORDS;
      var row := inValues / HEAD_WORDS;
      Address(layer, 1, row % CONTEXT_LIMIT, row / CONTEXT_LIMIT, inValues % HEAD_WORDS)
  }

  lemma KeyRoundTrip(layer: nat, position: nat, head: nat, component: nat)
    requires InArena(Address(layer, 0, position, head, component))
    ensures var w := KvWord(layer, 0, position, head, component);
      w < KV_WORDS && AddressOf(w) == Address(layer, 0, position, head, component)
  {
    var tile := head * 8_192 + position / 4;
    assert tile < 16_384 && tile / 8_192 == head && tile % 8_192 == position / 4;
    var rest := tile * 64 + component;
    assert rest < 1_048_576 && rest / 64 == tile && rest % 64 == component;
    var inLayer := rest * 4 + position % 4;
    assert inLayer < 4_194_304 && inLayer / 4 == rest && inLayer % 4 == position % 4;
    var word := layer * 8_388_608 + inLayer;
    assert KvWord(layer, 0, position, head, component) == word;
    assert word / 8_388_608 == layer && word % 8_388_608 == inLayer;
  }

  lemma ValueRoundTrip(layer: nat, position: nat, head: nat, component: nat)
    requires InArena(Address(layer, 1, position, head, component))
    ensures var w := KvWord(layer, 1, position, head, component);
      w < KV_WORDS && AddressOf(w) == Address(layer, 1, position, head, component)
  {
    var row := head * 32_768 + position;
    assert row < 65_536 && row / 32_768 == head && row % 32_768 == position;
    var inValues := row * 64 + component;
    assert inValues < 4_194_304 && inValues / 64 == row && inValues % 64 == component;
    var word := layer * 8_388_608 + (4_194_304 + inValues);
    assert KvWord(layer, 1, position, head, component) == word;
    assert word / 8_388_608 == layer && word % 8_388_608 == 4_194_304 + inValues;
  }

  /** Distinct logical words never share an arena word, and all of them fit. */
  lemma AddressRoundTrip(a: Address)
    requires InArena(a)
    ensures WordOf(a) < KV_WORDS && AddressOf(WordOf(a)) == a
  {
    if a.kind == 0 {
      KeyRoundTrip(a.layer, a.position, a.head, a.component);
    } else {
      ValueRoundTrip(a.layer, a.position, a.head, a.component);
    }
  }

  /** Every arena word holds some logical word: the layout wastes nothing. */
  lemma WordRoundTrip(word: nat)
    requires word < KV_WORDS
    ensures InArena(AddressOf(word)) && WordOf(AddressOf(word)) == word
  {
    var inLayer := word % 8_388_608;
    assert word == word / 8_388_608 * 8_388_608 + inLayer;
    if inLayer < 4_194_304 {
      var rest := inLayer / 4;
      var tile := rest / 64;
      assert inLayer == rest * 4 + inLayer % 4;
      assert rest == tile * 64 + rest % 64;
      assert tile == tile / 8_192 * 8_192 + tile % 8_192;
      var position := tile % 8_192 * 4 + inLayer % 4;
      assert position / 4 == tile % 8_192 && position % 4 == inLayer % 4;
    } else {
      var inValues := inLayer - 4_194_304;
      var row := inValues / 64;
      assert inValues == row * 64 + inValues % 64;
      assert row == row / 32_768 * 32_768 + row % 32_768;
    }
  }

  // ---- vectors ----

  const VECTOR_WORDS := KV_HEADS * HEAD_WORDS

  /** The key or the value words of one position in one layer. */
  type Vector = v: seq<nat> | |v| == VECTOR_WORDS witness seq(VECTOR_WORDS, _ => 0)

  function VectorAt(kv: seq<nat>, layer: nat, kind: nat, position: nat): Vector
    requires |kv| == KV_WORDS && layer < LAYERS && kind < 2 && position < CONTEXT_LIMIT
  {
    seq(VECTOR_WORDS, i requires 0 <= i < VECTOR_WORDS =>
      var a := Address(layer, kind, position, i / HEAD_WORDS, i % HEAD_WORDS);
      AddressRoundTrip(a); kv[WordOf(a)])
  }

  /** Keys (kind 0) or values (kind 1) of the positions below `positions`. */
  function Gather(kv: seq<nat>, layer: nat, kind: nat, positions: nat): seq<Vector>
    requires |kv| == KV_WORDS && layer < LAYERS && kind < 2 && positions <= CONTEXT_LIMIT
  {
    seq(positions, p requires 0 <= p < positions => VectorAt(kv, layer, kind, p))
  }

  lemma WordOfVector(kv: seq<nat>, layer: nat, kind: nat, position: nat, head: nat, component: nat)
    requires |kv| == KV_WORDS && InArena(Address(layer, kind, position, head, component))
    ensures var w := KvWord(layer, kind, position, head, component);
      w < KV_WORDS && VectorAt(kv, layer, kind, position)[head * HEAD_WORDS + component] == kv[w]
  {
    var i := head * HEAD_WORDS + component;
    assert i / HEAD_WORDS == head && i % HEAD_WORDS == component;
    AddressRoundTrip(Address(layer, kind, position, head, component));
  }

  /** The same component of four positions of a tile is four keys in a row. */
  lemma KeyLanes(layer: nat, position: nat, head: nat, component: nat, lane: nat)
    requires position % KV_TILE == 0 && lane < KV_TILE
    ensures KvWord(layer, 0, position + lane, head, component) == KvWord(layer, 0, position, head, component) + lane
  {
  }

  /** Components of a value are in a row. */
  lemma ValueLanes(layer: nat, position: nat, head: nat, component: nat, lane: nat)
    ensures KvWord(layer, 1, position, head, component + lane) == KvWord(layer, 1, position, head, component) + lane
  {
  }
}
