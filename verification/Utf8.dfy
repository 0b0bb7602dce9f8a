/**
 The strict incremental UTF-8 decoder.  What it accepts and produces does not depend on how the
 bytes are cut into pieces: together the pieces are decoded exactly when they are the UTF-8 encoding (section 3 of RFC
 3629) of non-zero Unicode scalar values, and the output is the UTF-16 encoding (section 2.1 of RFC 2781) of those.
 */
module Utf8 {
  import opened Wrappers

  type Byte = b: nat | b < 0x100 witness 0
  type Unit = u: nat | u < 0x1_0000 witness 0

  // ---- the encodings ----

  predicate IsScalar(c: nat) {
    c <= 0x10_ffff && !(0xd800 <= c <= 0xdfff)
  }

  /** The values for which `IsScalar` holds. */
  type Scalar = c: nat | c < 0xd800 || 0xe000 <= c <= 0x10_ffff witness 0

  /** The continuation byte that carries six bits. */
  function Carrying(six: nat): Byte
    requires six < 0x40
  {
    0x80 + six
  }

  function EncodeScalar(c: Scalar): (bytes: seq<Byte>)
    ensures 1 <= |bytes| <= 4
  {
    if c < 0x80 then [c]
    else
      var upper := c / 0x40;
      if c < 0x800 then [0xc0 + upper, Carrying(c % 0x40)]
      else
        var top := upper / 0x40;
        if c < 0x1_0000 then [0xe0 + top, Carrying(upper % 0x40), Carrying(c % 0x40)]
        else
          var high: Byte := 0xf0 + top / 0x40;
          [high, Carrying(top % 0x40), Carrying(upper % 0x40), Carrying(c % 0x40)]
  }

  function Encode(text: seq<Scalar>): seq<Byte> {
    if text == [] then [] else EncodeScalar(text[0]) + Encode(text[1..])
  }

  function Utf16Scalar(c: Scalar): (units: seq<Unit>)
    ensures 1 <= |units| <= |EncodeScalar(c)|
  {
    if c < 0x1_0000 then [c]
    else
      var value: nat := c - 0x1_0000;
      var high: Unit := 0xd800 + value / 0x400;
      var low: Unit := 0xdc00 + value % 0x400;
      [high, low]
  }

  function Utf16(text: seq<Scalar>): (units: seq<Unit>)
    ensures |units| <= |Encode(text)|
  {
    if text == [] then [] else Utf16Scalar(text[0]) + Utf16(text[1..])
  }

  // ---- reading UTF-16, section 2.2 of RFC 2781 ----

  /** The text that units spell: a high surrogate needs a low one behind it, and a low one alone means nothing. */
  function ReadUnits(units: seq<Unit>): Option<seq<Scalar>> {
    if units == [] then Some([])
    else if units[0] < 0xd800 || units[0] > 0xdfff then Spelled(units[0], ReadUnits(units[1..]))
    else if units[0] <= 0xdbff && |units| > 1 && 0xdc00 <= units[1] <= 0xdfff then
      var high: nat, low: nat := units[0], units[1];
      Spelled((high - 0xd800) * 0x400 + (low - 0xdc00) + 0x1_0000, ReadUnits(units[2..]))
    else None
  }

  function Spelled(c: Scalar, later: Option<seq<Scalar>>): Option<seq<Scalar>> {
    match later
    case Some(text) => Some([c] + text)
    case None => None
  }

  /** The units of one character are read as that character, whatever follows. */
  lemma OneReadBack(c: Scalar, later: seq<Unit>)
    ensures ReadUnits(Utf16Scalar(c) + later) == Spelled(c, ReadUnits(later))
  {
    var units := Utf16Scalar(c);
    assert (units + later)[|units|..] == later;
  }

  /** Reading the units of a text gives the text back. */
  lemma {:induction false} UnitsReadBack(text: seq<Scalar>)
    ensures ReadUnits(Utf16(text)) == Some(text)
  {
    hide Utf16Scalar;
    if text != [] {
      UnitsReadBack(text[1..]);
      OneReadBack(text[0], Utf16(text[1..]));
      assert text == [text[0]] + text[1..];
    }
  }

  /** And what can be read at all is the units of what is read. */
  lemma {:induction false} UnitsOfRead(units: seq<Unit>)
    requires ReadUnits(units).Some?
    ensures Utf16(ReadUnits(units).value) == units
  {
    if units != [] {
      var n := if units[0] < 0xd800 || units[0] > 0xdfff then 1 else 2;
      UnitsOfRead(units[n..]);
      var text := ReadUnits(units).value;
      assert text[1..] == ReadUnits(units[n..]).value;
      assert units == units[..n] + units[n..];
    }
  }

  predicate NulFree(text: seq<Scalar>) {
    forall i | 0 <= i < |text| :: text[i] != 0
  }

  lemma {:induction false} EncodeConcat(a: seq<Scalar>, b: seq<Scalar>)
    ensures Encode(a + b) == Encode(a) + Encode(b)
  {
    if a == [] {
      assert a + b == b;
    } else {
      assert (a + b)[1..] == a[1..] + b;
      EncodeConcat(a[1..], b);
    }
  }

  lemma {:induction false} Utf16Concat(a: seq<Scalar>, b: seq<Scalar>)
    ensures Utf16(a + b) == Utf16(a) + Utf16(b)
  {
    if a == [] {
      assert a + b == b;
    } else {
      assert (a + b)[1..] == a[1..] + b;
      Utf16Concat(a[1..], b);
    }
  }

  // ---- one character, as the decoder reads it ----

  datatype Utf8Error = Invalid | Incomplete | Nul | Capacity

  datatype Scan =
    | Character(c: Scalar, length: nat)  // the next `length` bytes are a whole character
    | Partial                            // what is left may be the start of a character
    | Broken(error: Utf8Error)

  function Needed(first: Byte): nat {
    if 1 <= first <= 0x7f then 1
    else if 0xc2 <= first <= 0xdf then 2
    else if 0xe0 <= first <= 0xef then 3
    else if 0xf0 <= first <= 0xf4 then 4
    else 0
  }

  predicate Continues(b: Byte) {
    0x80 <= b < 0xc0
  }

  predicate SecondOk(first: Byte, second: Byte) {
    && Continues(second)
    && !(first == 0xe0 && second < 0xa0)
    && !(first == 0xed && second >= 0xa0)
    && !(first == 0xf0 && second < 0x90)
    && !(first == 0xf4 && second >= 0x90)
  }

  /** The six bits a continuation byte carries. */
  function Six(b: Byte): (six: nat)
    ensures six < 0x40 && (Continues(b) ==> b == Carrying(six))
  {
    b % 0x40
  }

  function Point(bytes: seq<Byte>): nat
    requires 1 <= |bytes| <= 4
  {
    var first: nat := bytes[0];
    if |bytes| == 1 then first
    else if |bytes| == 2 then first % 0x20 * 0x40 + Six(bytes[1])
    else if |bytes| == 3 then first % 0x10 * 0x1000 + Six(bytes[1]) * 0x40 + Six(bytes[2])
    else first % 8 * 0x4_0000 + Six(bytes[1]) * 0x1000 + Six(bytes[2]) * 0x40 + Six(bytes[3])
  }

  predicate AllContinue(bytes: seq<Byte>) {
    forall i | 0 <= i < |bytes| :: Continues(bytes[i])
  }

  lemma Digits(upper: nat, six: nat)
    requires six < 0x40
    ensures (upper * 0x40 + six) / 0x40 == upper && (upper * 0x40 + six) % 0x40 == six
  {
  }

  lemma PointIsScalar3(a: Byte, b: Byte, c: Byte)
    requires Needed(a) == 3 && SecondOk(a, b) && Continues(c)
    ensures 0 < Point([a, b, c]) && IsScalar(Point([a, b, c])) && EncodeScalar(Point([a, b, c])) == [a, b, c]
  {
    var top: nat := a - 0xe0;
    Digits(top, Six(b));
    Digits(top * 0x40 + Six(b), Six(c));
    assert Point([a, b, c]) == (top * 0x40 + Six(b)) * 0x40 + Six(c);
  }

  lemma PointIsScalar4(a: Byte, b: Byte, c: Byte, d: Byte)
    requires Needed(a) == 4 && SecondOk(a, b) && Continues(c) && Continues(d)
    ensures var p := Point([a, b, c, d]); 0 < p && IsScalar(p) && EncodeScalar(p) == [a, b, c, d]
  {
    var top: nat := a - 0xf0;
    Digits(top, Six(b));
    Digits(top * 0x40 + Six(b), Six(c));
    Digits((top * 0x40 + Six(b)) * 0x40 + Six(c), Six(d));
    assert Point([a, b, c, d]) == ((top * 0x40 + Six(b)) * 0x40 + Six(c)) * 0x40 + Six(d);
  }

  /** The late checks of the decoder never fire: what passed the earlier ones is a scalar value. */
  lemma PointIsScalar(bytes: seq<Byte>)
    requires 1 <= |bytes| == Needed(bytes[0])
    requires |bytes| >= 2 ==> SecondOk(bytes[0], bytes[1])
    requires AllContinue(bytes[1..])
    ensures 0 < Point(bytes) && IsScalar(Point(bytes)) && EncodeScalar(Point(bytes)) == bytes
  {
    var tail := bytes[1..];
    if |bytes| == 2 {
      Digits(bytes[0] - 0xc0, Six(bytes[1]));
    } else if |bytes| == 3 {
      assert Continues(tail[1]);
      PointIsScalar3(bytes[0], bytes[1], bytes[2]);
      assert bytes == [bytes[0], bytes[1], bytes[2]];
    } else if |bytes| == 4 {
      assert Continues(tail[1]) && Continues(tail[2]);
      PointIsScalar4(bytes[0], bytes[1], bytes[2], bytes[3]);
      assert bytes == [bytes[0], bytes[1], bytes[2], bytes[3]];
    }
  }

  function ScanOne(bytes: seq<Byte>): (scan: Scan)
    requires bytes != []
    ensures scan.Broken? ==> scan.error == Nul || scan.error == Invalid
  {
    var needed := Needed(bytes[0]);
    if bytes[0] == 0 then Broken(Nul)
    else if needed == 0 then Broken(Invalid)
    else if needed >= 2 && |bytes| >= 2 && !SecondOk(bytes[0], bytes[1]) then Broken(Invalid)
    else if |bytes| < needed then
      if AllContinue(bytes[1..]) then Partial else Broken(Invalid)
    else if !AllContinue(bytes[1..needed]) then Broken(Invalid)
    else
      assert bytes[..needed][1..] == bytes[1..needed];
      PointIsScalar(bytes[..needed]);
      Character(Point(bytes[..needed]), needed)
  }

  datatype Decoded = Decoded(text: seq<Scalar>, rest: seq<Byte>)

  /** A character that was read is the encoding of its scalar value. */
  lemma ScanMeaning(bytes: seq<Byte>)
    requires bytes != [] && ScanOne(bytes).Character?
    ensures var scan := ScanOne(bytes);
      scan.c != 0 && scan.length <= |bytes| && bytes[..scan.length] == EncodeScalar(scan.c)
  {
    var needed := Needed(bytes[0]);
    assert bytes[..needed][1..] == bytes[1..needed];
    PointIsScalar(bytes[..needed]);
  }

  lemma EncodeCons(c: Scalar, text: seq<Scalar>)
    ensures Encode([c] + text) == EncodeScalar(c) + Encode(text)
  {
    assert ([c] + text)[1..] == text;
  }

  lemma Joined(bytes: seq<Byte>, c: Scalar, length: nat, tail: Decoded)
    requires bytes != [] && ScanOne(bytes) == Character(c, length)
    requires Encode(tail.text) + tail.rest == bytes[length..] && NulFree(tail.text)
    ensures Encode([c] + tail.text) + tail.rest == bytes && NulFree([c] + tail.text)
  {
    ScanMeaning(bytes);
    EncodeCons(c, tail.text);
    Associate(EncodeScalar(c), Encode(tail.text), tail.rest);
    assert bytes == bytes[..length] + bytes[length..];
  }

  lemma Associate(a: seq<Byte>, b: seq<Byte>, c: seq<Byte>)
    ensures a + (b + c) == a + b + c
  {
  }

  /** Everything the bytes decode to, and the start of a character they end with. */
  function Decode(bytes: seq<Byte>): (r: Result<Decoded, Utf8Error>)
    ensures r.Err? ==> r.error == Nul || r.error == Invalid
    ensures r.Ok? ==> |r.value.rest| <= 3 && Encode(r.value.text) + r.value.rest == bytes && NulFree(r.value.text)
  {
    if bytes == [] then Ok(Decoded([], []))
    else
      match ScanOne(bytes)
      case Broken(error) => Err(error)
      case Partial => Ok(Decoded([], bytes))
      case Character(c, length) =>
        match Decode(bytes[length..])
        case Err(error) => Err(error)
        case Ok(tail) =>
          Joined(bytes, c, length, tail);
          Ok(Decoded([c] + tail.text, tail.rest))
  }

  // ---- decoding is the inverse of encoding ----

  lemma EncodedScalar3(c: Scalar)
    requires 0x800 <= c < 0x1_0000
    ensures var bytes := EncodeScalar(c);
      |bytes| == 3 == Needed(bytes[0]) && SecondOk(bytes[0], bytes[1]) && Continues(bytes[2]) && Point(bytes) == c
  {
    var upper := c / 0x40;
    var top := upper / 0x40;
    assert 0x20 <= upper < 0x400 && top < 0x10;
    assert upper == top * 0x40 + upper % 0x40 && c == upper * 0x40 + c % 0x40;
    assert !(0x360 <= upper < 0x380);
  }

  lemma EncodedScalar4(c: Scalar)
    requires 0x1_0000 <= c
    ensures var bytes := EncodeScalar(c);
      && |bytes| == 4 == Needed(bytes[0]) && SecondOk(bytes[0], bytes[1])
      && Continues(bytes[2]) && Continues(bytes[3]) && Point(bytes) == c
  {
    var upper := c / 0x40;
    var top := upper / 0x40;
    var high := top / 0x40;
    assert 0x400 <= upper <= 0x43ff && 0x10 <= top <= 0x10f && high <= 4;
    assert top == high * 0x40 + top % 0x40;
    assert upper == top * 0x40 + upper % 0x40 && c == upper * 0x40 + c % 0x40;
  }

  lemma EncodedScalarShape(c: Scalar)
    requires c != 0
    ensures var bytes := EncodeScalar(c);
      && |bytes| == Needed(bytes[0]) && AllContinue(bytes[1..]) && Point(bytes) == c
      && (|bytes| >= 2 ==> SecondOk(bytes[0], bytes[1]))
  {
    if c >= 0x1_0000 {
      EncodedScalar4(c);
    } else if c >= 0x800 {
      EncodedScalar3(c);
    } else if c >= 0x80 {
      assert c == c / 0x40 * 0x40 + c % 0x40;
    }
  }

  lemma ScanEncoded(c: Scalar, tail: seq<Byte>)
    requires c != 0
    ensures ScanOne(EncodeScalar(c) + tail) == Character(c, |EncodeScalar(c)|)
  {
    EncodedScalarShape(c);
    var head := EncodeScalar(c);
    var bytes := head + tail;
    assert bytes[..|head|] == head;
    assert bytes[1..|head|] == head[1..];
  }

  function Prepend(text: seq<Scalar>, r: Result<Decoded, Utf8Error>): Result<Decoded, Utf8Error> {
    match r
    case Ok(d) => Ok(Decoded(text + d.text, d.rest))
    case Err(error) => Err(error)
  }

  lemma DecodeOne(c: Scalar, tail: seq<Byte>)
    requires c != 0
    ensures Decode(EncodeScalar(c) + tail) == Prepend([c], Decode(tail))
  {
    ScanEncoded(c, tail);
    assert (EncodeScalar(c) + tail)[|EncodeScalar(c)|..] == tail;
  }

  lemma PrependTwice(a: seq<Scalar>, b: seq<Scalar>, r: Result<Decoded, Utf8Error>)
    ensures Prepend(a, Prepend(b, r)) == Prepend(a + b, r)
  {
    if r.Ok? {
      assert a + (b + r.value.text) == a + b + r.value.text;
    }
  }

  lemma PrependNothing(r: Result<Decoded, Utf8Error>)
    ensures Prepend([], r) == r
  {
    if r.Ok? {
      assert [] + r.value.text == r.value.text;
    }
  }

  lemma PrependLast(text: seq<Scalar>, rest: seq<Byte>)
    ensures Prepend(text, Ok(Decoded([], rest))) == Ok(Decoded(text, rest))
  {
    assert text + [] == text;
  }

  lemma {:induction false} DecodeEncode(text: seq<Scalar>, rest: seq<Byte>)
    requires NulFree(text)
    ensures Decode(Encode(text) + rest) == Prepend(text, Decode(rest))
  {
    if text == [] {
      assert Encode(text) + rest == rest;
      PrependNothing(Decode(rest));
    } else {
      var tail := Encode(text[1..]) + rest;
      assert Encode(text) + rest == EncodeScalar(text[0]) + tail;
      DecodeOne(text[0], tail);
      DecodeEncode(text[1..], rest);
      PrependTwice([text[0]], text[1..], Decode(rest));
      assert text == [text[0]] + text[1..];
    }
  }

  /** Decoding succeeds with nothing left over exactly on encodings of NUL-free text. */
  lemma DecodeExact(bytes: seq<Byte>, text: seq<Scalar>)
    ensures Decode(bytes) == Ok(Decoded(text, [])) <==> NulFree(text) && bytes == Encode(text)
  {
    if NulFree(text) && bytes == Encode(text) {
      DecodeEncode(text, []);
      assert Encode(text) + [] == bytes && text + [] == text;
    }
  }

  ghost predicate WellFormed(bytes: seq<Byte>) {
    exists text :: NulFree(text) && bytes == Encode(text)
  }

  // ---- splitting ----

  /** A verdict on some bytes does not change when more follow. */
  lemma ScanMore(a: seq<Byte>, b: seq<Byte>)
    requires a != [] && ScanOne(a) != Partial
    ensures ScanOne(a + b) == ScanOne(a)
  {
    var needed := Needed(a[0]);
    if 0 < needed {
      if |a| >= needed {
        assert (a + b)[1..needed] == a[1..needed] && (a + b)[..needed] == a[..needed];
      } else if !(|a| >= 2 && !SecondOk(a[0], a[1])) {
        var i :| 0 <= i < |a| - 1 && !Continues(a[1..][i]);
        if |a + b| >= needed {
          assert !Continues((a + b)[1..needed][i]);
        } else {
          assert !Continues((a + b)[1..][i]);
        }
      }
    }
  }

  /** Decoding in two steps, the second starting from what the first left over, is decoding at once. */
  lemma {:induction false} DecodeSplit(a: seq<Byte>, b: seq<Byte>)
    ensures Decode(a + b) ==
      match Decode(a)
      case Err(error) => Err(error)
      case Ok(d) => Prepend(d.text, Decode(d.rest + b))
    decreases |a|
  {
    match Decode(a)
    case Ok(d) =>
      assert a + b == Encode(d.text) + (d.rest + b);
      DecodeEncode(d.text, d.rest + b);
    case Err(error) =>
      ScanMore(a, b);
      var scan := ScanOne(a);
      if scan.Character? {
        assert (a + b)[scan.length..] == a[scan.length..] + b;
        DecodeSplit(a[scan.length..], b);
      }
  }

  /** What is left over decodes to itself. */
  lemma {:induction false} RestIsPartial(bytes: seq<Byte>)
    requires Decode(bytes).Ok?
    ensures Decode(Decode(bytes).value.rest) == Ok(Decoded([], Decode(bytes).value.rest))
  {
    if bytes != [] && ScanOne(bytes).Character? {
      RestIsPartial(bytes[ScanOne(bytes).length..]);
    }
  }

  lemma SliceSlice<T>(s: seq<T>, a: nat, b: nat, c: nat, d: nat)
    requires a <= b <= |s| && c <= d <= b - a
    ensures s[a..b][c..d] == s[a + c..a + d]
  {
    forall i | 0 <= i < d - c ensures s[a..b][c..d][i] == s[a + c..a + d][i] {
      assert s[a..b][c + i] == s[a + c + i];
    }
  }

  /** A character takes at least as many bytes as it gives units. */
  lemma ScanTakes(bytes: seq<Byte>)
    requires bytes != [] && ScanOne(bytes).Character?
    ensures 0 < ScanOne(bytes).length <= |bytes| && |Utf16Scalar(ScanOne(bytes).c)| <= ScanOne(bytes).length
  {
    ScanMeaning(bytes);
  }

  lemma Utf16Next(read: seq<Scalar>, c: Scalar)
    ensures Utf16(read + [c]) == Utf16(read) + Utf16Scalar(c)
  {
    Utf16Concat(read, [c]);
    assert Utf16([c]) == Utf16Scalar(c) + Utf16([]);
  }

  lemma DropDrop<T>(s: seq<T>, a: nat, b: nat)
    requires a + b <= |s|
    ensures s[a..][b..] == s[a + b..]
  {
  }

  /** One more character read. */
  lemma ReadOne(bytes: seq<Byte>, read: seq<Scalar>)
    requires bytes != [] && ScanOne(bytes).Character?
    ensures Prepend(read, Decode(bytes)) == Prepend(read + [ScanOne(bytes).c], Decode(bytes[ScanOne(bytes).length..]))
  {
    PrependTwice(read, [ScanOne(bytes).c], Decode(bytes[ScanOne(bytes).length..]));
  }

  // ---- the decoder ----

  class Utf8Decoder {
    const carry: array<Byte>
    var carryLen: nat

    ghost predicate Valid()
      reads this, carry
    {
      carry.Length == 3 && carryLen <= 3 && Decode(carry[..carryLen]) == Ok(Decoded([], carry[..carryLen]))
    }

    ghost function Pending(): seq<Byte>
      reads this, carry
      requires Valid()
    {
      carry[..carryLen]
    }

    constructor ()
      ensures Valid() && Pending() == [] && fresh(carry)
    {
      carry := new Byte[3](_ => 0);
      carryLen := 0;
    }

    method Finish() returns (r: Result<(), Utf8Error>)
      requires Valid()
      ensures r == if Pending() == [] then Ok(()) else Err(Incomplete)
    {
      if carryLen == 0 {
        return Ok(());
      }
      return Err(Incomplete);
    }

    /** Do the bytes in `from..to` all continue a character? */
    static method Continuing(bytes: array<Byte>, from: nat, to: nat) returns (ok: bool)
      requires from <= to <= bytes.Length
      ensures ok == AllContinue(bytes[from..to])
    {
      var index := from;
      while index < to
        invariant from <= index <= to && AllContinue(bytes[from..index])
      {
        if !Continues(bytes[index]) {
          assert bytes[from..to][index - from] == bytes[index];
          return false;
        }
        assert bytes[from..index + 1] == bytes[from..index] + [bytes[index]];
        index := index + 1;
      }
      ok := true;
    }

    /** The checks of one iteration of `push`, in the order it makes them. */
    static method ScanNext(bytes: array<Byte>, at: nat, length: nat) returns (scan: Scan)
      requires at < length <= bytes.Length
      ensures scan == ScanOne(bytes[at..length])
    {
      ghost var all := bytes[at..length];
      var first := bytes[at];
      assert first == all[0];
      if first == 0 {
        return Broken(Nul);
      }
      var needed := Needed(first);
      if needed == 0 {
        return Broken(Invalid);
      }
      if needed >= 2 && length - at >= 2 {
        assert bytes[at + 1] == all[1];
        if !SecondOk(first, bytes[at + 1]) {
          return Broken(Invalid);
        }
      }
      if length - at < needed {
        assert bytes[at + 1..length] == all[1..];
        var ok := Continuing(bytes, at + 1, length);
        return if ok then Partial else Broken(Invalid);
      }
      SliceSlice(bytes[..], at, length, 1, needed);
      SliceSlice(bytes[..], at, length, 0, needed);
      var ok := Continuing(bytes, at + 1, at + needed);
      if !ok {
        return Broken(Invalid);
      }
      assert all[..needed][1..] == all[1..needed];
      PointIsScalar(all[..needed]);
      var point := Point(bytes[at..at + needed]);
      if point == 0 || !IsScalar(point) {
        assert false;  // the late surrogate and range checks
      }
      scan := Character(point, needed);
    }

    /** Stage the one or two units of a scalar. */
    static method Emit(staged: array<Unit>, units: nat, c: Scalar, ghost text: seq<Scalar>) returns (units': nat)
      requires staged[..] != [] && units + |Utf16Scalar(c)| <= staged.Length && staged[..units] == Utf16(text)
      modifies staged
      ensures units' == units + |Utf16Scalar(c)| && staged[..units'] == Utf16(text + [c])
    {
      Utf16Next(text, c);
      if c <= 0xffff {
        staged[units] := c;
        units' := units + 1;
      } else {
        var value: nat := c - 0x1_0000;
        staged[units], staged[units + 1] := 0xd800 + value / 0x400, 0xdc00 + value % 0x400;
        units' := units + 2;
      }
      assert staged[..units'] == staged[..units] + Utf16Scalar(c);
    }

    /** `text` has been read from `all[..rest]` and its units are staged. */
    static ghost predicate Reading(all: seq<Byte>, rest: nat, staged: array<Unit>, units: nat, text: seq<Scalar>)
      reads staged
    {
      && units == |Utf16(text)| <= rest <= |all| < staged.Length
      && staged[..units] == Utf16(text)
      && Decode(all) == Prepend(text, Decode(all[rest..]))
    }

    /** What has been read decides the whole once the next bytes are bad, unfinished, or none. */
    static lemma ReadingEnds(all: seq<Byte>, rest: nat, staged: array<Unit>, units: nat, text: seq<Scalar>)
      requires Reading(all, rest, staged, units, text)
      ensures rest == |all| || ScanOne(all[rest..]) == Partial ==> Decode(all) == Ok(Decoded(text, all[rest..]))
      ensures rest < |all| && ScanOne(all[rest..]).Broken? ==> Decode(all) == Err(ScanOne(all[rest..]).error)
    {
      PrependLast(text, all[rest..]);
    }

    /** One iteration of the loop. */
    static method DecodeNext(ghost all: seq<Byte>, bytes: array<Byte>, length: nat, staged: array<Unit>, at: nat,
                             staged': nat, ghost read: seq<Scalar>)
        returns (scan: Scan, rest: nat, units: nat, ghost text: seq<Scalar>)
      requires length <= bytes.Length && all == bytes[..length] && at < length
      requires Reading(all, at, staged, staged', read)
      modifies staged
      ensures scan == ScanOne(all[at..])
      ensures !scan.Character? ==> unchanged(staged) && rest == at && units == staged' && text == read
      ensures scan.Character? ==> at < rest && Reading(all, rest, staged, units, text)
    {
      assert bytes[at..length] == all[at..];
      scan := ScanNext(bytes, at, length);
      rest, units, text := at, staged', read;
      if !scan.Character? {
        return;
      }
      ScanTakes(all[at..]);
      ReadOne(all[at..], read);
      DropDrop(all, at, scan.length);
      Utf16Next(read, scan.c);
      if units + |Utf16Scalar(scan.c)| > staged.Length {
        assert false;  // the capacity checks on the staging buffer
      }
      text := read + [scan.c];
      rest := at + scan.length;
      assert Decode(all) == Prepend(text, Decode(all[rest..]));
      units := Emit(staged, units, scan.c, read);
    }

    /** The loop of `push`; `rest` is where the start of an unfinished character begins. */
    static method DecodeLoop(bytes: array<Byte>, length: nat, staged: array<Unit>)
        returns (error: Option<Utf8Error>, units: nat, rest: nat)
      requires length <= bytes.Length && length < staged.Length
      modifies staged
      ensures match Decode(bytes[..length])
              case Err(e) => error == Some(e)
              case Ok(d) =>
                && error.None? && units == |Utf16(d.text)| <= length && staged[..units] == Utf16(d.text)
                && rest <= length && bytes[rest..length] == d.rest
    {
      hide Decode, ScanOne, Prepend;
      ghost var text: seq<Scalar> := [];
      ghost var all := bytes[..length];
      units, rest, error := 0, 0, None;
      PrependNothing(Decode(all));
      assert all[0..] == all;
      while rest < length
        invariant bytes[..length] == all && error.None?
        invariant Reading(all, rest, staged, units, text)
      {
        var scan;
        ReadingEnds(all, rest, staged, units, text);
        scan, rest, units, text := DecodeNext(all, bytes, length, staged, rest, units, text);
        if scan.Broken? {
          error := Some(scan.error);
          return;
        }
        if scan.Partial? {
          assert bytes[rest..length] == all[rest..];
          return;
        }
      }
      ReadingEnds(all, rest, staged, units, text);
      assert bytes[rest..length] == all[rest..];
    }

    static method Copy<T>(from: seq<T>, to: array<T>, at: nat)
      requires at + |from| <= to.Length
      modifies to
      ensures to[..at] == old(to[..at]) && to[at..at + |from|] == from
      ensures to[at + |from|..] == old(to[at + |from|..])
    {
      var i := 0;
      while i < |from|
        invariant i <= |from|
        invariant to[..at] == old(to[..at]) && to[at..at + i] == from[..i]
        invariant to[at + |from|..] == old(to[at + |from|..])
      {
        to[at + i] := from[i];
        i := i + 1;
      }
    }

    /**
     `push`: decodes what is pending followed by `piece`, all or nothing.  It never reports
     Incomplete, and the staging buffer is never full.
     */
    method Push(piece: seq<Byte>, output: array<Unit>) returns (r: Result<nat, Utf8Error>)
      requires Valid()
      modifies this, carry, output
      ensures Valid()
      ensures |piece| > 128 ==> r == Err(Capacity)
      ensures |piece| <= 128 ==>
        match Decode(old(Pending()) + piece)
        case Err(error) => r == Err(error)
        case Ok(d) =>
          if output.Length < |Utf16(d.text)| then r == Err(Capacity)
          else
            && r == Ok(|Utf16(d.text)|) && Pending() == d.rest && output[..|Utf16(d.text)|] == Utf16(d.text)
            && ReadUnits(output[..|Utf16(d.text)|]) == Some(d.text)
      ensures r.Err? ==> unchanged(this) && unchanged(carry) && unchanged(output) && r.error != Incomplete
      ensures r.Ok? ==> r.value <= output.Length && output[r.value..] == old(output[r.value..])
    {
      if |piece| > 128 {
        return Err(Capacity);
      }
      var bytes, length := Gather(piece);
      var staged := new Unit[132](_ => 0);
      var error, units, rest := DecodeLoop(bytes, length, staged);
      if error.Some? {
        return Err(error.value);
      }
      if output.Length < units {
        return Err(Capacity);
      }
      RestIsPartial(bytes[..length]);
      UnitsReadBack(Decode(old(Pending()) + piece).value.text);
      Publish(staged, units, bytes, rest, length, output);
      r := Ok(units);
    }

    /** The units go out, the unfinished character is carried. */
    method Publish(staged: array<Unit>, units: nat, bytes: array<Byte>, rest: nat, length: nat, output: array<Unit>)
      requires carry.Length == 3 && rest <= length <= bytes.Length && bytes != carry && length - rest <= 3
      requires Decode(bytes[rest..length]) == Ok(Decoded([], bytes[rest..length]))
      requires units <= staged.Length && units <= output.Length && staged != output
      modifies this, carry, output
      ensures Valid() && Pending() == old(bytes[rest..length])
      ensures output[..units] == staged[..units] && output[units..] == old(output[units..])
    {
      Copy(staged[..units], output, 0);
      Keep(bytes, rest, length);
    }

    /** The carried bytes followed by the piece. */
    method Gather(piece: seq<Byte>) returns (bytes: array<Byte>, length: nat)
      requires Valid() && |piece| <= 128
      ensures fresh(bytes) && bytes.Length == 131 && length <= 131 && bytes[..length] == Pending() + piece
    {
      hide Decode;
      bytes := new Byte[131](_ => 0);
      Copy(carry[..carryLen], bytes, 0);
      assert bytes[..carryLen] == bytes[0..carryLen];
      Copy(piece, bytes, carryLen);
      length := carryLen + |piece|;
      assert bytes[..length] == bytes[..carryLen] + bytes[carryLen..length];
    }

    /** Carry the bytes from `rest` on. */
    method Keep(bytes: array<Byte>, rest: nat, length: nat)
      requires carry.Length == 3 && rest <= length <= bytes.Length && bytes != carry && length - rest <= 3
      requires Decode(bytes[rest..length]) == Ok(Decoded([], bytes[rest..length]))
      modifies this, carry
      ensures Valid() && Pending() == bytes[rest..length]
    {
      Copy(bytes[rest..length], carry, 0);
      carryLen := length - rest;
      assert carry[..carryLen] == bytes[rest..length];
    }
  }

  // ---- streams of pieces ----

  function Flatten(pieces: seq<seq<Byte>>): seq<Byte> {
    if pieces == [] then [] else Flatten(pieces[..|pieces| - 1]) + pieces[|pieces| - 1]
  }

  lemma {:induction false} FlattenSplit(pieces: seq<seq<Byte>>, i: nat)
    requires i <= |pieces|
    ensures Flatten(pieces) == Flatten(pieces[..i]) + Flatten(pieces[i..])
  {
    if i == |pieces| {
      assert pieces[..i] == pieces;
    } else {
      var shorter := pieces[..|pieces| - 1];
      FlattenSplit(shorter, i);
      assert shorter[..i] == pieces[..i] && shorter[i..] == pieces[i..][..|pieces| - i - 1];
    }
  }

  lemma {:induction false} FlattenConcat(a: seq<seq<Byte>>, b: seq<seq<Byte>>)
    ensures Flatten(a + b) == Flatten(a) + Flatten(b)
  {
    FlattenSplit(a + b, |a|);
    assert (a + b)[..|a|] == a && (a + b)[|a|..] == b;
  }

  lemma FlattenOne(a: seq<Byte>)
    ensures Flatten([a]) == a
  {
    assert [a][..0] == [];
  }

  lemma FlattenNext(pieces: seq<seq<Byte>>, i: nat)
    requires i < |pieces|
    ensures Flatten(pieces[..i + 1]) == Flatten(pieces[..i]) + pieces[i]
  {
    assert pieces[..i + 1][..i] == pieces[..i];
  }

  /** The text of well-formed bytes is determined by them. */
  lemma DecodeWellFormed(bytes: seq<Byte>)
    ensures WellFormed(bytes) <==> Decode(bytes).Ok? && Decode(bytes).value.rest == []
    ensures forall text :: NulFree(text) && bytes == Encode(text) ==> Decode(bytes) == Ok(Decoded(text, []))
  {
    forall text | NulFree(text) && bytes == Encode(text) ensures Decode(bytes) == Ok(Decoded(text, [])) {
      DecodeExact(bytes, text);
    }
    if Decode(bytes).Ok? && Decode(bytes).value.rest == [] {
      DecodeExact(bytes, Decode(bytes).value.text);
    }
  }

  /** One more piece: a failure is a failure of the whole, a success never overflows the buffer. */
  lemma StreamStep(pieces: seq<seq<Byte>>, i: nat, text: seq<Scalar>, pending: seq<Byte>)
    requires i < |pieces| && |pending| <= 3 && |pieces[i]| <= 128
    requires Decode(Flatten(pieces[..i])) == Ok(Decoded(text, pending))
    ensures Decode(Flatten(pieces[..i + 1])) == Prepend(text, Decode(pending + pieces[i]))
    ensures var r := Decode(pending + pieces[i]);
      if r.Err? then Decode(Flatten(pieces)) == r
      else |Utf16(r.value.text)| <= 131 && Utf16(text + r.value.text) == Utf16(text) + Utf16(r.value.text)
  {
    FlattenNext(pieces, i);
    DecodeSplit(Flatten(pieces[..i]), pieces[i]);
    match Decode(pending + pieces[i])
    case Err(_) =>
      FlattenSplit(pieces, i + 1);
      DecodeSplit(Flatten(pieces[..i + 1]), Flatten(pieces[i + 1..]));
    case Ok(d) =>
      Utf16Concat(text, d.text);
  }

  /**
   Pushing the pieces one by one and finishing succeeds exactly when all of them together are the encoding of
   some text, and then the units are those of that text, however the bytes were cut.
   */
  method DecodeStream(pieces: seq<seq<Byte>>) returns (r: Result<seq<Unit>, Utf8Error>)
    requires forall i | 0 <= i < |pieces| :: |pieces[i]| <= 128
    ensures r.Ok? <==> WellFormed(Flatten(pieces))
    ensures forall text :: NulFree(text) && Flatten(pieces) == Encode(text) ==>
      r == Ok(Utf16(text)) && ReadUnits(r.value) == Some(text)
  {
    DecodeWellFormed(Flatten(pieces));
    var decoder := new Utf8Decoder();
    var output := new Unit[132](_ => 0);
    var units: seq<Unit> := [];
    ghost var text: seq<Scalar> := [];
    var i := 0;
    while i < |pieces|
      invariant i <= |pieces|
      invariant decoder.Valid() && fresh(decoder) && fresh(decoder.carry) && fresh(output) && output.Length == 132
      invariant Decode(Flatten(pieces[..i])) == Ok(Decoded(text, decoder.Pending()))
      invariant units == Utf16(text)
    {
      ghost var pending := decoder.Pending();
      StreamStep(pieces, i, text, pending);
      var pushed := decoder.Push(pieces[i], output);
      if pushed.Err? {
        return Err(pushed.error);
      }
      text := text + Decode(pending + pieces[i]).value.text;
      units := units + output[..pushed.value];
      i := i + 1;
    }
    assert pieces[..i] == pieces;
    var finished := decoder.Finish();
    if finished.Err? {
      return Err(finished.error);
    }
    UnitsReadBack(text);
    r := Ok(units);
  }
}
