/**
 Line endings on the way to the console: every line feed goes out after a carriage return, one
 that already follows a carriage return is left alone, and cutting the text into pieces changes nothing.
 */
module ConsoleText {
  import opened Wrappers
  import opened Utf8

  const LF: Unit := 10
  const CR: Unit := 13

  /** The text sent for `input`, when the unit before it was (or was not) a carriage return. */
  function Rendered(input: seq<Unit>, afterCr: bool): seq<Unit> {
    if input == [] then [] else RenderedUnit(input[0], afterCr) + Rendered(input[1..], input[0] == CR)
  }

  function RenderedUnit(unit: Unit, afterCr: bool): seq<Unit> {
    if unit == LF && !afterCr then [CR, LF] else [unit]
  }

  function EndsInCr(input: seq<Unit>, afterCr: bool): bool {
    if input == [] then afterCr else input[|input| - 1] == CR
  }

  /** Rendering in two pieces, the flag carried over, is rendering at once. */
  lemma {:induction false} RenderedSplit(a: seq<Unit>, b: seq<Unit>, afterCr: bool)
    ensures Rendered(a + b, afterCr) == Rendered(a, afterCr) + Rendered(b, EndsInCr(a, afterCr))
    ensures EndsInCr(a + b, afterCr) == EndsInCr(b, EndsInCr(a, afterCr))
  {
    if a == [] {
      assert a + b == b;
    } else {
      var tail, last := a[1..], EndsInCr(a, afterCr);
      assert (a + b)[1..] == tail + b;
      RenderedSplit(tail, b, a[0] == CR);
      var head := RenderedUnit(a[0], afterCr);
      assert head + (Rendered(tail, a[0] == CR) + Rendered(b, last)) == head + Rendered(tail, a[0] == CR) + Rendered(b, last);
    }
  }

  // ---- what rendering means ----

  /** Every line feed follows a carriage return. */
  predicate CrlfOnly(text: seq<Unit>, afterCr: bool) {
    text == [] || ((text[0] == LF ==> afterCr) && CrlfOnly(text[1..], text[0] == CR))
  }

  /** `text` with every CR LF pair read as one line end, written LF. */
  function Lines(text: seq<Unit>): seq<Unit> {
    if text == [] then []
    else if |text| >= 2 && text[0] == CR && text[1] == LF then [LF] + Lines(text[2..])
    else [text[0]] + Lines(text[1..])
  }

  lemma {:induction false} RenderedCrlfOnly(input: seq<Unit>, afterCr: bool)
    ensures CrlfOnly(Rendered(input, afterCr), afterCr)
  {
    if input != [] {
      RenderedCrlfOnly(input[1..], input[0] == CR);
      var rest := Rendered(input[1..], input[0] == CR);
      var out := Rendered(input, afterCr);
      if input[0] == LF && !afterCr {
        assert out[1..] == [LF] + rest && out[1..][1..] == rest;
      } else {
        assert out[1..] == rest;
      }
    }
  }

  /** Rendering keeps the lines. */
  lemma {:induction false} RenderedKeepsLines(input: seq<Unit>)
    ensures Lines(Rendered(input, false)) == Lines(input)
    decreases |input|
  {
    var out := Rendered(input, false);
    if input == [] {
    } else if |input| >= 2 && input[0] == CR && input[1] == LF {
      var rest := Rendered(input[2..], false);
      assert input[1..][1..] == input[2..];
      assert Rendered(input[1..], true) == [LF] + rest;
      assert out == [CR, LF] + rest && out[2..] == rest;
      RenderedKeepsLines(input[2..]);
    } else if input[0] == CR {
      RenderedAfterCr(input[1..]);
      var rest := Rendered(input[1..], false);
      assert out == [CR] + rest && out[1..] == rest;
      if input[1..] != [] {
        assert rest[0] == input[1];
      }
      RenderedKeepsLines(input[1..]);
    } else if input[0] == LF {
      var rest := Rendered(input[1..], false);
      assert out == [CR, LF] + rest && out[2..] == rest;
      RenderedKeepsLines(input[1..]);
    } else {
      var rest := Rendered(input[1..], false);
      assert out == [input[0]] + rest && out[1..] == rest;
      RenderedKeepsLines(input[1..]);
    }
  }

  /** The flag matters only for a line feed that comes first. */
  lemma RenderedAfterCr(input: seq<Unit>)
    ensures input == [] || input[0] != LF ==> Rendered(input, true) == Rendered(input, false)
  {
  }

  /** There is only one text with only CR LF line ends and the same lines. */
  lemma {:induction false} CrlfUnique(a: seq<Unit>, b: seq<Unit>)
    requires CrlfOnly(a, false) && CrlfOnly(b, false) && Lines(a) == Lines(b)
    ensures a == b
    decreases |a|
  {
    if a == [] || b == [] {
      assert a == [] && b == [];
    } else {
      var pairA := LinesHead(a);
      var pairB := LinesHead(b);
      assert a == a[..pairA] + a[pairA..] && b == b[..pairB] + b[pairB..];
      assert Lines(a) == [Lines(a)[0]] + Lines(a[pairA..]);
      assert Lines(b) == [Lines(b)[0]] + Lines(b[pairB..]);
      assert Lines(a[pairA..]) == Lines(a)[1..] == Lines(b)[1..] == Lines(b[pairB..]);
      assert a[..pairA] == b[..pairB];
      CrlfUnique(a[pairA..], b[pairB..]);
    }
  }

  /** The first line unit of a text with only CR LF line ends, and how much of the text it takes. */
  lemma LinesHead(a: seq<Unit>) returns (n: nat)
    requires CrlfOnly(a, false) && a != []
    ensures 1 <= n <= |a| && Lines(a) == [Lines(a)[0]] + Lines(a[n..])
    ensures CrlfOnly(a[n..], false)
    ensures a[..n] == if Lines(a)[0] == LF then [CR, LF] else [Lines(a)[0]]
  {
    if |a| >= 2 && a[0] == CR && a[1] == LF {
      n := 2;
      assert a[1..][1..] == a[2..];
    } else {
      n := 1;
      if |a| >= 2 {
        assert a[1..][0] == a[1];
      }
    }
  }

  /** Rendering is the only way to get CR LF line ends and keep the lines. */
  lemma RenderedUnique(input: seq<Unit>, output: seq<Unit>)
    ensures output == Rendered(input, false) <==> CrlfOnly(output, false) && Lines(output) == Lines(input)
  {
    RenderedCrlfOnly(input, false);
    RenderedKeepsLines(input);
    if CrlfOnly(output, false) && Lines(output) == Lines(input) {
      CrlfUnique(output, Rendered(input, false));
    }
  }

  // ---- the two loops ----

  method RenderConsoleText(input: seq<Unit>, previousWasCr: bool, output: array<Unit>)
      returns (r: Result<nat, Utf8Error>, previousWasCr': bool)
    modifies output
    ensures if output.Length < |Rendered(input, previousWasCr)| then
              r == Err(Capacity) && unchanged(output) && previousWasCr' == previousWasCr
            else
              && r == Ok(|Rendered(input, previousWasCr)|) && previousWasCr' == EndsInCr(input, previousWasCr)
              && output[..] == Rendered(input, previousWasCr) + old(output[|Rendered(input, previousWasCr)|..])
  {
    ghost var before := output[..];
    var needed := CountNeeded(input, previousWasCr);
    if output.Length < needed {
      return Err(Capacity), previousWasCr;
    }
    var written := 0;
    var precedingCr := previousWasCr;
    var i := 0;
    while i < |input|
      invariant i <= |input| && precedingCr == EndsInCr(input[..i], previousWasCr)
      invariant written == |Rendered(input[..i], previousWasCr)|
      invariant written + |Rendered(input[i..], precedingCr)| == needed <= output.Length
      invariant output[..written] == Rendered(input[..i], previousWasCr)
      invariant output[written..] == before[written..]
    {
      RenderedNext(input, i, previousWasCr);
      written := PutUnit(input[i], precedingCr, output, written);
      precedingCr := input[i] == CR;
      i := i + 1;
    }
    assert input[..i] == input && input[i..] == [];
    assert output[..] == output[..written] + output[written..];
    return Ok(written), precedingCr;
  }

  method PutUnit(unit: Unit, precedingCr: bool, output: array<Unit>, at: nat) returns (written: nat)
    requires at + |RenderedUnit(unit, precedingCr)| <= output.Length
    modifies output
    ensures written == at + |RenderedUnit(unit, precedingCr)|
    ensures output[..written] == old(output[..at]) + RenderedUnit(unit, precedingCr)
    ensures output[written..] == old(output[written..])
  {
    written := at;
    if unit == LF && !precedingCr {
      output[written] := CR;
      written := written + 1;
    }
    output[written] := unit;
    written := written + 1;
  }

  lemma RenderedNext(input: seq<Unit>, i: nat, afterCr: bool)
    requires i < |input|
    ensures var flag := EndsInCr(input[..i], afterCr);
      && Rendered(input[..i + 1], afterCr)
           == Rendered(input[..i], afterCr) + RenderedUnit(input[i], flag)
      && Rendered(input, afterCr)
           == Rendered(input[..i + 1], afterCr) + Rendered(input[i + 1..], input[i] == CR)
      && EndsInCr(input[..i + 1], afterCr) == (input[i] == CR)
  {
    assert input[..i + 1] == input[..i] + [input[i]];
    RenderedSplit(input[..i], [input[i]], afterCr);
    assert input == input[..i + 1] + input[i + 1..];
    RenderedSplit(input[..i + 1], input[i + 1..], afterCr);
  }

  method CountNeeded(input: seq<Unit>, previousWasCr: bool) returns (needed: nat)
    ensures needed == |Rendered(input, previousWasCr)|
  {
    needed := |input|;
    var precedingCr := previousWasCr;
    var i := 0;
    assert input[..0] == [];
    while i < |input|
      invariant i <= |input| && precedingCr == EndsInCr(input[..i], previousWasCr)
      invariant needed == |Rendered(input[..i], previousWasCr)| + |input| - i
    {
      RenderedNext(input, i, previousWasCr);
      if input[i] == LF && !precedingCr {
        needed := needed + 1;
      }
      precedingCr := input[i] == CR;
      i := i + 1;
    }
    assert input[..i] == input;
  }
}
