/**
 Evaluations that ask for matrix products one at a time: what one of them says about the products it is given, and what
 follows when one goes on after another.
 */
module ProductSteps {
  import opened Binary32
  import opened Evaluation
  import opened Wrappers

  /** Where an evaluation is once it has some of its products: failed, waiting for the next one, or through. */
  datatype Progress<+T> = Stopped | Asks(input: Input) | Reached(value: T) {
    predicate IsFailure() {
      !Reached?
    }

    function PropagateFailure<U>(): Progress<U>
      requires !Reached?
    {
      if Stopped? then Stopped else Asks(input)
    }

    function Extract(): T
      requires Reached?
    {
      value
    }
  }

  /** A check on the way. */
  datatype Gate = Open | Shut {
    predicate IsFailure() {
      Shut?
    }

    function PropagateFailure<U>(): Progress<U>
      requires Shut?
    {
      Stopped
    }
  }

  function Finiteness(words: Words): Gate {
    if AllFinite(words) then Open else Shut
  }

  /** The `i`th product, if it is there already. */
  function Take(given: seq<Words>, i: nat, input: Input): (r: Progress<Words>)
    ensures r.Reached? ==> i < |given| && |r.value| == ProductRows(input.product)
  {
    if i >= |given| then Asks(input)
    else if |given[i]| != ProductRows(input.product) then Stopped
    else Reached(given[i])
  }

  /** The products from the `n`th on. */
  function Rest(given: seq<Words>, n: nat): seq<Words> {
    if n <= |given| then given[n..] else []
  }

  // ---- an evaluation that asks for exactly `n` products ----

  /** Every product given so far is the one that was asked for. */
  ghost predicate Answered<T>(m: Model, f: seq<Words> -> Progress<T>, given: seq<Words>) {
    forall i | 0 <= i < |given| :: AnsweredAt(m, f, given, i)
  }

  predicate AnsweredAt<T>(m: Model, f: seq<Words> -> Progress<T>, given: seq<Words>, i: nat)
    requires i < |given|
  {
    f(given[..i]).Asks? && given[i] == Apply(m, f(given[..i]).input)
  }

  /** It asks while it has fewer than `n`, is through only with `n`, and looks at no more. */
  predicate AsksFor<T(==)>(f: seq<Words> -> Progress<T>, n: nat, given: seq<Words>) {
    && (f(given).Asks? ==> |given| < n)
    && (f(given).Reached? ==> |given| >= n)
    && (|given| >= n ==> f(given) == f(given[..n]))
  }

  /** With the right answers it gives `result`. */
  ghost predicate Gives<T>(m: Model, f: seq<Words> -> Progress<T>, result: Option<T>, given: seq<Words>) {
    Answered(m, f, given) ==>
      match f(given)
      case Stopped => result == None
      case Asks(_) => true
      case Reached(x) => result == Some(x)
  }

  // ---- one evaluation after the other ----

  /** `f` is `p`, and once that has reached `x`, `q(x)` with the products from the `n`th on. */
  ghost predicate ContinuesAt<A, B>(
      f: seq<Words> -> Progress<B>, p: seq<Words> -> Progress<A>, n: nat, q: A -> (seq<Words> -> Progress<B>),
      given: seq<Words>)
  {
    f(given) ==
      match p(given)
      case Stopped => Stopped
      case Asks(input) => Asks(input)
      case Reached(x) => q(x)(Rest(given, n))
  }

  ghost predicate Continues<A(!new), B>(
      f: seq<Words> -> Progress<B>, p: seq<Words> -> Progress<A>, n: nat, q: A -> (seq<Words> -> Progress<B>), k: nat)
  {
    && (forall given: seq<Words> :: ContinuesAt(f, p, n, q, given))
    && (forall given: seq<Words> :: AsksFor(p, n, given))
    && (forall x: A, given: seq<Words> :: AsksFor(q(x), k, given))
  }

  lemma ThenAsks<A(!new), B>(
      f: seq<Words> -> Progress<B>, p: seq<Words> -> Progress<A>, n: nat, q: A -> (seq<Words> -> Progress<B>), k: nat,
      given: seq<Words>)
    requires Continues(f, p, n, q, k)
    ensures AsksFor(f, n + k, given)
  {
    assert ContinuesAt(f, p, n, q, given) && AsksFor(p, n, given);
    if |given| >= n && p(given).Reached? {
      assert AsksFor(q(p(given).value), k, given[n..]);
    }
    if |given| >= n + k {
      var enough := given[..n + k];
      assert ContinuesAt(f, p, n, q, enough) && AsksFor(p, n, enough);
      assert enough[..n] == given[..n] && enough[n..] == given[n..][..k];
    }
  }

  /** The answers to `f` are answers to `p`. */
  lemma AnsweredFirst<A(!new), B>(
      m: Model, f: seq<Words> -> Progress<B>, p: seq<Words> -> Progress<A>, n: nat,
      q: A -> (seq<Words> -> Progress<B>), k: nat, given: seq<Words>)
    requires Continues(f, p, n, q, k) && Answered(m, f, given)
    ensures Answered(m, p, given[..if |given| <= n then |given| else n])
  {
    var first := given[..if |given| <= n then |given| else n];
    forall i | 0 <= i < |first| ensures AnsweredAt(m, p, first, i) {
      assert AnsweredAt(m, f, given, i);
      assert first[..i] == given[..i];
      assert ContinuesAt(f, p, n, q, given[..i]) && AsksFor(p, n, given[..i]);
    }
  }

  /** Those from the `n`th on are answers to what follows. */
  lemma AnsweredRest<A(!new), B>(
      m: Model, f: seq<Words> -> Progress<B>, p: seq<Words> -> Progress<A>, n: nat,
      q: A -> (seq<Words> -> Progress<B>), k: nat, given: seq<Words>)
    requires Continues(f, p, n, q, k) && Answered(m, f, given)
    requires n <= |given| && p(given).Reached?
    ensures Answered(m, q(p(given).value), given[n..])
  {
    var x := p(given).value;
    var rest := given[n..];
    forall i | 0 <= i < |rest| ensures AnsweredAt(m, q(x), rest, i) {
      var before := given[..n + i];
      assert AnsweredAt(m, f, given, n + i);
      assert ContinuesAt(f, p, n, q, before) && AsksFor(p, n, before) && AsksFor(p, n, given);
      assert before[..n] == given[..n] && before[n..] == rest[..i];
    }
  }

  lemma ThenGives<A(!new), B>(
      m: Model, f: seq<Words> -> Progress<B>, p: seq<Words> -> Progress<A>, n: nat,
      q: A -> (seq<Words> -> Progress<B>), k: nat, first: Option<A>, result: Option<B>, given: seq<Words>)
    requires Continues(f, p, n, q, k)
    requires forall g: seq<Words> :: Gives(m, p, first, g)
    requires if first.Some? then forall g: seq<Words> :: Gives(m, q(first.value), result, g) else result.None?
    ensures Gives(m, f, result, given)
  {
    if Answered(m, f, given) {
      AnsweredFirst(m, f, p, n, q, k, given);
      assert ContinuesAt(f, p, n, q, given) && AsksFor(p, n, given);
      if |given| <= n {
        assert given[..|given|] == given;
        assert Gives(m, p, first, given);
      } else {
        assert Gives(m, p, first, given[..n]);
      }
      if p(given).Reached? {
        AnsweredRest(m, f, p, n, q, k, given);
        assert Gives(m, q(first.value), result, given[n..]);
      }
    }
  }

  // ---- where the products come from ----

  /** Products are computed on the spot, or they have been read back from a dispatch. */
  datatype Source = OneProcessor | Dispatched(given: seq<Words>)

  /** The dispatch has computed what the evaluation asks for, up to its end. */
  ghost predicate Serves<T>(m: Model, source: Source, f: seq<Words> -> Progress<T>) {
    source.Dispatched? ==> Answered(m, f, source.given) && !f(source.given).Asks?
  }

  /** The first `n` products. */
  function Upto(source: Source, n: nat): Source {
    if source.Dispatched? && n <= |source.given| then Dispatched(source.given[..n]) else source
  }

  /** The products from the `n`th on. */
  function From(source: Source, n: nat): Source {
    if source.Dispatched? then Dispatched(Rest(source.given, n)) else source
  }

  /** What serves an evaluation serves its first part, and then what follows. */
  lemma ServesThen<A(!new), B>(
      m: Model, source: Source, f: seq<Words> -> Progress<B>, p: seq<Words> -> Progress<A>, n: nat,
      q: A -> (seq<Words> -> Progress<B>), k: nat, first: Option<A>)
    requires Continues(f, p, n, q, k) && Serves(m, source, f)
    requires forall g: seq<Words> :: Gives(m, p, first, g)
    ensures Serves(m, Upto(source, n), p)
    ensures first.Some? ==> Serves(m, From(source, n), q(first.value))
  {
    if source.Dispatched? {
      var given := source.given;
      var start := Upto(source, n).given;
      AnsweredFirst(m, f, p, n, q, k, given);
      assert given[..|given|] == given;
      assert ContinuesAt(f, p, n, q, given) && AsksFor(p, n, given) && AsksFor(p, n, start) && Gives(m, p, first, start);
      if first.Some? {
        AnsweredRest(m, f, p, n, q, k, given);
      }
    }
  }
}
