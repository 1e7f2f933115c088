/** Failure-carrying results shared by both decoders.

    The Go code signals a fatal condition in four ways: an index or slice
    out of range (a runtime panic), a nil pointer dereference (a panic),
    a failed `strconv.ParseInt` (`panic(err)` or `errorf`, which exits
    with status 2), and the `errorf` call for an unknown Greek part of
    speech. Each of them ends the whole run, so the model turns each into
    an `Err` that carries the reason. */
module Outcome {

  datatype Option<T> = None | Some(value: T)

  datatype Fatal =
    | IndexOutOfRange
    | NilDereference
    | MissingTree(key: string)
    | InvalidPart(part: string)
    | ParseFailure(text: string)

  datatype Result<T> = Ok(value: T) | Err(error: Fatal)

  /** Reading a one-character key in a lookup table of either decoder; a
      key the table lacks reads as Go's zero value, the empty string. */
  function Label(table: map<char, string>, c: char): string {
    if c in table then table[c] else ""
  }

  /** Applies `f` to every element of `xs`, together with its index, and
      keeps the results in order; the first element whose result is an
      error makes the whole result that error. This is the shape of the
      Go loops that append to a slice and panic on the first bad item. */
  function Collect<A, B>(f: (nat, A) -> Result<B>, xs: seq<A>): (r: Result<seq<B>>)
    ensures r.Ok? ==> |r.value| == |xs|
    decreases |xs|
  {
    if |xs| == 0 then Ok([])
    else
      match Collect(f, xs[..|xs| - 1])
      case Err(e) => Err(e)
      case Ok(done) =>
        match f(|xs| - 1, xs[|xs| - 1])
        case Err(e) => Err(e)
        case Ok(y) => Ok(done + [y])
  }

  /** A successful collection holds the result of every item, in order. */
  lemma {:induction false} CollectOk<A, B>(f: (nat, A) -> Result<B>, xs: seq<A>)
    requires Collect(f, xs).Ok?
    ensures forall k :: 0 <= k < |xs| ==> f(k, xs[k]) == Ok(Collect(f, xs).value[k])
    decreases |xs|
  {
    if |xs| > 0 {
      var front := xs[..|xs| - 1];
      CollectOk(f, front);
      assert forall k :: 0 <= k < |front| ==> xs[k] == front[k];
    }
  }

  /** A collection fails exactly when some item fails. */
  lemma {:induction false} CollectErr<A, B>(f: (nat, A) -> Result<B>, xs: seq<A>)
    ensures Collect(f, xs).Err? <==> exists k :: 0 <= k < |xs| && f(k, xs[k]).Err?
    decreases |xs|
  {
    if |xs| > 0 {
      var front := xs[..|xs| - 1];
      CollectErr(f, front);
      assert forall k :: 0 <= k < |front| ==> xs[k] == front[k];
      if Collect(f, front).Err? {
        var k :| 0 <= k < |front| && f(k, front[k]).Err?;
        assert f(k, xs[k]).Err?;
      }
    }
  }

  /** Extending the input by one item extends a successful result by that
      item's result. */
  lemma CollectSnoc<A, B>(f: (nat, A) -> Result<B>, xs: seq<A>, x: A, done: seq<B>)
    requires Collect(f, xs) == Ok(done)
    ensures Collect(f, xs + [x]) ==
      match f(|xs|, x)
      case Err(e) => Err(e)
      case Ok(y) => Ok(done + [y])
  {
    assert (xs + [x])[..|xs|] == xs;
  }

  /** Once a prefix fails, the whole input fails with the same error. */
  lemma {:induction false} CollectErrPrefix<A, B>(f: (nat, A) -> Result<B>, xs: seq<A>, ys: seq<A>)
    requires Collect(f, xs).Err?
    ensures Collect(f, xs + ys) == Collect(f, xs)
    decreases |ys|
  {
    if |ys| > 0 {
      var front := xs + ys[..|ys| - 1];
      CollectErrPrefix(f, xs, ys[..|ys| - 1]);
      assert (xs + ys)[..|xs + ys| - 1] == front;
    } else {
      assert xs + ys == xs;
    }
  }

  /** A failing prefix makes any longer input fail the same way. */
  lemma CollectErrWithin<A, B>(f: (nat, A) -> Result<B>, xs: seq<A>, ys: seq<A>)
    requires xs <= ys && Collect(f, xs).Err?
    ensures Collect(f, ys) == Collect(f, xs)
  {
    assert ys == xs + ys[|xs|..];
    CollectErrPrefix(f, xs, ys[|xs|..]);
  }

  /** The error of a failed collection is the error of its first failing
      item, and every item before it succeeds. */
  lemma {:induction false} CollectFirstError<A, B>(f: (nat, A) -> Result<B>, xs: seq<A>)
    requires Collect(f, xs).Err?
    ensures exists k :: 0 <= k < |xs| && f(k, xs[k]) == Err(Collect(f, xs).error) &&
                        forall j :: 0 <= j < k ==> f(j, xs[j]).Ok?
    decreases |xs|
  {
    var front := xs[..|xs| - 1];
    if Collect(f, front).Err? {
      CollectFirstError(f, front);
      var k :| 0 <= k < |front| && f(k, front[k]) == Err(Collect(f, front).error) &&
               forall j :: 0 <= j < k ==> f(j, front[j]).Ok?;
      assert xs[k] == front[k];
      assert forall j :: 0 <= j < k ==> xs[j] == front[j];
    } else {
      var k := |xs| - 1;
      CollectOk(f, front);
      assert forall j :: 0 <= j < k ==> f(j, front[j]).Ok?;
      assert forall j :: 0 <= j < k ==> xs[j] == front[j];
    }
  }
}
