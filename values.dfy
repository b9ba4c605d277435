/** Option and Result values used throughout the model, and the Python
    exceptions the modelled functions can raise. */
module Values {

  datatype Option<+T> = None | Some(value: T)

  /** The Python exceptions that escape the modelled functions. */
  datatype PyError =
    | IndexError      // a list index out of range
    | KeyError        // a missing dictionary key
    | AttributeError  // an attribute read on None, or one never assigned

  datatype Result<+T> = Ok(value: T) | Err(error: PyError)

  lemma AppendAssociative<T>(a: seq<T>, b: seq<T>, c: seq<T>)
    ensures (a + b) + c == a + (b + c)
  {
  }

  /** `f` applied to each element, in order. */
  function MapSeq<A, B>(f: A -> B, xs: seq<A>): (ys: seq<B>)
    ensures |ys| == |xs| && forall i :: 0 <= i < |xs| ==> ys[i] == f(xs[i])
  {
    seq(|xs|, i requires 0 <= i < |xs| => f(xs[i]))
  }

  /** One more element adds its image at the end. */
  lemma MapSeqSnoc<A, B>(f: A -> B, xs: seq<A>, x: A)
    ensures MapSeq(f, xs + [x]) == MapSeq(f, xs) + [f(x)]
  {
  }

  lemma SplitAt<T>(xs: seq<T>, i: nat)
    requires i <= |xs|
    ensures xs[..i] + xs[i..] == xs
  {
  }

  /** The results of `f` on each element in turn, as a loop appending to a
      list computes them: the first exception ends the loop. */
  function Collect<A, B>(f: A -> Result<B>, xs: seq<A>): Result<seq<B>>
  {
    if xs == [] then Ok([])
    else
      var n := |xs| - 1;
      match Collect(f, xs[..n])
      case Err(e) => Err(e)
      case Ok(done) =>
        match f(xs[n])
        case Err(e) => Err(e)
        case Ok(y) => Ok(done + [y])
  }

  /** The loop succeeds exactly when every element succeeds, and then
      result `i` is that of element `i`; otherwise it fails with the
      exception of the first element that fails. */
  lemma {:induction false} CollectMeaning<A, B>(f: A -> Result<B>, xs: seq<A>)
    ensures Collect(f, xs).Ok? <==> forall i :: 0 <= i < |xs| ==> f(xs[i]).Ok?
    ensures Collect(f, xs).Ok? ==>
      |Collect(f, xs).value| == |xs| &&
      forall i :: 0 <= i < |xs| ==> Collect(f, xs).value[i] == f(xs[i]).value
    ensures Collect(f, xs).Err? ==>
      exists k :: 0 <= k < |xs| && f(xs[k]).Err? && Collect(f, xs).error == f(xs[k]).error &&
        forall i :: 0 <= i < k ==> f(xs[i]).Ok?
    decreases |xs|
  {
    if xs != [] {
      var n := |xs| - 1;
      var init := xs[..n];
      CollectMeaning(f, init);
      assert forall i :: 0 <= i < n ==> init[i] == xs[i];
      if Collect(f, init).Err? {
        var k :| 0 <= k < n && f(init[k]).Err? && Collect(f, init).error == f(init[k]).error &&
          forall i :: 0 <= i < k ==> f(init[i]).Ok?;
        assert f(xs[k]).Err? && Collect(f, xs).error == f(xs[k]).error;
      } else if f(xs[n]).Err? {
        assert Collect(f, xs).error == f(xs[n]).error;
      }
    }
  }

  /** One more element that succeeds adds its result at the end. */
  lemma CollectSnoc<A, B>(f: A -> Result<B>, xs: seq<A>, x: A)
    requires Collect(f, xs).Ok? && f(x).Ok?
    ensures Collect(f, xs + [x]) == Ok(Collect(f, xs).value + [f(x).value])
  {
    assert (xs + [x])[..|xs|] == xs;
  }

  /** One more element that fails makes the loop fail with its exception. */
  lemma CollectSnocErr<A, B>(f: A -> Result<B>, xs: seq<A>, x: A)
    requires Collect(f, xs).Ok? && f(x).Err?
    ensures Collect(f, xs + [x]) == Err(f(x).error)
  {
    assert (xs + [x])[..|xs|] == xs;
  }

  /** A failure stays the same failure whatever elements follow. */
  lemma {:induction false} CollectErrAppend<A, B>(f: A -> Result<B>, xs: seq<A>, ys: seq<A>)
    requires Collect(f, xs).Err?
    ensures Collect(f, xs + ys) == Collect(f, xs)
    decreases |ys|
  {
    if ys == [] {
      assert xs + ys == xs;
    } else {
      var n := |ys| - 1;
      assert (xs + ys)[..|xs| + n] == xs + ys[..n];
      CollectErrAppend(f, xs, ys[..n]);
    }
  }
}
