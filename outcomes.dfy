/** Python-style outcomes: a value, or the exception that escapes the call. */
module Outcomes {

  datatype Option<+T> = None | Some(value: T)

  /** The built-in exceptions the modelled code can let escape. */
  datatype PyException =
    | ValueError         // float() of a token that is not a number
    | IndexError         // a list index past the end
    | KeyError           // a dictionary key that is not there
    | FileNotFoundError  // a copy whose source file does not exist
    | SameFileError      // a copy whose source and destination are one file

  /** The result of a Python call: it returns a value or raises. */
  datatype Result<+T> = Ok(value: T) | Raised(exc: PyException)

  /** `[f(x) for x in xs]` where each call may raise: all the values, or
      None as soon as one call fails. */
  function MapAll<T, U>(f: T -> Option<U>, xs: seq<T>): (r: Option<seq<U>>)
    ensures r.Some? ==> |r.value| == |xs|
  {
    if |xs| == 0 then Some([])
    else
      var head := f(xs[0]);
      var tail := MapAll(f, xs[1..]);
      if head.None? || tail.None? then None else Some([head.value] + tail.value)
  }

  /** `MapAll` succeeds exactly when every call does, and then holds every
      call's value in order. */
  lemma {:induction false} MapAllValues<T, U>(f: T -> Option<U>, xs: seq<T>)
    ensures MapAll(f, xs).Some? <==> forall i :: 0 <= i < |xs| ==> f(xs[i]).Some?
    ensures MapAll(f, xs).Some? ==> forall i :: 0 <= i < |xs| ==> MapAll(f, xs).value[i] == f(xs[i]).value
  {
    if |xs| > 0 {
      MapAllValues(f, xs[1..]);
      assert forall i :: 1 <= i < |xs| ==> xs[i] == xs[1..][i - 1];
    }
  }

  /** `[f(x) for x in xs]` where each call may raise: all the values, or the
      exception of the first call that raises. */
  function Collect<T, U>(f: T -> Result<U>, xs: seq<T>): (r: Result<seq<U>>)
    ensures r.Ok? ==> |r.value| == |xs|
  {
    if |xs| == 0 then Ok([])
    else
      match f(xs[0])
      case Raised(e) => Raised(e)
      case Ok(v) =>
        match Collect(f, xs[1..])
        case Raised(e) => Raised(e)
        case Ok(vs) => Ok([v] + vs)
  }

  /** `Collect` succeeds exactly when every call does, and then holds every
      call's value in order; otherwise it raises what the first failing call
      raises. */
  lemma {:induction false} CollectValues<T, U>(f: T -> Result<U>, xs: seq<T>)
    ensures Collect(f, xs).Ok? <==> forall i :: 0 <= i < |xs| ==> f(xs[i]).Ok?
    ensures Collect(f, xs).Ok? ==> forall i :: 0 <= i < |xs| ==> Collect(f, xs).value[i] == f(xs[i]).value
    ensures Collect(f, xs).Raised? ==>
              exists k :: 0 <= k < |xs| && f(xs[k]) == Raised(Collect(f, xs).exc) &&
                          forall i :: 0 <= i < k ==> f(xs[i]).Ok?
  {
    if |xs| > 0 {
      CollectValues(f, xs[1..]);
      assert forall i :: 1 <= i < |xs| ==> xs[i] == xs[1..][i - 1];
      if f(xs[0]).Ok? && Collect(f, xs[1..]).Raised? {
        var k :| 0 <= k < |xs| - 1 && f(xs[1..][k]) == Raised(Collect(f, xs[1..]).exc) &&
                 forall i :: 0 <= i < k ==> f(xs[1..][i]).Ok?;
        assert f(xs[k + 1]) == Raised(Collect(f, xs).exc);
      } else if f(xs[0]).Raised? {
        assert f(xs[0]) == Raised(Collect(f, xs).exc);
      }
    }
  }

  /** One more element: what a loop appending to its results relies on. */
  lemma {:induction false} CollectSnoc<T, U>(f: T -> Result<U>, xs: seq<T>, x: T)
    requires Collect(f, xs).Ok?
    ensures Collect(f, xs + [x]) ==
              match f(x)
              case Raised(e) => Raised(e)
              case Ok(v) => Ok(Collect(f, xs).value + [v])
    decreases |xs|
  {
    if |xs| > 0 {
      var ys := xs + [x];
      assert ys[0] == xs[0] && ys[1..] == xs[1..] + [x];
      var v0, rest := f(xs[0]).value, Collect(f, xs[1..]).value;
      assert f(xs[0]) == Ok(v0) && Collect(f, xs[1..]) == Ok(rest);
      CollectSnoc(f, xs[1..], x);
      match f(x)
      case Raised(e) =>
        assert Collect(f, ys[1..]) == Raised(e);
      case Ok(v) =>
        assert Collect(f, ys[1..]) == Ok(rest + [v]);
        assert [v0] + (rest + [v]) == ([v0] + rest) + [v];
    } else {
      assert xs + [x] == [x] && [x][1..] == [] && [x][0] == x;
      assert Collect(f, []) == Ok([]);
      assert Collect(f, xs).value == [];
      match f(x)
      case Raised(e) =>
      case Ok(v) => assert [v] + [] == [] + [v];
    }
  }

  /** Once a prefix raises, the whole list raises the same. */
  lemma {:induction false} CollectPrefixRaised<T, U>(f: T -> Result<U>, xs: seq<T>, k: nat)
    requires k <= |xs| && Collect(f, xs[..k]).Raised?
    ensures Collect(f, xs) == Collect(f, xs[..k])
    decreases k
  {
    assert k > 0;
    if f(xs[0]).Ok? {
      assert xs[..k][1..] == xs[1..][..k - 1];
      CollectPrefixRaised(f, xs[1..], k - 1);
    }
  }

  /** The comprehension as a loop appending each value in turn, stopping at
      the first call that raises. */
  method CollectEach<T, U>(f: T -> Result<U>, xs: seq<T>) returns (r: Result<seq<U>>)
    ensures r == Collect(f, xs)
  {
    var acc: seq<U> := [];
    for k := 0 to |xs|
      invariant Collect(f, xs[..k]) == Ok(acc)
    {
      assert xs[..k + 1] == xs[..k] + [xs[k]];
      CollectSnoc(f, xs[..k], xs[k]);
      var part := f(xs[k]);
      if part.Raised? {
        CollectPrefixRaised(f, xs, k + 1);
        return Raised(part.exc);
      }
      acc := acc + [part.value];
    }
    assert xs[..|xs|] == xs;
    r := Ok(acc);
  }
}
