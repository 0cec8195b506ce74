/** Option and Result, the two sum types the Rust code threads through every call, and `?` over a sequence. */
module Wrappers {
  datatype Option<T> = None | Some(value: T)
  {
    function GetOr(default: T): T
    {
      if Some? then value else default
    }
  }

  datatype Result<T, E> = Ok(value: T) | Err(error: E)
  {
    /** Lets `:-` stop at the first `Err`, as `?` does. */
    predicate IsFailure()
    {
      Err?
    }

    function PropagateFailure<U>(): Result<U, E>
      requires Err?
    {
      Err(error)
    }

    function Extract(): T
      requires Ok?
    {
      value
    }
  }

  /** `f` applied to every element in order with `?`: the first failure aborts. */
  function MapAll<T, U, E>(xs: seq<T>, f: T -> Result<U, E>): (r: Result<seq<U>, E>)
    ensures r.Ok? ==> |r.value| == |xs|
    decreases |xs|, 1
  {
    if xs == [] then Ok([]) else MapLast(xs, f)
  }

  /** A non-empty run: the run over all but the last element, then the last one. */
  function MapLast<T, U, E>(xs: seq<T>, f: T -> Result<U, E>): (r: Result<seq<U>, E>)
    requires xs != []
    ensures r.Ok? ==> |r.value| == |xs|
    decreases |xs|, 0
  {
    match MapAll(xs[..|xs| - 1], f)
    case Err(e) => Err(e)
    case Ok(done) =>
      match f(xs[|xs| - 1])
      case Err(e) => Err(e)
      case Ok(y) => Ok(done + [y])
  }

  /**
   * A run succeeds exactly when every element does, and then holds their
   * values in order; a failed run reports the first failing element.
   */
  lemma {:induction false} MapAllMeaning<T, U, E>(xs: seq<T>, f: T -> Result<U, E>)
    ensures MapAll(xs, f).Ok? <==> forall i :: 0 <= i < |xs| ==> f(xs[i]).Ok?
    ensures MapAll(xs, f).Ok? ==> forall i :: 0 <= i < |xs| ==> MapAll(xs, f).value[i] == f(xs[i]).value
    ensures MapAll(xs, f).Err? ==>
              exists i :: 0 <= i < |xs| && f(xs[i]) == Err(MapAll(xs, f).error)
                          && forall j :: 0 <= j < i ==> f(xs[j]).Ok?
  {
    if xs != [] {
      var init := xs[..|xs| - 1];
      MapAllMeaning(init, f);
      assert forall i :: 0 <= i < |init| ==> init[i] == xs[i];
    }
  }

  /** A failure in a prefix is the failure of the whole run. */
  lemma {:induction false} MapAllErrPersists<T, U, E>(xs: seq<T>, n: nat, f: T -> Result<U, E>)
    requires n <= |xs| && MapAll(xs[..n], f).Err?
    ensures MapAll(xs, f) == MapAll(xs[..n], f)
  {
    if n < |xs| {
      var init := xs[..|xs| - 1];
      assert init[..n] == xs[..n];
      MapAllErrPersists(init, n, f);
    } else {
      assert xs[..n] == xs;
    }
  }

  /** One more successful element extends a successful run by its value. */
  lemma {:induction false} MapAllExtends<T, U, E>(xs: seq<T>, i: nat, f: T -> Result<U, E>)
    requires i < |xs| && MapAll(xs[..i], f).Ok? && f(xs[i]).Ok?
    ensures MapAll(xs[..i + 1], f) == Ok(MapAll(xs[..i], f).value + [f(xs[i]).value])
  {
    assert xs[..i + 1][..i] == xs[..i];
  }

  /** The first failing element is the failure of the whole run. */
  lemma {:induction false} MapAllStops<T, U, E>(xs: seq<T>, i: nat, f: T -> Result<U, E>)
    requires i < |xs| && MapAll(xs[..i], f).Ok? && f(xs[i]).Err?
    ensures MapAll(xs, f) == Err(f(xs[i]).error)
  {
    assert xs[..i + 1][..i] == xs[..i];
    MapAllErrPersists(xs, i + 1, f);
  }

  /** A run fails with the error of its first failing element. */
  lemma {:induction false} MapAllFirstError<T, U, E>(xs: seq<T>, k: nat, f: T -> Result<U, E>)
    requires k < |xs| && f(xs[k]).Err?
    requires forall j :: 0 <= j < k ==> f(xs[j]).Ok?
    ensures MapAll(xs, f) == Err(f(xs[k]).error)
  {
    MapAllMeaning(xs, f);
    var r := MapAll(xs, f);
    var i :| 0 <= i < |xs| && f(xs[i]) == Err(r.error) && forall j :: 0 <= j < i ==> f(xs[j]).Ok?;
    assert !(i < k) && !(k < i);
  }

  /** The values of a successful run are exactly the values of its elements. */
  lemma {:induction false} MapAllMembers<T, U, E>(xs: seq<T>, f: T -> Result<U, E>)
    requires MapAll(xs, f).Ok?
    ensures forall y :: y in MapAll(xs, f).value ==> exists i :: 0 <= i < |xs| && f(xs[i]) == Ok(y)
    ensures forall i :: 0 <= i < |xs| ==> f(xs[i]).Ok? && f(xs[i]).value in MapAll(xs, f).value
  {
    MapAllMeaning(xs, f);
    var v := MapAll(xs, f).value;
    forall y | y in v
      ensures exists i :: 0 <= i < |xs| && f(xs[i]) == Ok(y)
    {
      var i :| 0 <= i < |v| && v[i] == y;
    }
  }
}
