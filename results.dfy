/** Option and Result types shared by the query model, with the error kinds the
    query builder, the name resolver and the SQL compiler report. */
module Results {

  datatype Option<+T> = None | Some(value: T)

  /** The error kinds of the query model. */
  datatype Error =
    /** A builder call made in a state that does not allow it (ThenBy without OrderBy, On without Join). */
    | InvalidOperation(message: string)
    /** A name that no rule maps to a table or column. */
    | UnresolvableObject(name: string)
    /** A name that the first rule that matches at all maps to more than one table or column. */
    | AmbiguousName(name: string)
    /** A construct this model of the compiler does not translate. */
    | Unsupported(message: string)

  datatype Result<+T> = Ok(value: T) | Err(error: Error) {

    predicate IsFailure() {
      Err?
    }

    function PropagateFailure<U>(): Result<U>
      requires Err?
    {
      Err(error)
    }

    function Extract(): T
      requires Ok?
    {
      value
    }
  }

  /** Applies f to each element in order; the first failure is the result. */
  function TryMap<A, B>(f: A -> Result<B>, xs: seq<A>): (r: Result<seq<B>>)
    ensures r.Ok? ==> |r.value| == |xs|
  {
    if xs == [] then Ok([])
    else
      var y :- f(xs[0]);
      var ys :- TryMap(f, xs[1..]);
      Ok([y] + ys)
  }

  lemma TryMapCons<A, B>(f: A -> Result<B>, x: A, xs: seq<A>, y: B, ys: seq<B>)
    requires f(x) == Ok(y) && TryMap(f, xs) == Ok(ys)
    ensures TryMap(f, [x] + xs) == Ok([y] + ys)
  {
    assert ([x] + xs)[0] == x && ([x] + xs)[1..] == xs;
  }

  /** A successful map holds f's result for each element, in order. */
  lemma {:induction false} TryMapAgrees<A, B>(f: A -> Result<B>, xs: seq<A>, ys: seq<B>)
    requires TryMap(f, xs) == Ok(ys)
    ensures |ys| == |xs| && forall i :: 0 <= i < |xs| ==> f(xs[i]) == Ok(ys[i])
    decreases |xs|
  {
    if xs != [] {
      var tail := xs[1..];
      var rest := TryMap(f, tail).value;
      assert ys == [f(xs[0]).value] + rest;
      TryMapAgrees(f, tail, rest);
      forall i | 1 <= i < |xs| ensures f(xs[i]) == Ok(ys[i]) {
        assert xs[i] == tail[i - 1] && ys[i] == rest[i - 1];
      }
    }
  }

  /** A failed map has an element on which f fails. */
  lemma {:induction false} TryMapFails<A, B>(f: A -> Result<B>, xs: seq<A>)
    requires TryMap(f, xs).Err?
    ensures exists i :: 0 <= i < |xs| && f(xs[i]).Err?
    decreases |xs|
  {
    var tail := xs[1..];
    if f(xs[0]).Ok? {
      TryMapFails(f, tail);
      var j :| 0 <= j < |tail| && f(tail[j]).Err?;
      assert xs[j + 1] == tail[j];
    }
  }

  /** The map succeeds exactly when f succeeds on every element. */
  lemma TryMapMeaning<A, B>(f: A -> Result<B>, xs: seq<A>)
    ensures var r := TryMap(f, xs);
            && (r.Ok? <==> forall i :: 0 <= i < |xs| ==> f(xs[i]).Ok?)
            && (r.Ok? ==> forall i :: 0 <= i < |xs| ==> f(xs[i]) == Ok(r.value[i]))
  {
    var r := TryMap(f, xs);
    if r.Ok? {
      TryMapAgrees(f, xs, r.value);
    } else {
      TryMapFails(f, xs);
    }
  }
}
