/** Error kinds and the value-or-error results shared by every module.
    Each constructor of `Exc` stands for one exception class the program raises. */
module Outcomes {

  datatype Exc =
    | ValueError
    | IndexError
    | KeyError
    | LookupError
    | TypeError
    | UnsupportedError
    | RuntimeError
    | NotImplementedError
    | FileFormatError
    | TokenizerError
    | StructError
    | AttributeError
    | ArgumentTypeError

  datatype Result<+T> = Ok(value: T) | Err(error: Exc) {
    predicate IsFailure() { Err? }

    function PropagateFailure<U>(): Result<U>
      requires Err?
    {
      Err(error)
    }

    function Extract(): T
      requires Ok?
    {
      value
    }
  }

  datatype Option<+T> = None | Some(value: T)

  /** The results of `f` at 0, 1, ..., n - 1 in order, stopping at the first error: a loop
      that appends one result per pass and returns as soon as a pass raises. */
  function Collect<T>(f: nat -> Result<T>, n: nat): (r: Result<seq<T>>)
    ensures r.Ok? ==> |r.value| == n
  {
    if n == 0 then Ok([])
    else
      var front :- Collect(f, n - 1);
      var x :- f(n - 1);
      Ok(front + [x])
  }

  /** The passes all succeed exactly when the loop does, and then their results are the
      loop's, in order. */
  lemma {:induction false} CollectAll<T>(f: nat -> Result<T>, n: nat)
    ensures Collect(f, n).Ok? <==> forall i | 0 <= i < n :: f(i).Ok?
    ensures Collect(f, n).Ok? ==> forall i | 0 <= i < n :: f(i) == Ok(Collect(f, n).value[i])
  {
    if n > 0 {
      CollectAll(f, n - 1);
    }
  }

  /** One more pass that succeeds appends its result. */
  lemma CollectNext<T>(f: nat -> Result<T>, n: nat, front: seq<T>, x: T)
    requires Collect(f, n) == Ok(front) && f(n) == Ok(x)
    ensures Collect(f, n + 1) == Ok(front + [x])
  {
  }

  /** Once a pass has raised, further passes change nothing. */
  lemma {:induction false} CollectFailed<T>(f: nat -> Result<T>, n: nat, m: nat)
    requires n <= m && Collect(f, n).Err?
    ensures Collect(f, m) == Collect(f, n)
    decreases m
  {
    if m > n {
      CollectFailed(f, n, m - 1);
    }
  }
}
