/** What the objects of the two interpreters (gcl.c and rcl.c) stand for.

    A published object never changes its class, its atom characters or the objects it refers to,
    so it stands for a finite value: the tree one gets by following its references. */
module Values {

  /** The functions that a function object's 'apply' pointer can refer to. */
  datatype Code = PopApply | Eval | PrintAtom | Quote | Fun | FunApply

  datatype Val =
    | Nil
    | Atom(chars: string)
    | Cons(head: Val, tail: Val)
    | Func(code: Code, data: Val)

  /** The ways in which a run can stop early. In the source each is a call of 'error' or 'abort'
      with a message; ObjectLimit is the one that depends on memory. */
  datatype Error =
    | StackUnderflow
    | ConsExpected
    | AtomsExpected
    | NotAFunction
    | NoSuchBinding
    | CannotEvaluate
    | ArgumentNotAnAtom
    | ParamNotAnAtom
    | SymbolOrParenExpected
    | MissingParen
    | ObjectLimit

  /** A value or the error that stopped the run; failure-compatible, for use with ':-'. */
  datatype Result<+T> = Success(value: T) | Failure(error: Error) {
    predicate IsFailure() {
      Failure?
    }

    function PropagateFailure<U>(): Result<U>
      requires Failure?
    {
      Failure(error)
    }

    function Extract(): T
      requires Success?
    {
      value
    }
  }
}
