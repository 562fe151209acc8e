/**
  The exception taxonomy of reaction_completer/errors.py as a closed set of
  error kinds. Two kinds stand for exceptions that come from outside the
  taxonomy: the standard library's tokenizer error, and any other Python
  exception (TypeError, ValueError, ...), which only `except Exception` catches.
 */
module Errors {
  import opened Wrappers

  datatype ErrorKind =
    | FormulaException
    | CannotBalance
    | TooFewPrecursors
    | TooManyPrecursors
    | StupidRecipe
    | ExpressionPrintException
    | TokenError
    | OtherException

  /** The class a kind directly derives from, when that class is in the taxonomy. */
  function Parent(e: ErrorKind): (p: Option<ErrorKind>)
    ensures p.Some? ==> p.value == CannotBalance && e != CannotBalance
    ensures p.Some? <==> e in {TooFewPrecursors, TooManyPrecursors, StupidRecipe, ExpressionPrintException}
  {
    match e
    case TooFewPrecursors => Some(CannotBalance)
    case TooManyPrecursors => Some(CannotBalance)
    case StupidRecipe => Some(CannotBalance)
    case ExpressionPrintException => Some(CannotBalance)
    case _ => None
  }

  /** `isinstance(e, cls)`: what an `except cls` clause catches. */
  predicate IsInstance(e: ErrorKind, cls: ErrorKind) {
    e == cls || Parent(e) == Some(cls)
  }

  predicate IsCannotBalance(e: ErrorKind) {
    IsInstance(e, CannotBalance)
  }

  /** The four specific reasons are kinds of CannotBalance; FormulaException is not. */
  lemma CannotBalanceFamily(e: ErrorKind)
    ensures IsCannotBalance(e) <==>
      e in {CannotBalance, TooFewPrecursors, TooManyPrecursors, StupidRecipe, ExpressionPrintException}
    ensures !IsCannotBalance(FormulaException) && !IsCannotBalance(TokenError)
  {
  }

  /** The four subkinds are siblings: a handler for one of them catches no other. */
  lemma SubkindsAreSiblings(e: ErrorKind, cls: ErrorKind)
    requires cls in {TooFewPrecursors, TooManyPrecursors, StupidRecipe, ExpressionPrintException}
    ensures IsInstance(e, cls) <==> e == cls
  {
  }
}
