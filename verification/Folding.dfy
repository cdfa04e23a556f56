/** Predicates that stay folded until a proof opens them, so that the solver carries them along as they are.
    A module that folds predicates declares a datatype `Fold` with a name for each. A predicate whose body is guarded
    by its name, `forall u {:trigger Open(u)} :: u == XFold ==> ...`, says the same as that body; the solver unfolds it
    only where a proof mentions `Open(XFold)`. */
module Folding {
  ghost predicate Open<T>(u: T) { true }
}
