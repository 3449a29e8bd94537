/** Finite runs of a component: what happened before, then the latest event. */
module Runs {

  datatype Run<+E> = Start | Then(before: Run<E>, last: E)

  function Length<E>(run: Run<E>): nat {
    match run
    case Start => 0
    case Then(before, _) => 1 + Length(before)
  }

  /** First one run, then another. */
  function Followed<E>(run: Run<E>, more: Run<E>): Run<E> {
    match more
    case Start => run
    case Then(before, e) => Then(Followed(run, before), e)
  }

  /** The same event n times more. */
  function Repeat<E>(run: Run<E>, e: E, n: nat): Run<E> {
    if n == 0 then run else Then(Repeat(run, e, n - 1), e)
  }
}
