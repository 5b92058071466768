/**
 * The part of RxJava's `Maybe` that the endpoint chains use.  A `Maybe`
 * ends in one of three ways: with a value (`onSuccess`), empty
 * (`onComplete`), or with an error (`onError`).  `filter` and `map` act on
 * a value only; an empty or failed upstream passes through untouched, so a
 * stage after one that threw is never run.
 */
module Rx {
  import opened Failures

  datatype Outcome<+T> = Value(value: T) | Empty | Failed(error: Error)

  /**
   * `.filter { stage(it) }`: a stage that returns true keeps the value,
   * one that returns false ends the chain empty, one that throws ends it
   * with that error.
   */
  function Filter<T>(upstream: Outcome<T>, stage: T -> Try<bool>): (r: Outcome<T>)
    ensures !upstream.Value? ==> r == upstream
    ensures upstream.Value? ==> (r == upstream <==> stage(upstream.value) == Ok(true))
    ensures upstream.Value? ==> (r == Empty <==> stage(upstream.value) == Ok(false))
    ensures upstream.Value? && stage(upstream.value).Thrown? ==> r == Failed(stage(upstream.value).error)
  {
    match upstream
    case Value(v) =>
      (match stage(v)
       case Ok(keep) => if keep then upstream else Empty
       case Thrown(e) => Failed(e))
    case Empty => Empty
    case Failed(e) => Failed(e)
  }

  /**
   * `.map { mapper(it) }`: the mapper's result replaces the value; a mapper
   * that throws ends the chain with its error; an empty or failed upstream
   * passes through.  It also stands for `.flatMapSingle { … }` on a
   * failed or non-empty upstream.  On an empty upstream, RxJava 2's
   * `flatMapSingle` signals NoSuchElementException instead, so a caller
   * using `Map` for it must show that the upstream is never empty.
   */
  function Map<T, U>(upstream: Outcome<T>, mapper: T -> Try<U>): (r: Outcome<U>)
    ensures upstream.Empty? <==> r.Empty?
    ensures upstream.Failed? ==> r == Failed(upstream.error)
    ensures upstream.Value? && mapper(upstream.value).Ok? ==> r == Value(mapper(upstream.value).value)
    ensures upstream.Value? && mapper(upstream.value).Thrown? ==> r == Failed(mapper(upstream.value).error)
  {
    match upstream
    case Value(v) =>
      (match mapper(v)
       case Ok(u) => Value(u)
       case Thrown(e) => Failed(e))
    case Empty => Empty
    case Failed(e) => Failed(e)
  }

  /** The first stage that throws decides the error, whatever the later stages would do. */
  lemma FirstFailureWins<T>(upstream: Outcome<T>, first: T -> Try<bool>, second: T -> Try<bool>)
    requires upstream.Value? && first(upstream.value).Thrown?
    ensures Filter(Filter(upstream, first), second) == Failed(first(upstream.value).error)
  {
  }
}
