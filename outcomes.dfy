/**
 * Outcomes of calls into collaborators that may throw.
 *
 * Every handler of the converter endpoint wraps its work in one
 * `try { ... } catch (Exception e)`. A collaborator call therefore either
 * returns a value or throws, and the first throw ends the work: `Attempt`
 * records which, and `MapAttempt` is a loop over a list that stops at the
 * first throw.
 */
module Outcomes {

  datatype Option<T> = None | Some(value: T)

  /** A message in the compiler's error collector, as carried by a compilation-errors exception. */
  datatype CompilerMessage =
    | SyntaxErrorMessage(causeMessage: Option<string>)  // the message of the syntax exception it wraps
    | OtherMessage                                       // any message that is not a syntax error

  /** An exception thrown by a collaborator. A Java message may be null, hence `Option`. */
  datatype Failure =
    | MultipleCompilationErrors(messages: seq<CompilerMessage>)
    | OtherException(message: Option<string>)

  datatype Attempt<T> = Returned(value: T) | Threw(failure: Failure)

  /** Applies `f` to each element in order; the first throw is the outcome of the whole loop. */
  function MapAttempt<A, B>(xs: seq<A>, f: A -> Attempt<B>): Attempt<seq<B>>
  {
    if xs == [] then Returned([])
    else
      match f(xs[0])
      case Threw(e) => Threw(e)
      case Returned(y) =>
        match MapAttempt(xs[1..], f)
        case Threw(e) => Threw(e)
        case Returned(ys) => Returned([y] + ys)
  }

  /** Running the loop over `xs + ys` is running it over `xs`, then over `ys`. */
  lemma {:induction false} MapAttemptAppend<A, B>(xs: seq<A>, ys: seq<A>, f: A -> Attempt<B>)
    ensures MapAttempt(xs + ys, f) ==
      match MapAttempt(xs, f)
      case Threw(e) => Threw(e)
      case Returned(a) =>
        match MapAttempt(ys, f)
        case Threw(e) => Threw(e)
        case Returned(b) => Returned(a + b)
  {
    if xs == [] {
      assert xs + ys == ys;
      match MapAttempt(ys, f)
      case Threw(e) =>
      case Returned(b) => assert [] + b == b;
    } else {
      assert (xs + ys)[0] == xs[0];
      assert (xs + ys)[1..] == xs[1..] + ys;
      MapAttemptAppend(xs[1..], ys, f);
      match f(xs[0])
      case Threw(e) =>
      case Returned(y) =>
        match MapAttempt(xs[1..], f)
        case Threw(e) =>
        case Returned(a) =>
          match MapAttempt(ys, f)
          case Threw(e) =>
          case Returned(b) =>
            assert [y] + (a + b) == ([y] + a) + b;
    }
  }

  /** The loop completes exactly when no call throws, and then it yields every result in order. */
  lemma {:induction false} MapAttemptReturned<A, B>(xs: seq<A>, f: A -> Attempt<B>)
    ensures MapAttempt(xs, f).Returned? <==> forall i :: 0 <= i < |xs| ==> f(xs[i]).Returned?
    ensures MapAttempt(xs, f).Returned? ==>
      |MapAttempt(xs, f).value| == |xs| &&
      forall i :: 0 <= i < |xs| ==> MapAttempt(xs, f).value[i] == f(xs[i]).value
  {
    if xs != [] {
      MapAttemptReturned(xs[1..], f);
      assert forall i :: 1 <= i < |xs| ==> xs[i] == xs[1..][i - 1];
    }
  }

  /** One turn of a loop that has completed its first `i` calls. */
  lemma MapAttemptStep<A, B>(xs: seq<A>, i: nat, f: A -> Attempt<B>, done: seq<B>)
    requires i < |xs| && MapAttempt(xs[..i], f) == Returned(done)
    ensures f(xs[i]).Threw? ==> MapAttempt(xs, f) == Threw(f(xs[i]).failure)
    ensures f(xs[i]).Returned? ==> MapAttempt(xs[..i + 1], f) == Returned(done + [f(xs[i]).value])
  {
    assert xs[..i + 1] == xs[..i] + [xs[i]];
    MapAttemptAppend(xs[..i], [xs[i]], f);
    assert MapAttempt([xs[i]][1..], f) == Returned([]);
    if f(xs[i]).Returned? {
      assert [f(xs[i]).value] + [] == [f(xs[i]).value];
      assert MapAttempt([xs[i]], f) == Returned([f(xs[i]).value]);
    }
    assert xs == xs[..i + 1] + xs[i + 1..];
    MapAttemptAppend(xs[..i + 1], xs[i + 1..], f);
  }

  /** When some call throws, the loop fails with the failure of the first call that throws. */
  lemma {:induction false} MapAttemptFirstThrow<A, B>(xs: seq<A>, f: A -> Attempt<B>, k: nat)
    requires k < |xs| && f(xs[k]).Threw?
    requires forall j :: 0 <= j < k ==> f(xs[j]).Returned?
    ensures MapAttempt(xs, f) == Threw(f(xs[k]).failure)
  {
    if k > 0 {
      assert forall j :: 0 <= j < k - 1 ==> xs[1..][j] == xs[j + 1];
      MapAttemptFirstThrow(xs[1..], f, k - 1);
    }
  }
}
