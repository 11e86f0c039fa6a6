/**
 * Go error values as the messaging package sees them, and the two questions it asks of
 * them: was the error marked NonRetryable, and is it a cancellation.
 */
module Errors {

  /** A plain error, the context.Canceled sentinel, an error wrapping others (fmt.Errorf
      may wrap several), or the NonRetryable marker around an error. */
  datatype GoError =
    | Plain(text: string)
    | Canceled
    | Wrap(text: string, inner: seq<GoError>)
    | Marked(err: GoError)

  datatype Nilable = Nil | Some(err: GoError)

  /** Marks an error; nil stays nil, so it is safe to wrap unconditionally. */
  function NonRetryable(e: Nilable): Nilable {
    match e
    case Nil => Nil
    case Some(x) => Some(Marked(x))
  }

  /** The walk errors.Is and errors.As make: the error itself, then whatever it wraps. */
  predicate Finds(e: GoError, marked: bool) {
    || (if marked then e.Marked? else e.Canceled?)
    || match e
       case Plain(_) => false
       case Canceled => false
       case Wrap(_, inner) => exists i | 0 <= i < |inner| :: Finds(inner[i], marked)
       case Marked(x) => Finds(x, marked)
  }

  predicate IsNonRetryable(e: GoError) {
    Finds(e, true)
  }

  predicate IsCanceled(e: GoError) {
    Finds(e, false)
  }

  /** The error reached from e by unwrapping along a path of child positions. */
  function Unwrapped(e: GoError, path: seq<nat>): Nilable
    decreases |path|
  {
    if path == [] then Some(e)
    else
      match e
      case Wrap(_, inner) => if path[0] < |inner| then Unwrapped(inner[path[0]], path[1..]) else Nil
      case Marked(x) => if path[0] == 0 then Unwrapped(x, path[1..]) else Nil
      case _ => Nil
  }

  /** The error at the end of the path is the one looked for. */
  predicate Lies(e: GoError, path: seq<nat>, marked: bool) {
    match Unwrapped(e, path)
    case Nil => false
    case Some(x) => if marked then x.Marked? else x.Canceled?
  }

  lemma {:induction false} FoundAt(e: GoError, marked: bool) returns (path: seq<nat>)
    requires Finds(e, marked)
    ensures Lies(e, path, marked)
    decreases e
  {
    if (if marked then e.Marked? else e.Canceled?) {
      path := [];
    } else {
      match e
      case Wrap(_, inner) =>
        var i :| 0 <= i < |inner| && Finds(inner[i], marked);
        path := FoundAt(inner[i], marked);
        assert ([i] + path)[1..] == path;
        path := [i] + path;
      case Marked(x) =>
        path := FoundAt(x, marked);
        assert ([0] + path)[1..] == path;
        path := [0] + path;
      case _ =>
    }
  }

  lemma {:induction false} LyingIsFound(e: GoError, path: seq<nat>, marked: bool)
    requires Lies(e, path, marked)
    ensures Finds(e, marked)
    decreases |path|
  {
    if path != [] {
      match e
      case Wrap(_, inner) => LyingIsFound(inner[path[0]], path[1..], marked);
      case Marked(x) => LyingIsFound(x, path[1..], marked);
      case _ =>
    }
  }

  /** An error counts as NonRetryable exactly when some error it wraps, at any depth and
      through any branch, carries the marker; likewise for cancellation. */
  lemma DepthIsIrrelevant(e: GoError, marked: bool)
    ensures Finds(e, marked) <==> exists path :: Lies(e, path, marked)
  {
    if Finds(e, marked) {
      var path := FoundAt(e, marked);
    }
    if path :| Lies(e, path, marked) {
      LyingIsFound(e, path, marked);
    }
  }

  /** NonRetryable sticks: no wrapping around it hides it, and on nil it is invisible. */
  lemma {:induction false} MarkSurvivesWrapping(e: GoError, outer: GoError, path: seq<nat>)
    requires Unwrapped(outer, path) == NonRetryable(Some(e))
    ensures IsNonRetryable(outer) && NonRetryable(Nil) == Nil
  {
    assert Lies(outer, path, true);
    LyingIsFound(outer, path, true);
  }
}
