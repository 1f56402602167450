/**
  Error maps: per-item recovery tables keyed by error name, with an optional catch-all
  handler under `default` (src/errors.ts).
 */
module Errors {
  import opened Streams

  /** What a handler produced: a replacement value (`None` for `undefined`) or an error it threw. */
  datatype Recovery<U> = Recovered(value: Option<U>) | Rethrown(err: Error)

  /** A handler receives the error and the item whose processing threw it. */
  type Handler<!T, U> = (Error, T) -> Recovery<U>

  /**
    An error map. A key is present exactly when the source object holds a truthy handler
    under that name.
   */
  type ErrorMap<!T, U> = map<string, Handler<T, U>>

  const DefaultKey: string := "default"

  /**
    buildHandleError(errorMap)(err, item): the handler registered under the error's name if
    any, else the `default` handler if any, else the original error is rethrown unchanged. The
    chosen handler's result (a value, `undefined`, or an error of its own) is returned as is.
   */
  function HandleError<T, U>(m: ErrorMap<T, U>, err: Error, item: T): (r: Recovery<U>)
    ensures r == Rethrown(err) || exists k :: k in m && (k == err.name || k == DefaultKey) && r == m[k](err, item)
    ensures err.name !in m && DefaultKey !in m ==> r == Rethrown(err)
  {
    if err.name !in m then
      if DefaultKey !in m then Rethrown(err) else m[DefaultKey](err, item)
    else
      m[err.name](err, item)
  }

  /**
    The handler a stage uses: without an error map every error propagates (the stages that
    take an optional error map fall back to rethrowing).
   */
  function Handle<T, U>(policy: Option<ErrorMap<T, U>>, err: Error, item: T): (r: Recovery<U>)
    ensures policy.None? ==> r == Rethrown(err)
  {
    match policy
    case None => Rethrown(err)
    case Some(m) => HandleError(m, err, item)
  }

  /** No error map behaves exactly like an empty one. */
  lemma AbsentPolicyIsEmptyMap<T, U>(err: Error, item: T)
    ensures Handle<T, U>(None, err, item) == HandleError<T, U>(map[], err, item) == Rethrown(err)
  {
  }

  /** A handler registered under the error's name wins over any `default` handler. */
  lemma NamedHandlerWins<T, U>(m: ErrorMap<T, U>, h: Handler<T, U>, err: Error, item: T)
    requires err.name in m && err.name != DefaultKey
    ensures HandleError(m[DefaultKey := h], err, item) == HandleError(m, err, item) == m[err.name](err, item)
  {
  }

  /** With a `default` handler, an error without a named handler goes to `default`. */
  lemma DefaultCatchesUnnamed<T, U>(m: ErrorMap<T, U>, h: Handler<T, U>, err: Error, item: T)
    requires err.name !in m
    ensures HandleError(m[DefaultKey := h], err, item) == h(err, item)
  {
  }

  /** Handlers registered under other names never influence the dispatch. */
  lemma OtherNamesIrrelevant<T, U>(m: ErrorMap<T, U>, k: string, h: Handler<T, U>, err: Error, item: T)
    requires k != err.name && k != DefaultKey
    ensures HandleError(m[k := h], err, item) == HandleError(m, err, item)
  {
  }
}
