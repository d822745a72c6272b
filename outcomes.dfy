/**
 * How a failed request is reported. Each handler wraps its `fetch` in
 * `try`/`catch`: a reply that is not `ok` throws an `Error` with a fixed text,
 * and the `catch` shows `err.message` for an `Error` and a fallback text for
 * anything else that was thrown.
 */
module Outcomes {

  datatype Failure =
    | NotOk                    // the server answered, but `res.ok` was false
    | Thrown(message: string)  // the request or the body parsing threw an `Error`
    | NonError                 // something that is not an `Error` was thrown

  /** What reaches the `catch`: an `Error` with its message, or some other value. */
  datatype Caught = ErrorValue(message: string) | OtherValue

  /** The value thrown for a failure; a bad reply throws `new Error(notOkText)`. */
  function Raised(f: Failure, notOkText: string): Caught {
    match f
    case NotOk => ErrorValue(notOkText)
    case Thrown(message) => ErrorValue(message)
    case NonError => OtherValue
  }

  /** `err instanceof Error ? err.message : fallback`. */
  function CatchText(c: Caught, fallback: string): string {
    if c.ErrorValue? then c.message else fallback
  }

  /** The text the view stores in `error` for a failure: the `catch` applied to what was thrown. */
  function ErrorText(f: Failure, notOkText: string, fallback: string): (r: string)
    ensures f.NotOk? ==> r == notOkText
    ensures f.Thrown? ==> r == f.message
    ensures f.NonError? ==> r == fallback
  {
    CatchText(Raised(f, notOkText), fallback)
  }

  /**
   * A reply that is not `ok` is reported exactly like a thrown `Error` that
   * carries the same text, because the handler turns it into one.
   */
  lemma BadReplyIsThrownError(notOkText: string, fallback: string)
    ensures ErrorText(NotOk, notOkText, fallback) == ErrorText(Thrown(notOkText), notOkText, fallback)
  {
  }

  /** The fallback is shown only when something other than an `Error` was thrown, or an `Error` carried that very text. */
  lemma FallbackOnlyForNonError(f: Failure, notOkText: string, fallback: string)
    requires notOkText != fallback
    ensures ErrorText(f, notOkText, fallback) == fallback <==> f.NonError? || (f.Thrown? && f.message == fallback)
  {
  }
}
