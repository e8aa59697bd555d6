/**
 * Validate: guard helpers that raise the exception a supplier builds when a
 * condition fails. The supplier is modelled by the error it would produce.
 */
module Validate {
  import opened Wrappers

  /** isTrue: passes exactly when the condition holds, else raises the supplied exception. */
  function IsTrue(expression: bool, exception: Error): (r: Outcome)
    ensures r.Pass? <==> expression
    ensures r.Fail? ==> r.error == exception
  {
    if !expression then Fail(exception) else Pass
  }

  /** notNull: passes exactly when the object is present, else raises the supplied exception. */
  function NotNull<T>(obj: Option<T>, exception: Error): (r: Outcome)
    ensures r.Pass? <==> obj.Some?
    ensures r.Fail? ==> r.error == exception
  {
    if obj.None? then Fail(exception) else Pass
  }
}
