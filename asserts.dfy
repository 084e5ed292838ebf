/** The assertion helper of app/lib/assert.js (app/assert.js is the same
    function): a false condition throws an error whose message is
    "Assertion Error", followed by ": " and the message when one is given. */
module Asserts {
  import opened Wrappers

  /** The message of the error thrown for `message`. */
  function Failure(message: string): (m: string)
    ensures |message| > 0 ==> m == "Assertion Error: " + message
    ensures |message| == 0 ==> m == "Assertion Error"
  {
    "Assertion Error" + (if |message| > 0 then ": " + message else "")
  }

  /** `assert(condition, message)`. */
  function Assert(condition: bool, message: string): (r: Outcome)
    ensures r.Pass? <==> condition
    ensures r.Fail? ==> r.msg == Failure(message)
  {
    if condition then Pass else Fail(Failure(message))
  }
}
