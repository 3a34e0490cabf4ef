/** Small value types shared by every module of the model. */
module Values {

  /** A value that may be absent: JavaScript's `null`/`undefined` or a missing row. */
  datatype Option<+T> = None | Some(value: T)

  /** The outcome of an operation the source signals by returning or throwing. */
  datatype Result<+T, +E> = Success(value: T) | Failure(error: E)

  /** What an external call (helm, kubectl) did: it resolved, or it rejected with an Error's message. */
  datatype CallOutcome = Succeeded | FailedWith(message: string)

  predicate IsDigit(c: char) {
    '0' <= c <= '9'
  }

  /** The number a string of decimal digits denotes, most significant digit first. */
  function DecimalValue(s: string): nat
    requires forall i :: 0 <= i < |s| ==> IsDigit(s[i])
  {
    if s == [] then 0
    else
      assert IsDigit(s[|s| - 1]);
      10 * DecimalValue(s[..|s| - 1]) + (s[|s| - 1] as int - '0' as int)
  }

  /** Decimal rendering of a natural number, as a JavaScript template literal prints it:
      the digits denote `n`, with no leading zero. */
  function NatToString(n: nat): (s: string)
    ensures |s| >= 1
    ensures forall i :: 0 <= i < |s| ==> IsDigit(s[i])
    ensures DecimalValue(s) == n
    ensures |s| > 1 ==> s[0] != '0'
    ensures n < 10 <==> |s| == 1
  {
    var d := [('0' as int + n % 10) as char];
    if n < 10 then d
    else
      var prefix := NatToString(n / 10);
      assert (prefix + d)[..|prefix|] == prefix;
      prefix + d
  }
}
