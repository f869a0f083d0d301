/** Small shared vocabulary of the schema editor model. */
module Base {

  /** A value that may be absent: JavaScript's `undefined` versus a present value. */
  datatype Option<+T> = None | Some(value: T)

  /** The outcome of a form-field validator: the field is accepted, or it is
      refused with the message the editor shows next to it. */
  datatype Check = Pass | Fail(message: string)

  /** Joins strings with a separator, as `Array.prototype.join` does. */
  function Join(parts: seq<string>, sep: string): (r: string)
    ensures |parts| == 0 ==> r == ""
    ensures |parts| > 0 ==> |r| >= |parts[0]|
  {
    if |parts| == 0 then ""
    else if |parts| == 1 then parts[0]
    else parts[0] + sep + Join(parts[1..], sep)
  }
}
