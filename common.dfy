/** Small value types shared by every module: JavaScript's "missing or present",
    "returned or threw", bytes, and the string prefix test. */
module Common {

  /** `undefined`/`null` versus a present value. */
  datatype Option<+T> = None | Some(value: T)

  /** A call that either returned a value or threw. */
  datatype Result<+T, +E> = Success(value: T) | Failure(error: E)

  /** Whatever a remote or platform call threw; its contents are never inspected. */
  datatype CallError = CallError(message: string)

  /** An element of a `Uint8Array`. */
  type Byte = b: int | 0 <= b < 256

  /** `String.prototype.startsWith`. */
  predicate StartsWith(s: string, prefix: string)
  {
    |prefix| <= |s| && s[..|prefix|] == prefix
  }

  /** JavaScript truthiness of an optional string: present and not empty. */
  predicate Truthy(s: Option<string>)
  {
    s.Some? && s.value != ""
  }
}
