/**
 * JavaScript values the request handlers inspect: form entries, the
 * exceptions an awaited library call can throw, string length as
 * JavaScript counts it, and truthiness of a possibly missing string.
 */
module Js {

  datatype Option<T> = None | Some(value: T)

  /** An entry of a submitted form: `FormData.get` yields a string, a file, or `null`. */
  datatype FormValue = Text(s: string) | File | Null

  /** What an awaited call into the database or the runtime can throw. */
  datatype Exception =
    | TypeError(message: string)
    | UniqueViolation(constraint: string)      // PostgreSQL error 23505
    | ForeignKeyViolation(constraint: string)  // PostgreSQL error 23503

  /** The outcome of a call that either returns a value or throws. */
  datatype Result<T> = Ok(value: T) | Throw(exception: Exception)

  /** The number of UTF-16 code units one character takes: two outside the Basic Multilingual Plane. */
  function CodeUnits(c: char): (n: nat)
    ensures n == 1 <==> c as int < 0x1_0000
    ensures 1 <= n <= 2
  {
    if c as int < 0x1_0000 then 1 else 2
  }

  /** `s.length`: JavaScript strings are sequences of UTF-16 code units. */
  function Utf16Length(s: string): (n: nat)
    ensures |s| <= n <= 2 * |s|
  {
    if s == [] then 0 else CodeUnits(s[0]) + Utf16Length(s[1..])
  }

  /** For text inside the Basic Multilingual Plane, JavaScript's length is the character count. */
  lemma {:induction false} Utf16LengthOfBmp(s: string)
    requires forall i :: 0 <= i < |s| ==> s[i] as int < 0x1_0000
    ensures Utf16Length(s) == |s|
  {
    if s != [] {
      Utf16LengthOfBmp(s[1..]);
    }
  }

  /** JavaScript truthiness of a string that may be `undefined`: both `undefined` and `''` are falsy. */
  predicate Truthy(v: Option<string>): (r: bool)
    ensures v.None? ==> !r
    ensures v == Some("") ==> !r
    ensures v.Some? && |v.value| > 0 ==> r
  {
    v.Some? && v.value != ""
  }

  /** JavaScript truthiness of an array: an array is an object, and every object is truthy, even `[]`. */
  predicate ArrayTruthy<T>(a: seq<T>): (r: bool)
    ensures r
  {
    true
  }
}
