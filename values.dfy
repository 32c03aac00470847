/** Values shared by the sync engine, the Bower adapter and the package API:
    optional values, calls that may raise, duplicate-free sequences, the loose
    key/value records the adapters exchange, and the downcasing the adapters
    and the API apply to names. */
module Values {

  datatype Option<T> = None | Some(value: T)

  /** The outcome of a call that either raised an exception or returned a value. */
  datatype Attempt<T> = Raised | Done(value: T)

  /** No element occurs twice. */
  predicate Distinct<T(==)>(s: seq<T>)
  {
    forall i, j :: 0 <= i < j < |s| ==> s[i] != s[j]
  }

  /** A decoded JSON-like value, as upstream records and descriptor files hold them. */
  datatype Value =
    | Null
    | Bool(b: bool)
    | Num(n: int)
    | Str(s: string)
    | List(items: seq<Value>)
    | Obj(fields: map<string, Value>)

  /** A hash with string keys; a missing key reads as Null, as in Ruby. */
  type Record = map<string, Value>

  function Get(r: Record, key: string): Value
  {
    if key in r then r[key] else Null
  }

  /** Ruby truthiness: everything except nil and false. */
  predicate Truthy(v: Value)
  {
    !v.Null? && v != Bool(false)
  }

  predicate IsUpper(c: char)
  {
    'A' <= c <= 'Z'
  }

  function LowerChar(c: char): char
  {
    if IsUpper(c) then (c as int + 32) as char else c
  }

  /** String#downcase, restricted to the letters A to Z. */
  function Lower(s: string): (r: string)
    ensures |r| == |s|
    ensures forall i :: 0 <= i < |s| ==> r[i] == LowerChar(s[i])
    ensures forall i :: 0 <= i < |s| ==> !IsUpper(r[i])
  {
    if s == [] then [] else [LowerChar(s[0])] + Lower(s[1..])
  }

  /** A string with no upper-case letter (what downcase produces). */
  predicate IsLower(s: string)
  {
    forall i :: 0 <= i < |s| ==> !IsUpper(s[i])
  }

  /** Downcasing is idempotent, and it leaves a lower-case string unchanged. */
  lemma LowerIdempotent(s: string)
    ensures IsLower(Lower(s))
    ensures Lower(Lower(s)) == Lower(s)
  {
    var l := Lower(s);
    assert forall i :: 0 <= i < |l| ==> LowerChar(l[i]) == l[i];
  }

  lemma LowerOfLower(s: string)
    requires IsLower(s)
    ensures Lower(s) == s
  {
  }
}
