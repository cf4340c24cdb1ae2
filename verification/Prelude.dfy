/** Small datatypes and sequence lemmas the other modules share. */
module Prelude {

  datatype Option<+T> = None | Some(value: T)

  datatype Result<+T, +E> = Ok(value: T) | Err(error: E)

  function Min(a: int, b: int): int {
    if a <= b then a else b
  }

  function Max(a: int, b: int): int {
    if a <= b then b else a
  }

  function Last<T>(s: seq<T>): T
    requires s != []
  {
    s[|s| - 1]
  }

  ghost predicate IsSuffix<T>(s: seq<T>, t: seq<T>) {
    |s| <= |t| && s == t[|t| - |s|..]
  }

  lemma ConcatAssociates<T>(a: seq<T>, b: seq<T>, c: seq<T>)
    ensures a + b + c == a + (b + c)
  {
  }

  lemma DropIsSuffix<T>(s: seq<T>, n: nat, t: seq<T>)
    requires n <= |s| && IsSuffix(s, t)
    ensures IsSuffix(s[n..], s) && IsSuffix(s[n..], t)
  {
  }
}
