/** Shared wrapper types. */
module Base {

  /** A Java reference that may be null, or an `Optional`. */
  datatype Option<T> = None | Some(value: T)

  /** A Java `int`. */
  newtype Int32 = x: int | -0x8000_0000 <= x <= 0x7FFF_FFFF

  function Min(a: int, b: int): int
  {
    if a <= b then a else b
  }

  lemma ConcatAssoc<T>(a: seq<T>, b: seq<T>, c: seq<T>)
    ensures a + (b + c) == (a + b) + c
  {
  }

  /** Storing under a fresh key adds exactly that key. */
  lemma FreshKeyAdded<V>(m: map<int, V>, k: int, v: V)
    requires k !in m
    ensures m[k := v].Keys == m.Keys + {k}
    ensures |m[k := v]| == |m| + 1
  {
  }
}
