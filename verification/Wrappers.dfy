/** What the modules share: a value that may be missing (`null`, `undefined`), and the
    characters that JavaScript's `trim` and `parseInt` skip. */
module Wrappers {

  datatype Option<+T> = None | Some(value: T)

  function OrElse<T>(o: Option<T>, d: T): T { if o.Some? then o.value else d }

  lemma {:induction false} Assoc<T>(a: seq<T>, b: seq<T>, c: seq<T>)
    ensures (a + b) + c == a + (b + c)
  {
  }

  /** White space and line terminators (ECMA-262, sections 12.2 and 12.3). */
  predicate Blank(c: char) {
    || '\U{0009}' <= c <= '\U{000D}' || c == ' ' || c == '\U{00A0}' || c == '\U{1680}'
    || '\U{2000}' <= c <= '\U{200A}' || c == '\U{2028}' || c == '\U{2029}' || c == '\U{202F}' || c == '\U{205F}'
    || c == '\U{3000}' || c == '\U{FEFF}'
  }
}
