/** Vocabulary shared by all modules. */
module Prelude {

  datatype Option<+T> = None | Some(value: T)

  datatype Result<+T, +E> = Ok(value: T) | Err(error: E)

  type Byte = bv8

  /** A UTF-16 code unit: JavaScript strings are sequences of these. */
  type CodeUnit = bv16

  const COLON: CodeUnit := 58

  type Bytes = seq<Byte>

  type JsString = seq<CodeUnit>

  /** White space and line terminators: what `parseInt` skips and `\s` matches. */
  predicate IsWhite(c: CodeUnit) {
    || 9 <= c <= 13 || c == 32 || c == 0xA0 || c == 0x1680 || 0x2000 <= c <= 0x200A
    || c == 0x2028 || c == 0x2029 || c == 0x202F || c == 0x205F || c == 0x3000 || c == 0xFEFF
  }

  function Min(a: int, b: int): int { if a < b then a else b }

  function Max(a: int, b: int): int { if a < b then b else a }

  function Pow2(k: nat): (p: int)
    ensures p > 0
  {
    if k == 0 then 1 else 2 * Pow2(k - 1)
  }

  /** `Array.prototype.slice` with one argument: a negative start counts from the end. */
  function SliceFrom<T>(a: seq<T>, begin: int): seq<T> {
    a[if begin < 0 then Max(|a| + begin, 0) else Min(begin, |a|)..]
  }

  /** `slice` with two non-negative arguments, clamped to the length. */
  function Slice<T>(a: seq<T>, begin: nat, end: nat): seq<T>
    requires begin <= end
  {
    a[Min(begin, |a|)..Min(end, |a|)]
  }

  /** No entry occurs twice. */
  ghost predicate Distinct<T>(s: seq<T>) {
    forall i, j :: 0 <= i < j < |s| ==> s[i] != s[j]
  }

  /** The code points of WhiteSpace and LineTerminator in ECMAScript. */
  lemma WhiteSpaceIs(c: CodeUnit)
    ensures IsWhite(c) <==>
            c in {0x9, 0xA, 0xB, 0xC, 0xD, 0x20, 0xA0, 0x1680, 0x2000, 0x2001, 0x2002, 0x2003, 0x2004, 0x2005, 0x2006,
                  0x2007, 0x2008, 0x2009, 0x200A, 0x2028, 0x2029, 0x202F, 0x205F, 0x3000, 0xFEFF}
  {
  }

  /** From the front, or so many from the end. */
  lemma SliceFromIs<T>(a: seq<T>, n: nat)
    ensures SliceFrom(a, n) == if n <= |a| then a[n..] else []
    ensures n > 0 ==> SliceFrom(a, 0 - n as int) == if n <= |a| then a[|a| - n..] else a
  {
  }
}
