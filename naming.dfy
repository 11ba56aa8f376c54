/** Capitalisation of identifiers, as used to derive the generated symbol
    names of a sub-command (cli-init.go, ToUpperFirst).

    Characters are ASCII: 'a'..'z' become 'A'..'Z' and every other character
    is left as it is. */
module Naming {

  predicate IsLowerAscii(c: char) {
    'a' <= c <= 'z'
  }

  /** The one-character upper-casing that strings.ToUpper performs on ASCII. */
  function UpperAscii(c: char): (u: char)
    ensures !IsLowerAscii(u)
    ensures IsLowerAscii(c) ==> 'A' <= u <= 'Z' && u as int + 32 == c as int
    ensures !IsLowerAscii(c) ==> u == c
  {
    if IsLowerAscii(c) then (c as int - 32) as char else c
  }

  /** Upper-cases the first character and keeps the rest. The source slices
      str[0:1], which panics on the empty string: callers must not pass one. */
  function ToUpperFirst(str: string): (r: string)
    requires |str| > 0
    ensures |r| == |str|
    ensures r[0] == UpperAscii(str[0]) && !IsLowerAscii(r[0])
    ensures forall i | 1 <= i < |str| :: r[i] == str[i]
  {
    [UpperAscii(str[0])] + str[1..]
  }

  /** Capitalising twice is capitalising once. */
  lemma ToUpperFirstIdempotent(str: string)
    requires |str| > 0
    ensures ToUpperFirst(ToUpperFirst(str)) == ToUpperFirst(str)
  {
  }

  /** Two non-empty names capitalise to the same string exactly when they
      agree everywhere except possibly in the case of their first letter. */
  lemma ToUpperFirstCollides(a: string, b: string)
    requires |a| > 0 && |b| > 0
    ensures ToUpperFirst(a) == ToUpperFirst(b) <==>
              UpperAscii(a[0]) == UpperAscii(b[0]) && a[1..] == b[1..]
  {
  }

  /** Upper-casing the first character merges exactly one lower-case letter
      with its capital, and nothing else. */
  lemma UpperAsciiCollides(x: char, y: char)
    ensures UpperAscii(x) == UpperAscii(y) <==>
              x == y
              || (IsLowerAscii(x) && y as int + 32 == x as int)
              || (IsLowerAscii(y) && x as int + 32 == y as int)
  {
  }

  /** "add" and "Add" capitalise alike: distinct sub-command names can yield
      one and the same symbol. */
  lemma DistinctNamesSameCapital()
    ensures "add" != "Add" && ToUpperFirst("add") == ToUpperFirst("Add") == "Add"
  {
  }
}
