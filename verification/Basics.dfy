/** What several parts of the client share. */
module Basics {

  datatype Option<+T> = None | Some(value: T)

  function Min(a: int, b: int): int {
    if a < b then a else b
  }

  /** `pattern` stands in `text` at `i`. */
  predicate At<T(==)>(text: seq<T>, i: nat, pattern: seq<T>) {
    i + |pattern| <= |text| && text[i..i + |pattern|] == pattern
  }

  lemma AtSplit<T>(text: seq<T>, i: nat, a: seq<T>, b: seq<T>)
    requires At(text, i, a + b)
    ensures At(text, i, a) && At(text, i + |a|, b)
  {
    var here := text[i..i + |a + b|];
    assert a == (a + b)[..|a|] && b == (a + b)[|a|..];
    assert text[i..i + |a|] == here[..|a|];
    assert text[i + |a|..i + |a + b|] == here[|a|..];
  }

  /** The codes of the white space `trim` takes off and `\s` stands for. */
  predicate IsBlankCode(u: int) {
    9 <= u <= 13 || u == 32 || u == 160 || u == 0x1680 || 0x2000 <= u <= 0x200a || u == 0x2028 || u == 0x2029 ||
    u == 0x202f || u == 0x205f || u == 0x3000 || u == 0xfeff
  }

  /** The code of the same ASCII letter in lower case. */
  function LowerCode(u: int): int {
    if 65 <= u <= 90 then u + 32 else u
  }
}
