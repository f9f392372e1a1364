/** Quoted text in octets, as JSON and HTTP both write it: a backslash takes the next octet as it is. */
module Octets {
  import opened Common

  const QUOTE: byte := 34
  const BACKSLASH: byte := 92

  /** One character of a quoted string's raw text: as it is, or behind a backslash. */
  datatype Letter = Plain(b: byte) | Slashed(b: byte)

  function LetterText(x: Letter): seq<byte>
  {
    if x.Plain? then [x.b] else [BACKSLASH, x.b]
  }

  function LettersText(xs: seq<Letter>): seq<byte>
  {
    if xs == [] then [] else LetterText(xs[0]) + LettersText(xs[1..])
  }
}
