/** String literals as the scanners of several components read them: a backslash escapes any one character. */
module Literals {

  datatype LiteralChar = Bare(c: char) | Escaped(c: char)

  // The characters of a literal with its closing quote.
  function RenderLiteral(quote: char, chars: seq<LiteralChar>): string {
    if chars == [] then [quote]
    else (match chars[0] case Bare(c) => [c] case Escaped(c) => ['\\', c]) + RenderLiteral(quote, chars[1..])
  }

  // Only escaped characters may be quotes of the literal's kind or backslashes.
  ghost predicate GoodLiteral(quote: char, chars: seq<LiteralChar>) {
    forall k :: 0 <= k < |chars| && chars[k].Bare? ==> chars[k].c != quote && chars[k].c != '\\'
  }
}
