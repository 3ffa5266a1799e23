/**
 * How a GimpConfig deserializer finishes
 * (gimp_config_deserialize_return in libgimpconfig/gimpconfig-iface.c).
 *
 * After the properties of an object have been read, the scanner must stand
 * either at the end of the input or, inside a nested object, at the closing
 * parenthesis. Anything else is a parse error and the offending token is
 * consumed.
 */
module ConfigScanner {

  /** The GTokenType values the decision looks at; every other token is Other. */
  datatype Token = Eof | LeftParen | RightParen | Other(code: int)

  /**
   * A GScanner reduced to the tokens before the end of its input and a read
   * position; past them it yields EOF, and it never steps past EOF.
   */
  class Scanner {
    const tokens: seq<Token>
    var pos: nat

    predicate Valid()
      reads this
    {
      pos <= |tokens| && Eof !in tokens
    }

    constructor (input: seq<Token>)
      requires Eof !in input
      ensures tokens == input && pos == 0 && Valid()
    {
      tokens := input;
      pos := 0;
    }

    /** g_scanner_peek_next_token: the next token, not consumed. */
    function Peek(): Token
      reads this
      requires Valid()
    {
      if pos < |tokens| then tokens[pos] else Eof
    }

    /** g_scanner_get_next_token: the next token, consumed; at the end the scanner stays put. */
    method GetNextToken() returns (t: Token)
      requires Valid()
      modifies this
      ensures Valid()
      ensures t == old(Peek())
      ensures pos == if old(pos) < |tokens| then old(pos) + 1 else old(pos)
    {
      t := Peek();
      if pos < |tokens| {
        pos := pos + 1;
      }
    }
  }

  /** What gimp_config_deserialize_return decides: its result, and whether it consumes a token. */
  datatype Verdict = Verdict(ok: bool, consumes: bool)

  /** Lines 652-676: the decision on the expected token, the peeked token and the nest level. */
  function ReturnDecision(expected: Token, next: Token, nestLevel: int): (v: Verdict)
    // Success and consuming a token exclude each other.
    ensures v.ok <==> !v.consumes
    // Lines 654-660: an unexpected expected token always fails.
    ensures expected != LeftParen ==> !v.ok
    // Lines 663-666: the closing parenthesis of a nested object is left for the caller.
    ensures expected == LeftParen && nestLevel > 0 && next == RightParen ==> v.ok
    // Lines 667, 676: the end of the input is fine at every nest level.
    ensures expected == LeftParen && next == Eof ==> v.ok
    // Lines 667-672: anything else fails, a closing parenthesis at level 0 included.
    ensures expected == LeftParen && next != Eof && !(nestLevel > 0 && next == RightParen) ==> !v.ok
  {
    if expected != LeftParen then Verdict(false, true)
    else if nestLevel > 0 && next == RightParen then Verdict(true, false)
    else if next != Eof then Verdict(false, true)
    else Verdict(true, false)
  }

  /** gimp_config_deserialize_return; a NULL scanner fails without effect (line 650). */
  method DeserializeReturn(scanner: Scanner?, expected: Token, nestLevel: int) returns (ok: bool)
    requires scanner != null ==> scanner.Valid()
    modifies scanner
    ensures scanner == null ==> !ok
    ensures scanner != null ==> scanner.Valid()
    ensures scanner != null ==> ok == ReturnDecision(expected, old(scanner.Peek()), nestLevel).ok
    ensures scanner != null ==>
              scanner.pos == if ReturnDecision(expected, old(scanner.Peek()), nestLevel).consumes && old(scanner.pos) < |scanner.tokens|
                             then old(scanner.pos) + 1 else old(scanner.pos)
  {
    if scanner == null {
      return false;
    }
    var next := scanner.Peek();
    if expected != LeftParen {
      var _ := scanner.GetNextToken();
      return false;
    } else {
      if nestLevel > 0 && next == RightParen {
        return true;
      } else if next != Eof {
        var _ := scanner.GetNextToken();
        return false;
      }
    }
    return true;
  }
}
