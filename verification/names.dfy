/**
 * The character classes and name patterns the register store tests names
 * against. The patterns are case-insensitive regular expressions without the
 * Unicode flag, so their letter ranges match exactly the ASCII letters.
 */
module RegisterNames {

  predicate IsAsciiLetter(c: char) {
    ('a' <= c <= 'z') || ('A' <= c <= 'Z')
  }

  predicate IsAsciiDigit(c: char) {
    '0' <= c <= '9'
  }

  predicate IsAsciiAlnum(c: char) {
    IsAsciiLetter(c) || IsAsciiDigit(c)
  }

  /** The whole name is one or more ASCII letters or digits. */
  predicate IsAlnumName(name: string) {
    |name| > 0 && forall i :: 0 <= i < |name| ==> IsAsciiAlnum(name[i])
  }

  /** The name contains a literal dot somewhere (the pattern is not anchored). */
  predicate ContainsDot(name: string) {
    '.' in name
  }

  /** The whole name is one or more ASCII letters: the names a macro may be recorded into. */
  predicate IsLetterName(name: string) {
    |name| > 0 && forall i :: 0 <= i < |name| ==> IsAsciiLetter(name[i])
  }

  /** Every letter name is also an alphanumeric name, and has no dot. */
  lemma LetterNameIsAlnumName(name: string)
    ensures IsLetterName(name) ==> IsAlnumName(name) && !ContainsDot(name)
  {
    if IsLetterName(name) {
      assert forall i :: 0 <= i < |name| ==> name[i] != '.';
    }
  }

  /** For a one-character name the alphanumeric pattern is the character class itself. */
  lemma SingleCharAlnum(c: char)
    ensures IsAlnumName([c]) <==> IsAsciiAlnum(c)
    ensures ContainsDot([c]) <==> c == '.'
  {
    assert [c][0] == c;
  }
}
