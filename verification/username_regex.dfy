/**
 * The username pattern `/^([a-z\\-]+)$/i` of both forms.
 *
 * Inside the class, `\\` is an escaped backslash and the `-` before `]` is a
 * literal hyphen, so the class as written holds `a`-`z`, `\` and `-`. The `i`
 * flag (without `u`) makes a character match when some class member has the
 * same canonical form, where canonicalising upper-cases a character but never
 * maps a non-ASCII character onto an ASCII one (the Canonicalize operation
 * of ECMA-262's regular-expression semantics). The net effect: ASCII
 * letters of either case, hyphen, and also backslash, although the form's
 * message speaks of letters and hyphens only.
 */
module UsernameRegex {
  import opened JsText

  /** Membership in `[a-z\\-]` exactly as written, ignoring the flag. */
  predicate InClassAsWritten(c: char)
  {
    'a' <= c <= 'z' || c == '\\' || c == '-'
  }

  /**
   * Canonicalize for a non-unicode ignore-case pattern. ASCII characters are
   * upper-cased; a non-ASCII character is kept as it is, which is exact for
   * this class: its canonical form is non-ASCII either way, and the canonical
   * forms of the class members are all ASCII.
   */
  function Canonicalize(c: char): char
  {
    if c as int < 128 then UpperChar(c) else c
  }

  /** The standard's ignore-case class match: some member canonicalises like `c`. */
  ghost predicate ClassMatchesIgnoreCase(c: char)
  {
    exists a: char :: InClassAsWritten(a) && Canonicalize(a) == Canonicalize(c)
  }

  /** The executable class test: lower-case the ASCII letters, then test the class as written. */
  predicate ClassMatches(c: char)
  {
    InClassAsWritten(LowerChar(c))
  }

  /** The characters a username may hold, in plain words: letters, hyphen, backslash. */
  predicate IsUsernameChar(c: char)
  {
    IsAsciiLetter(c) || c == '-' || c == '\\'
  }

  /** The executable test, the standard's ignore-case match and the plain description agree. */
  lemma ClassExactly(c: char)
    ensures ClassMatches(c) <==> IsUsernameChar(c)
    ensures ClassMatchesIgnoreCase(c) <==> IsUsernameChar(c)
  {
    if ClassMatchesIgnoreCase(c) {
      var a: char :| InClassAsWritten(a) && Canonicalize(a) == Canonicalize(c);
      assert Canonicalize(a) == UpperChar(a);
    }
    if IsUsernameChar(c) {
      var a := LowerChar(c);
      assert InClassAsWritten(a) && Canonicalize(a) == Canonicalize(c);
    }
  }

  /** Every character of `s` is a username character. */
  predicate AllUsernameChars(s: string)
  {
    forall i :: 0 <= i < |s| ==> IsUsernameChar(s[i])
  }

  /** `[a-z\\-]*` anchored at the end: every remaining character is in the class. */
  predicate MatchesStar(s: string): (b: bool)
    ensures b <==> AllUsernameChars(s)
  {
    if s == [] then true
    else
      ClassExactly(s[0]);
      assert forall i :: 1 <= i < |s| ==> s[i] == s[1..][i - 1];
      ClassMatches(s[0]) && MatchesStar(s[1..])
  }

  /**
   * The whole pattern `^([a-z\\-]+)$`: one class character, then the starred
   * rest. It accepts exactly the non-empty strings of letters, hyphens and
   * backslashes.
   */
  predicate Matches(s: string): (b: bool)
    ensures b <==> |s| > 0 && AllUsernameChars(s)
  {
    if s == [] then false
    else
      ClassExactly(s[0]);
      assert forall i :: 1 <= i < |s| ==> s[i] == s[1..][i - 1];
      ClassMatches(s[0]) && MatchesStar(s[1..])
  }

  /**
   * The whole username rule both forms apply: at least three UTF-16 code
   * units (`.min(3)`), every character from the class (the pattern).
   */
  predicate ValidUsername(s: string)
  {
    Utf16Length(s) >= 3 && AllUsernameChars(s)
  }

  /** Lower-casing keeps a string inside the pattern, and the pattern only admits ASCII. */
  lemma MatchesLowered(s: string)
    requires Matches(s)
    ensures Matches(ToLower(s))
    ensures forall i :: 0 <= i < |s| ==> s[i] as int < 128
  {
  }

  /** The backslash quirk: a backslash passes the class just like a letter or a hyphen. */
  lemma BackslashAccepted()
    ensures Matches("ab\\")
    ensures Matches("Joao-Silva")
  {
  }

  /** An underscore, a space, a digit or an empty input does not match. */
  lemma OtherCharactersRejected()
    ensures !Matches("joao_silva")
    ensures !Matches("ab c")
    ensures !Matches("user1")
    ensures !Matches("")
  {
    var u := "joao_silva";
    assert !IsUsernameChar(u[4]);
    var b := "ab c";
    assert !IsUsernameChar(b[2]);
    var d := "user1";
    assert !IsUsernameChar(d[4]);
  }
}
