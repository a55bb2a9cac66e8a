/**
 * Title casing of a text cell, as the pipeline applies it to `Outcome` and
 * `Who Applied?`.  This is an ASCII model of title casing: a letter that follows
 * a non-letter (or starts the string) becomes upper case, a letter that follows
 * a letter becomes lower case, and every other character is kept and counts as
 * a non-letter.
 */
module TitleCase {

  predicate IsUpper(c: char) { 'A' <= c <= 'Z' }
  predicate IsLower(c: char) { 'a' <= c <= 'z' }

  /** A cased character: one whose case title casing can change. */
  predicate IsCased(c: char) { IsUpper(c) || IsLower(c) }

  function ToUpper(c: char): (u: char)
    ensures IsCased(u) == IsCased(c)
    ensures !IsLower(u)
  {
    if IsLower(c) then (c as int - 32) as char else c
  }

  function ToLower(c: char): (l: char)
    ensures IsCased(l) == IsCased(c)
    ensures !IsUpper(l)
  {
    if IsUpper(c) then (c as int + 32) as char else c
  }

  /** The character at position `i` of `s` after title casing: upper case at the start of a word, lower case inside one. */
  function TitleAt(s: string, i: nat): char
    requires i < |s|
  {
    if i > 0 && IsCased(s[i - 1]) then ToLower(s[i]) else ToUpper(s[i])
  }

  /**
   * `str.title()` on a cell value: only the case of letters changes, and a
   * letter ends up upper case exactly when it starts a word.
   */
  function Title(s: string): (t: string)
    ensures |t| == |s|
    ensures Lowered(t) == Lowered(s)
    ensures forall i :: 0 <= i < |s| && IsCased(s[i]) ==> (IsUpper(t[i]) <==> i == 0 || !IsCased(s[i - 1]))
  {
    seq(|s|, i requires 0 <= i < |s| => TitleAt(s, i))
  }

  /** The whole string in lower case. */
  function Lowered(s: string): (l: string)
    ensures |l| == |s|
  {
    seq(|s|, i requires 0 <= i < |s| => ToLower(s[i]))
  }

  /** Title casing an already title-cased value changes nothing. */
  lemma TitleIdempotent(s: string)
    ensures Title(Title(s)) == Title(s)
  {
    var t := Title(s);
    forall i | 0 <= i < |s| ensures Title(t)[i] == t[i] {
      if i > 0 {
        assert IsCased(t[i - 1]) == IsCased(s[i - 1]);
      }
    }
  }

  /** Title casing sees only the letters, not their case: values equal up to case title-case alike. */
  lemma TitleIgnoresCase(s: string, s': string)
    requires Lowered(s) == Lowered(s')
    ensures Title(s) == Title(s')
  {
    assert |s| == |Lowered(s')| == |s'|;
    forall i | 0 <= i < |s| ensures Title(s)[i] == Title(s')[i] {
      assert Lowered(s)[i] == Lowered(s')[i];
      if i > 0 {
        assert Lowered(s)[i - 1] == Lowered(s')[i - 1];
      }
    }
  }
}
