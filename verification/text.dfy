/** Case folding of filter labels, as Python's `str.lower()` does it for the
    letters that occur in the ledger's French status labels. */
module Text {

  /** True iff c is an upper-case letter of the ASCII or Latin-1 ranges. */
  predicate IsUpper(c: char) {
    'A' <= c <= 'Z' || ('\U{C0}' <= c <= '\U{DE}' && c != '\U{D7}')
  }

  /** The lower-case form of one character; characters without one are kept. */
  function LowerChar(c: char): (r: char)
    ensures !IsUpper(r)
    ensures !IsUpper(c) ==> r == c
  {
    if IsUpper(c) then (c as int + 32) as char else c
  }

  /** The lower-case form of a string, character by character. */
  function Lower(s: string): (r: string)
    ensures |r| == |s|
    ensures forall i :: 0 <= i < |s| ==> r[i] == LowerChar(s[i])
  {
    seq(|s|, i requires 0 <= i < |s| => LowerChar(s[i]))
  }

  /** The case table: each ASCII and Latin-1 capital letter becomes the small
      letter at the same place of the alphabet. */
  lemma LowerLetters()
    ensures forall i :: 0 <= i < 26 ==>
              LowerChar("ABCDEFGHIJKLMNOPQRSTUVWXYZ"[i]) == "abcdefghijklmnopqrstuvwxyz"[i]
    ensures forall i :: 0 <= i < 30 ==>
              LowerChar("ÀÁÂÃÄÅÆÇÈÉÊËÌÍÎÏÐÑÒÓÔÕÖØÙÚÛÜÝÞ"[i]) == "àáâãäåæçèéêëìíîïðñòóôõöøùúûüýþ"[i]
  {
  }

  /** Any letter-case spelling of "tous" lower-cases to "tous". */
  lemma LowerTous(s: string)
    requires |s| == 4
    requires s[0] in "tT" && s[1] in "oO" && s[2] in "uU" && s[3] in "sS"
    ensures Lower(s) == "tous"
  {
  }

  /** Lower-casing twice is lower-casing once. */
  lemma LowerIdempotent(s: string)
    ensures Lower(Lower(s)) == Lower(s)
  {
  }
}
