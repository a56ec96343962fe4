/** ASCII case mapping: the part of Python's `str.lower` and
    `str.capitalize` the taxonomy relies on. Non-ASCII letters are left
    unchanged. */
module Ascii {

  predicate IsUpper(c: char) {
    'A' <= c <= 'Z'
  }

  predicate IsLower(c: char) {
    'a' <= c <= 'z'
  }

  function LowerChar(c: char): char {
    if IsUpper(c) then (c as int + 32) as char else c
  }

  function UpperChar(c: char): char {
    if IsLower(c) then (c as int - 32) as char else c
  }

  /** `s.lower()`: every character mapped to lower case, position by
      position, leaving no upper-case letter behind. */
  function Lower(s: string): (r: string)
    ensures |r| == |s|
    ensures forall i :: 0 <= i < |s| ==> r[i] == LowerChar(s[i])
    ensures forall i :: 0 <= i < |r| ==> !IsUpper(r[i])
  {
    seq(|s|, i requires 0 <= i < |s| => LowerChar(s[i]))
  }

  /** `s.capitalize()`: the first character upper-cased, all others lower-cased. */
  function Capitalize(s: string): (r: string)
    ensures |r| == |s|
    ensures |s| > 0 ==> r[0] == UpperChar(s[0])
    ensures forall i :: 1 <= i < |s| ==> r[i] == LowerChar(s[i])
  {
    if s == [] then []
    else [UpperChar(s[0])] + Lower(s[1..])
  }

  /** `t` is the capitalization of `s` when it agrees with it position by
      position. */
  lemma CapitalizeCharwise(s: string, t: string)
    requires |s| == |t| > 0 && t[0] == UpperChar(s[0])
    requires forall i :: 1 <= i < |s| ==> t[i] == LowerChar(s[i])
    ensures Capitalize(s) == t
  {
    assert forall i :: 0 <= i < |s| ==> Capitalize(s)[i] == t[i];
  }

  /** A string already in capitalized form is its own capitalization. */
  lemma CapitalizeFixesCapitalized(s: string)
    requires |s| > 0 && !IsLower(s[0])
    requires forall i :: 1 <= i < |s| ==> !IsUpper(s[i])
    ensures Capitalize(s) == s
  {
    assert forall i :: 0 <= i < |s| ==> Capitalize(s)[i] == s[i];
  }

  /** Two strings whose lengths or lower-cased first characters differ stay
      different after lower-casing. */
  lemma LowerDistinct(a: string, b: string)
    requires |a| > 0 && |b| > 0
    requires |a| != |b| || LowerChar(a[0]) != LowerChar(b[0])
    ensures Lower(a) != Lower(b)
  {
  }
}
