/** `normalize_text`: `text.lower()` followed by `.replace('.', ' ')`, over
    ASCII text, where `lower()` maps each character to one character. */
module Normalize {

  predicate IsAscii(s: string) {
    forall i :: 0 <= i < |s| ==> s[i] <= '\U{7F}'
  }

  predicate IsUpper(c: char) {
    'A' <= c <= 'Z'
  }

  /** `str.lower()` on one ASCII character. */
  function LowerChar(c: char): (r: char)
    requires c <= '\U{7F}'
    ensures r <= '\U{7F}' && !IsUpper(r)
    ensures IsUpper(c) ==> r as int == c as int + 32
    ensures !IsUpper(c) ==> r == c
  {
    if IsUpper(c) then (c as int + 32) as char else c
  }

  /** `s.lower()` for ASCII `s`. */
  function Lower(s: string): (r: string)
    requires IsAscii(s)
    ensures |r| == |s| && IsAscii(r)
    ensures forall i :: 0 <= i < |r| ==> !IsUpper(r[i])
  {
    if s == [] then [] else [LowerChar(s[0])] + Lower(s[1..])
  }

  /** `s.replace(target, subst)` for one-character `target` and `subst`. */
  function Replace(s: string, target: char, subst: char): (r: string)
    ensures |r| == |s|
    ensures target != subst ==> forall i :: 0 <= i < |r| ==> r[i] != target
  {
    if s == [] then [] else [if s[0] == target then subst else s[0]] + Replace(s[1..], target, subst)
  }

  /** `normalize_text`; its result is ASCII text of the same length. */
  function NormalizeText(text: string): (r: string)
    requires IsAscii(text)
    ensures |r| == |text| && IsAscii(r)
  {
    LowerAt(text);
    ReplaceAt(Lower(text), '.', ' ');
    Replace(Lower(text), '.', ' ')
  }

  /** Lower-casing is a per-character map. */
  lemma {:induction false} LowerAt(s: string)
    requires IsAscii(s)
    ensures |Lower(s)| == |s|
    ensures forall i :: 0 <= i < |s| ==> Lower(s)[i] == LowerChar(s[i])
  {
    if s != [] {
      LowerAt(s[1..]);
    }
  }

  /** Replacing one character by another is a per-character map. */
  lemma {:induction false} ReplaceAt(s: string, target: char, subst: char)
    ensures |Replace(s, target, subst)| == |s|
    ensures forall i :: 0 <= i < |s| ==> Replace(s, target, subst)[i] == if s[i] == target then subst else s[i]
  {
    if s != [] {
      ReplaceAt(s[1..], target, subst);
    }
  }

  /** `normalize_text` keeps the length; each character becomes a space where
      the input has `.` and its lower-case form everywhere else. */
  lemma NormalizeAt(text: string)
    requires IsAscii(text)
    ensures |NormalizeText(text)| == |text|
    ensures forall i :: 0 <= i < |text| ==>
      NormalizeText(text)[i] == if text[i] == '.' then ' ' else LowerChar(text[i])
  {
    LowerAt(text);
    ReplaceAt(Lower(text), '.', ' ');
  }

  /** The result holds no `.` and no upper-case letter. */
  lemma NormalizeClean(text: string)
    requires IsAscii(text)
    ensures forall i :: 0 <= i < |text| ==>
      NormalizeText(text)[i] != '.' && !IsUpper(NormalizeText(text)[i])
  {
    NormalizeAt(text);
  }

  /** Normalizing normalized text changes nothing. */
  lemma NormalizeIdempotent(text: string)
    requires IsAscii(text)
    ensures NormalizeText(NormalizeText(text)) == NormalizeText(text)
  {
    var t := NormalizeText(text);
    NormalizeClean(text);
    NormalizeAt(t);
    NormalizeAt(text);
  }

  /** Periods become spaces and letters are folded to lower case. */
  lemma NormalizeExample()
    ensures NormalizeText("A.B.") == "a b "
  {
    NormalizeAt("A.B.");
  }
}
