/**
 * The string rules `SearchEngine` applies before an oracle is consulted: the
 * extension filter of `index_folder`, the blank-text test `not text.strip()`
 * and the newline replacement of `_get_embedding`.
 */
module TextRules {

  function Min(a: int, b: int): int {
    if a <= b then a else b
  }

  /** The characters for which Python's `str.isspace()` holds, the ones
      `str.strip()` removes. */
  predicate IsSpace(c: char) {
    || c == ' '
    || ('\t' <= c <= '\r')
    || ('\U{1C}' <= c <= '\U{1F}')
    || c == '\U{85}' || c == '\U{A0}' || c == '\U{1680}'
    || ('\U{2000}' <= c <= '\U{200A}')
    || c == '\U{2028}' || c == '\U{2029}' || c == '\U{202F}' || c == '\U{205F}' || c == '\U{3000}'
  }

  /** `not text.strip()`: the text is empty or whitespace only. */
  predicate IsBlank(s: string) {
    forall i :: 0 <= i < |s| ==> IsSpace(s[i])
  }

  /** Lower-cases one of the letters A to Z and keeps every other character. */
  function LowerChar(c: char): char {
    if 'A' <= c <= 'Z' then (c as int + 32) as char else c
  }

  /** `str.lower()` on the letters A to Z. */
  function Lower(s: string): (r: string)
    ensures |r| == |s|
    ensures forall i :: 0 <= i < |s| ==> r[i] == LowerChar(s[i])
  {
    if s == [] then [] else [LowerChar(s[0])] + Lower(s[1..])
  }

  predicate EndsWith(s: string, suffix: string) {
    |suffix| <= |s| && s[|s| - |suffix|..] == suffix
  }

  /** The last characters of `name`, lower-cased, are `ext`. */
  predicate EndsWithLower(name: string, ext: string) {
    |ext| <= |name| && forall i :: 0 <= i < |ext| ==> LowerChar(name[|name| - |ext| + i]) == ext[i]
  }

  /** `file.lower().endswith(('.pdf', '.docx', '.txt'))`. */
  predicate IsSupportedName(name: string) {
    EndsWithLower(name, ".pdf") || EndsWithLower(name, ".docx") || EndsWithLower(name, ".txt")
  }

  /** `s.replace("\n", " ")`. */
  function ReplaceNewlines(s: string): (r: string)
    ensures |r| == |s|
    ensures forall i :: 0 <= i < |s| ==> r[i] == (if s[i] == '\n' then ' ' else s[i])
  {
    if s == [] then [] else [if s[0] == '\n' then ' ' else s[0]] + ReplaceNewlines(s[1..])
  }

  /** The suffix test is `lower()` followed by `endswith()`. */
  lemma EndsWithLowerSpec(name: string, ext: string)
    ensures EndsWithLower(name, ext) <==> EndsWith(Lower(name), ext)
  {
    if |ext| <= |name| {
      var l := Lower(name);
      var d := |name| - |ext|;
      var tail := l[d..];
      assert |tail| == |ext|;
      forall i | 0 <= i < |ext| ensures tail[i] == LowerChar(name[d + i]) {
        assert tail[i] == l[d + i];
      }
      if EndsWithLower(name, ext) {
        assert tail == ext;
      }
      if tail == ext {
        forall i | 0 <= i < |ext| ensures LowerChar(name[d + i]) == ext[i] {
          assert tail[i] == ext[i];
        }
      }
    }
  }
}
