/**
 * The few Python string operations the script relies on, restricted to ASCII:
 * `str.lower`, `str.rfind` for one character and `str.isdigit`.
 */
module PyStr {

  /** `c.lower()` for an ASCII character: upper-case letters map to lower-case, all else is kept. */
  function LowerChar(c: char): (r: char)
    ensures 'A' <= c <= 'Z' ==> 'a' <= r <= 'z' && r as int - c as int == 32
    ensures !('A' <= c <= 'Z') ==> r == c
  {
    if 'A' <= c <= 'Z' then (c as int + 32) as char else c
  }

  /** `s.lower()`: folds ASCII upper-case letters character by character. */
  function Lower(s: string): (r: string)
    ensures |r| == |s|
  {
    seq(|s|, i requires 0 <= i < |s| => LowerChar(s[i]))
  }

  /** No upper-case ASCII letter is left, and every other character is kept in place. */
  lemma LowerFolds(s: string, i: nat)
    requires i < |s|
    ensures !('A' <= Lower(s)[i] <= 'Z')
    ensures !('A' <= s[i] <= 'Z') ==> Lower(s)[i] == s[i]
  {
  }

  /** Lowering commutes with slicing. */
  lemma LowerSlice(s: string, i: nat)
    requires i <= |s|
    ensures Lower(s[i..]) == Lower(s)[i..]
  {
  }

  /** Lowering a second time changes nothing. */
  lemma LowerIdempotent(s: string)
    ensures Lower(Lower(s)) == Lower(s)
  {
  }

  /** Lowering never creates or removes a '.' character. */
  lemma LowerKeepsDots(s: string, i: nat)
    requires i < |s|
    ensures Lower(s)[i] == '.' <==> s[i] == '.'
  {
  }

  /**
   * `s.rfind(c)`: the index of the last occurrence of `c` in `s`, or -1
   * when `c` does not occur.
   */
  function RFind(s: string, c: char): (r: int)
    ensures -1 <= r < |s|
    ensures r >= 0 ==> s[r] == c
    ensures forall j :: r < j < |s| ==> s[j] != c
  {
    if |s| == 0 then -1
    else if s[|s| - 1] == c then |s| - 1
    else RFind(s[..|s| - 1], c)
  }

  /** The last occurrence is the only occurrence at or after any index that holds `c` with none after it. */
  lemma RFindAt(s: string, c: char, i: nat)
    requires i < |s| && s[i] == c
    requires forall j :: i < j < |s| ==> s[j] != c
    ensures RFind(s, c) == i
  {
  }

  /** `RFind` sees the same positions in a lowered string, for a character lowering leaves alone. */
  lemma RFindLower(s: string)
    ensures RFind(Lower(s), '.') == RFind(s, '.')
  {
    var r := RFind(s, '.');
    if r >= 0 {
      LowerKeepsDots(s, r);
      RFindAt(Lower(s), '.', r);
    } else {
      assert forall j :: 0 <= j < |s| ==> Lower(s)[j] != '.';
    }
  }

  /** `c.isdigit()` restricted to the ASCII digits. */
  predicate IsDigitChar(c: char) {
    '0' <= c <= '9'
  }

  /** `s.isdigit()`: true exactly for a non-empty string of digits. */
  predicate IsDigits(s: string) {
    |s| > 0 && forall i :: 0 <= i < |s| ==> IsDigitChar(s[i])
  }
}
