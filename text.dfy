/** ASCII text primitives shared by the identifier and field extractors:
    character classes as Python's `re` and `str` methods see them (restricted
    to ASCII), case-insensitive label comparison, the leftmost-position search
    that `re.search` performs, a greedy character run, and `str.strip()`. */
module Text {

  datatype Option<+T> = None | Some(value: T)

  /** `\d`, restricted to ASCII. */
  predicate IsDigit(c: char) { '0' <= c <= '9' }

  predicate IsLetter(c: char) { 'a' <= c <= 'z' || 'A' <= c <= 'Z' }

  /** `\w`, restricted to ASCII: letters, digits and the underscore. */
  predicate IsWordChar(c: char) { IsLetter(c) || IsDigit(c) || c == '_' }

  /** The ASCII characters `str.strip()` removes: space, tab, line feed,
      vertical tab, form feed, carriage return and the four separators
      0x1C..0x1F. */
  predicate IsSpace(c: char) {
    c as int == 32 || 9 <= c as int <= 13 || 28 <= c as int <= 31
  }

  /** ASCII case folding, as `re.IGNORECASE` and `str.lower()` apply it to ASCII. */
  function LowerChar(c: char): (r: char)
    ensures IsLetter(c) ==> IsLetter(r) && !('A' <= r <= 'Z')
    ensures 'A' <= c <= 'Z' ==> r as int - 'a' as int == c as int - 'A' as int
    ensures !('A' <= c <= 'Z') ==> r == c
  {
    if 'A' <= c <= 'Z' then (c as int + 32) as char else c
  }

  function Lower(s: string): (r: string)
    ensures |r| == |s|
    ensures forall k :: 0 <= k < |s| ==> r[k] == LowerChar(s[k])
  {
    seq(|s|, k requires 0 <= k < |s| => LowerChar(s[k]))
  }

  predicate EndsWith(s: string, suffix: string) {
    |suffix| <= |s| && s[|s| - |suffix|..] == suffix
  }

  /** `marker` occurs at position `p` of `s`, compared without regard to ASCII case. */
  predicate LabelAt(s: string, marker: string, p: nat) {
    p + |marker| <= |s| &&
    forall k :: 0 <= k < |marker| ==> LowerChar(s[p + k]) == LowerChar(marker[k])
  }

  /** The case-insensitive comparison of a regular expression with
      `re.IGNORECASE` agrees with comparing after `str.lower()`. */
  lemma LabelAtLower(s: string, marker: string, p: nat)
    requires p + |marker| <= |s|
    ensures LabelAt(s, marker, p) <==> Lower(s)[p..p + |marker|] == Lower(marker)
  {
    if LabelAt(s, marker, p) {
      assert forall k :: 0 <= k < |marker| ==> Lower(s)[p..p + |marker|][k] == Lower(marker)[k];
    }
    if Lower(s)[p..p + |marker|] == Lower(marker) {
      forall k | 0 <= k < |marker| ensures LowerChar(s[p + k]) == LowerChar(marker[k]) {
        assert Lower(s)[p..p + |marker|][k] == Lower(marker)[k];
      }
    }
  }

  /** The leftmost position in [from, bound) at which `P` holds: the order in
      which `re.search` tries the start positions of a match. */
  function FirstFrom(P: nat -> bool, from: nat, bound: nat): (r: Option<nat>)
    decreases bound - from
    ensures r.Some? ==> from <= r.value < bound && P(r.value)
    ensures r.Some? ==> forall j :: from <= j < r.value ==> !P(j)
    ensures r.None? ==> forall j :: from <= j < bound ==> !P(j)
  {
    if from >= bound then None
    else if P(from) then Some(from)
    else FirstFrom(P, from + 1, bound)
  }

  /** The end of the longest run of characters satisfying `P` that starts at
      `i`: what a greedy `[...]*` consumes. */
  function SkipWhile(s: string, i: nat, P: char -> bool): (e: nat)
    requires i <= |s|
    decreases |s| - i
    ensures i <= e <= |s|
    ensures forall k :: i <= k < e ==> P(s[k])
    ensures e == |s| || !P(s[e])
  {
    if i == |s| || !P(s[i]) then i else SkipWhile(s, i + 1, P)
  }

  lemma SkipWhileIs(s: string, i: nat, P: char -> bool, e: nat)
    requires i <= e <= |s|
    requires forall k :: i <= k < e ==> P(s[k])
    requires e == |s| || !P(s[e])
    ensures SkipWhile(s, i, P) == e
  {
  }

  function StripEnd(s: string): (r: string)
    ensures |r| <= |s| && r == s[..|r|]
    ensures forall k :: |r| <= k < |s| ==> IsSpace(s[k])
    ensures r == [] || !IsSpace(r[|r| - 1])
  {
    if s != [] && IsSpace(s[|s| - 1]) then StripEnd(s[..|s| - 1]) else s
  }

  /** `str.strip()`: the contiguous middle of `s` left once the leading and
      trailing whitespace is removed. */
  function Strip(s: string): (r: string)
    ensures exists i, j :: 0 <= i <= j <= |s| && r == s[i..j] &&
                           (forall k :: 0 <= k < i ==> IsSpace(s[k])) &&
                           (forall k :: j <= k < |s| ==> IsSpace(s[k]))
    ensures forall c :: c in r ==> c in s
    ensures r != [] ==> !IsSpace(r[0]) && !IsSpace(r[|r| - 1])
    ensures r == [] <==> forall k :: 0 <= k < |s| ==> IsSpace(s[k])
  {
    var i := SkipWhile(s, 0, IsSpace);
    var r := StripEnd(s[i..]);
    assert r == s[i..i + |r|];
    r
  }
}
