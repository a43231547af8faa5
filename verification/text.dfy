/** The two string methods the customer normalisation chains, lower() and
    strip(), restricted to ASCII: lower() maps 'A'..'Z' to 'a'..'z' and
    leaves every other character alone; strip() removes the characters
    Python's str.isspace() accepts from both ends. */
module Text {

  /** ASCII characters for which str.isspace() holds: tab, line feed,
      vertical tab, form feed, carriage return, the four information
      separators 0x1C..0x1F, and space. */
  predicate IsSpace(c: char) {
    var n := c as int;
    (9 <= n <= 13) || (28 <= n <= 31) || n == 32
  }

  predicate IsUpper(c: char) {
    'A' <= c <= 'Z'
  }

  function LowerChar(c: char): (l: char)
    ensures !IsUpper(l)
    ensures IsSpace(l) <==> IsSpace(c)
    ensures !IsUpper(c) ==> l == c
  {
    if IsUpper(c) then (c as int + 32) as char else c
  }

  /** str.lower() */
  function Lower(s: string): (r: string)
    ensures |r| == |s|
    ensures forall i :: 0 <= i < |s| ==> r[i] == LowerChar(s[i])
  {
    seq(|s|, i requires 0 <= i < |s| => LowerChar(s[i]))
  }

  predicate NoUpper(s: string) {
    forall i :: 0 <= i < |s| ==> !IsUpper(s[i])
  }

  /** Index of the first character of s that is not space (|s| if none):
      everything before it is space. */
  function StripStart(s: string): (i: nat)
    ensures i <= |s|
    ensures forall k :: 0 <= k < i ==> IsSpace(s[k])
    ensures i == |s| || !IsSpace(s[i])
  {
    if |s| > 0 && IsSpace(s[0]) then 1 + StripStart(s[1..]) else 0
  }

  /** Index just past the last character of s at or after i that is not
      space (i if none): everything from it on is space. */
  function StripEnd(s: string, i: nat): (j: nat)
    requires i <= |s|
    ensures i <= j <= |s|
    ensures forall k :: j <= k < |s| ==> IsSpace(s[k])
    ensures j == i || !IsSpace(s[j - 1])
  {
    if |s| > i && IsSpace(s[|s| - 1]) then StripEnd(s[..|s| - 1], i) else |s|
  }

  /** str.strip(): the part of s between its leading and its trailing
      whitespace. */
  function Strip(s: string): (r: string)
    ensures |r| <= |s|
    ensures |r| == 0 || (!IsSpace(r[0]) && !IsSpace(r[|r| - 1]))
  {
    var i := StripStart(s);
    s[i..StripEnd(s, i)]
  }

  /** A string with no upper-case letter and no surrounding whitespace. */
  predicate IsClean(s: string) {
    NoUpper(s) && (s == [] || (!IsSpace(s[0]) && !IsSpace(s[|s| - 1])))
  }

  /** s.lower().strip(), the email normalisation. */
  function Clean(s: string): (r: string)
    ensures |r| <= |s|
  {
    Strip(Lower(s))
  }

  /** strip() returns a contiguous piece of its input, cutting away only
      whitespace on either side, and the piece neither starts nor ends
      with whitespace. */
  lemma StripSpec(s: string)
    ensures var i := StripStart(s); var r := Strip(s);
      && i + |r| <= |s| && r == s[i..i + |r|]
      && (forall k :: 0 <= k < i ==> IsSpace(s[k]))
      && (forall k :: i + |r| <= k < |s| ==> IsSpace(s[k]))
      && (r == [] || (!IsSpace(r[0]) && !IsSpace(r[|r| - 1])))
  {
  }

  /** A string with no surrounding whitespace is left alone by strip(). */
  lemma StripFixed(s: string)
    requires s == [] || (!IsSpace(s[0]) && !IsSpace(s[|s| - 1]))
    ensures Strip(s) == s
  {
  }

  /** The normalised email never holds an upper-case letter or
      surrounding whitespace. */
  lemma CleanIsClean(s: string)
    ensures IsClean(Clean(s))
  {
    var t := Lower(s);
    StripSpec(t);
  }

  /** The strings normalisation leaves unchanged are exactly the clean ones. */
  lemma CleanFixed(s: string)
    ensures Clean(s) == s <==> IsClean(s)
  {
    CleanIsClean(s);
    if IsClean(s) {
      assert Lower(s) == s;
      StripFixed(s);
    }
  }

  /** Normalising a normalised email changes nothing. */
  lemma CleanIdempotent(s: string)
    ensures Clean(Clean(s)) == Clean(s)
  {
    CleanIsClean(s);
    CleanFixed(Clean(s));
  }
}
