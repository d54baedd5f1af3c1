/** Python's string operations the parsers rely on. */
module Text {

  /** The characters `str.strip()` removes. */
  predicate IsSpace(c: char) {
    var n := c as int;
    || 0x09 <= n <= 0x0D || 0x1C <= n <= 0x20 || n == 0x85 || n == 0xA0 || n == 0x1680
    || 0x2000 <= n <= 0x200A || n == 0x2028 || n == 0x2029 || n == 0x202F || n == 0x205F || n == 0x3000
  }

  function StripLeft(s: string): string {
    if s != "" && IsSpace(s[0]) then StripLeft(s[1..]) else s
  }

  function StripRight(s: string): string {
    if s != "" && IsSpace(s[|s| - 1]) then StripRight(s[..|s| - 1]) else s
  }

  function Strip(s: string): string {
    StripRight(StripLeft(s))
  }

  /** No space at either end: stripping changes nothing. */
  predicate Stripped(s: string) {
    s == "" || (!IsSpace(s[0]) && !IsSpace(s[|s| - 1]))
  }

  lemma StrippedStays(s: string)
    requires Stripped(s)
    ensures Strip(s) == s
  {
  }

  lemma {:induction false} StripLeftEnd(s: string)
    ensures StripLeft(s) == "" || !IsSpace(StripLeft(s)[0])
  {
    if s != "" && IsSpace(s[0]) { StripLeftEnd(s[1..]); }
  }

  /** Strings joined by a separator; the empty list joins to the empty string. */
  function Join(parts: seq<string>, separator: string): string {
    if parts == [] then ""
    else if |parts| == 1 then parts[0]
    else parts[0] + separator + Join(parts[1..], separator)
  }

  /** The pieces between occurrences of `d`; never empty as a list. */
  function SplitOn(s: string, d: char): (r: seq<string>)
    ensures |r| > 0
  {
    if s == "" then [""]
    else if s[0] == d then [""] + SplitOn(s[1..], d)
    else
      var rest := SplitOn(s[1..], d);
      [[s[0]] + rest[0]] + rest[1..]
  }

  lemma {:induction false} SplitOnJoined(s: string, d: char, t: string)
    requires d !in s
    ensures SplitOn(s + [d] + t, d) == [s] + SplitOn(t, d)
    ensures SplitOn(s, d) == [s]
  {
    var whole := s + [d] + t;
    if s == "" {
      assert whole[1..] == t;
    } else {
      assert whole[1..] == s[1..] + [d] + t && whole[0] == s[0];
      SplitOnJoined(s[1..], d, t);
      assert [s[0]] + s[1..] == s;
      assert ([s[1..]] + SplitOn(t, d))[1..] == SplitOn(t, d);
    }
  }

  lemma {:induction false} SplitOnConcat(s: string, d: char, t: string)
    ensures SplitOn(s + [d] + t, d) == SplitOn(s, d) + SplitOn(t, d)
  {
    var whole := s + [d] + t;
    if s == "" {
      assert whole[1..] == t;
    } else {
      assert whole[1..] == s[1..] + [d] + t && whole[0] == s[0];
      SplitOnConcat(s[1..], d, t);
    }
  }

  predicate All(s: string, p: char -> bool) {
    forall i :: 0 <= i < |s| ==> p(s[i])
  }
}
