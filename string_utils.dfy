/**
 * Spring's `StringUtils.hasText`: a string has text when it is non-null, non-empty and
 * holds at least one character that Java's `Character.isWhitespace` does not classify
 * as whitespace.
 */
module StringUtils {
  import opened Wrappers

  /**
   * Java's `Character.isWhitespace`: the space separators other than the no-break ones
   * (U+00A0, U+2007, U+202F), the line and paragraph separators, and the control
   * characters U+0009..U+000D and U+001C..U+001F.
   */
  predicate IsWhitespace(ch: char) {
    var n := ch as int;
    || n == 0x20
    || 0x09 <= n <= 0x0D
    || 0x1C <= n <= 0x1F
    || n == 0x1680
    || 0x2000 <= n <= 0x2006
    || 0x2008 <= n <= 0x200A
    || n == 0x2028 || n == 0x2029
    || n == 0x205F
    || n == 0x3000
  }

  /** Scans `s` from the front for a character that is not whitespace. */
  function ContainsText(s: string): (r: bool)
    ensures r <==> exists i :: 0 <= i < |s| && !IsWhitespace(s[i])
  {
    if s == [] then false
    else if !IsWhitespace(s[0]) then true
    else
      var r := ContainsText(s[1..]);
      assert forall i :: 1 <= i < |s| ==> s[i] == s[1..][i - 1];
      r
  }

  function HasText(s: Option<string>): (r: bool)
    ensures r <==> s.Some? && exists i :: 0 <= i < |s.value| && !IsWhitespace(s.value[i])
  {
    s.Some? && |s.value| > 0 && ContainsText(s.value)
  }

  /** Null, empty and whitespace-only strings have no text; one visible character suffices. */
  lemma HasTextCases()
    ensures !HasText(None)
    ensures !HasText(Some(""))
    ensures !HasText(Some(" \t\n"))
    ensures HasText(Some(" a "))
  {
    assert !IsWhitespace(" a "[1]);
  }
}
