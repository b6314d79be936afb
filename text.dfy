/**
 * String trimming as JavaScript's String.prototype.trim does it: leading and
 * trailing characters of the ECMAScript WhiteSpace and LineTerminator classes
 * are removed, nothing else is touched.
 */
module Text {

  /** The characters trim() strips: TAB, VT, FF, SPACE, NBSP, ZWNBSP, the other
      Unicode space separators (category Zs) and the line terminators LF, CR,
      LS and PS. */
  const Spaces: set<char> := {
    '\t', '\U{B}', '\U{C}', ' ', '\U{A0}', '\U{FEFF}', '\U{1680}',
    '\U{2000}', '\U{2001}', '\U{2002}', '\U{2003}', '\U{2004}', '\U{2005}',
    '\U{2006}', '\U{2007}', '\U{2008}', '\U{2009}', '\U{200A}',
    '\U{202F}', '\U{205F}', '\U{3000}',
    '\n', '\r', '\U{2028}', '\U{2029}'
  }

  predicate IsSpace(c: char) {
    c in Spaces
  }

  /** Every character of s is whitespace (true of the empty string). */
  ghost predicate AllSpace(s: string) {
    forall k :: 0 <= k < |s| ==> IsSpace(s[k])
  }

  /** The number of whitespace characters at the start of s. */
  function LeadingSpace(s: string): (n: nat)
    ensures n <= |s|
    ensures forall k :: 0 <= k < n ==> IsSpace(s[k])
    ensures n < |s| ==> !IsSpace(s[n])
  {
    if |s| > 0 && IsSpace(s[0]) then
      1 + LeadingSpace(s[1..])
    else 0
  }

  /** The number of whitespace characters at the end of s. */
  function TrailingSpace(s: string): (n: nat)
    ensures n <= |s|
    ensures forall k :: |s| - n <= k < |s| ==> IsSpace(s[k])
    ensures n < |s| ==> !IsSpace(s[|s| - 1 - n])
  {
    if |s| > 0 && IsSpace(s[|s| - 1]) then
      1 + TrailingSpace(s[..|s| - 1])
    else 0
  }

  /** s with its leading and trailing whitespace removed. */
  function Trim(s: string): (r: string)
    ensures LeadingSpace(s) + |r| <= |s|
    ensures r == s[LeadingSpace(s)..LeadingSpace(s) + |r|]
    ensures forall k :: 0 <= k < LeadingSpace(s) ==> IsSpace(s[k])
    ensures forall k :: LeadingSpace(s) + |r| <= k < |s| ==> IsSpace(s[k])
    ensures r == [] <==> AllSpace(s)
    ensures r != [] ==> !IsSpace(r[0]) && !IsSpace(r[|r| - 1])
  {
    var lead := LeadingSpace(s);
    if lead == |s| then []
    else
      TrimBounds(s, lead, TrailingSpace(s));
      s[lead..|s| - TrailingSpace(s)]
  }

  /** When s holds a non-whitespace character, the whitespace prefix and the
      whitespace suffix do not meet: what lies between them starts and ends
      with a non-whitespace character. */
  lemma TrimBounds(s: string, lead: nat, trail: nat)
    requires lead == LeadingSpace(s) && trail == TrailingSpace(s) && lead < |s|
    ensures lead < |s| - trail
    ensures !IsSpace(s[lead]) && !IsSpace(s[|s| - 1 - trail])
    ensures !AllSpace(s)
  {
    assert !IsSpace(s[lead]);
    assert trail < |s|;
  }

  /** Trimming twice changes nothing more than trimming once. */
  lemma {:induction false} TrimIdempotent(s: string)
    ensures Trim(Trim(s)) == Trim(s)
  {
    var r := Trim(s);
    if r != [] {
      assert LeadingSpace(r) == 0;
      assert TrailingSpace(r) == 0;
      assert r[0..|r|] == r;
    }
  }

}
