/** The string operations the pages apply before comparing: `toLowerCase`,
    `trim` and `includes`, restricted to ASCII letters and ASCII whitespace. */
module Text {

  /** The whitespace that `String.prototype.trim` removes, restricted to the ASCII set:
      space, tab, line feed, vertical tab, form feed and carriage return. */
  predicate IsSpace(c: char) {
    c == ' ' || c == '\t' || c == '\n' || c == '\r' || c == '\U{000B}' || c == '\U{000C}'
  }

  /** `Boolean(s)` for a string. */
  predicate NonBlank(s: string) {
    s != ""
  }

  function LowerChar(c: char): (r: char)
    ensures !('A' <= r <= 'Z')
  {
    if 'A' <= c <= 'Z' then (c as int + 32) as char else c
  }

  /** `s.toLowerCase()` on ASCII letters: the result has no upper-case letter, each
      upper-case letter becomes the same letter in lower case, and every other character
      is kept in its place. */
  function Lower(s: string): (r: string)
    ensures |r| == |s|
    ensures forall i :: 0 <= i < |r| ==> !('A' <= r[i] <= 'Z')
    ensures forall i :: 0 <= i < |s| && !('A' <= s[i] <= 'Z') ==> r[i] == s[i]
    ensures forall i :: 0 <= i < |s| && 'A' <= s[i] <= 'Z' ==>
                        'a' <= r[i] <= 'z' && r[i] as int - 'a' as int == s[i] as int - 'A' as int
  {
    seq(|s|, i requires 0 <= i < |s| => LowerChar(s[i]))
  }

  lemma LowerIdempotent(s: string)
    ensures Lower(Lower(s)) == Lower(s)
  {
  }

  /** `s.trim()`: whitespace is removed from both ends until neither end is blank. */
  function Trim(s: string): (r: string)
    ensures |r| <= |s|
    ensures r == [] || (!IsSpace(r[0]) && !IsSpace(r[|r| - 1]))
  {
    if s != [] && IsSpace(s[0]) then Trim(s[1..])
    else if s != [] && IsSpace(s[|s| - 1]) then Trim(s[..|s| - 1])
    else s
  }

  /** A string with no whitespace at either end is its own trim. */
  lemma TrimOfTrimmed(s: string)
    requires s == [] || (!IsSpace(s[0]) && !IsSpace(s[|s| - 1]))
    ensures Trim(s) == s
  {
  }

  /** The number of whitespace characters `s` starts with. */
  function LeadingSpaces(s: string): (n: nat)
    ensures n <= |s|
  {
    if s != [] && IsSpace(s[0]) then 1 + LeadingSpaces(s[1..]) else 0
  }

  /** Everything of `s` before position `a` and from position `b` on is whitespace. */
  predicate BlankOutside(s: string, a: int, b: int) {
    (forall i :: 0 <= i < a && i < |s| ==> IsSpace(s[i])) &&
    (forall i :: 0 <= b <= i < |s| ==> IsSpace(s[i]))
  }

  predicate TrimSlice(s: string) {
    LeadingSpaces(s) + |Trim(s)| <= |s| &&
    Trim(s) == s[LeadingSpaces(s)..LeadingSpaces(s) + |Trim(s)|] &&
    BlankOutside(s, LeadingSpaces(s), LeadingSpaces(s) + |Trim(s)|)
  }

  lemma TrimSliceFront(s: string)
    requires s != [] && IsSpace(s[0]) && TrimSlice(s[1..])
    ensures TrimSlice(s)
  {
    var rest := s[1..];
    var a := LeadingSpaces(rest);
    var r := Trim(rest);
    assert Trim(s) == r && LeadingSpaces(s) == a + 1;
    assert rest[a..a + |r|] == s[a + 1..a + 1 + |r|];
    forall i | 0 <= i < a + 1
      ensures IsSpace(s[i])
    {
      if i > 0 {
        assert s[i] == rest[i - 1];
      }
    }
    forall i | a + 1 + |r| <= i < |s|
      ensures IsSpace(s[i])
    {
      assert s[i] == rest[i - 1];
    }
  }

  lemma TrimSliceBack(s: string)
    requires s != [] && !IsSpace(s[0]) && IsSpace(s[|s| - 1]) && TrimSlice(s[..|s| - 1])
    ensures TrimSlice(s)
  {
    var n := |s| - 1;
    var init := s[..n];
    var r := Trim(init);
    assert Trim(s) == r && LeadingSpaces(s) == 0;
    assert n > 0 ==> init[0] == s[0];
    assert LeadingSpaces(init) == 0;
    assert init[..|r|] == s[..|r|];
    forall i | |r| <= i < |s|
      ensures IsSpace(s[i])
    {
      if i < n {
        assert s[i] == init[i];
      }
    }
  }

  /** Trimming removes only whitespace, and only at the ends: the result is the slice of
      `s` after its leading whitespace, with nothing but whitespace after it. */
  lemma {:induction false} TrimIsSlice(s: string)
    ensures TrimSlice(s)
  {
    if s != [] && IsSpace(s[0]) {
      TrimIsSlice(s[1..]);
      TrimSliceFront(s);
    } else if s != [] && IsSpace(s[|s| - 1]) {
      TrimIsSlice(s[..|s| - 1]);
      TrimSliceBack(s);
    } else {
      assert s[0..|s|] == s;
    }
  }

  lemma TrimIdempotent(s: string)
    ensures Trim(Trim(s)) == Trim(s)
  {
    TrimOfTrimmed(Trim(s));
  }

  predicate StartsWith(s: string, prefix: string) {
    |prefix| <= |s| && s[..|prefix|] == prefix
  }

  /** `s.includes(sub)`: `sub` occurs in `s` at some position. */
  predicate Includes(s: string, sub: string)
    decreases |s|
  {
    StartsWith(s, sub) || (s != [] && Includes(s[1..], sub))
  }

  /** Every string includes the empty string, so an empty search term matches everything. */
  lemma IncludesEmpty(s: string)
    ensures Includes(s, "")
  {
    assert StartsWith(s, "");
  }

  /** `Includes` holds exactly when `sub` is found at some offset of `s`. */
  lemma {:induction false} IncludesAt(s: string, sub: string)
    ensures Includes(s, sub) <==> exists k :: 0 <= k <= |s| && StartsWith(s[k..], sub)
  {
    assert s[0..] == s;
    if s != [] {
      IncludesAt(s[1..], sub);
      if exists k :: 0 <= k <= |s| && StartsWith(s[k..], sub) {
        var k :| 0 <= k <= |s| && StartsWith(s[k..], sub);
        if k > 0 {
          assert s[1..][k - 1..] == s[k..];
        }
      }
      if Includes(s[1..], sub) {
        var k :| 0 <= k <= |s[1..]| && StartsWith(s[1..][k..], sub);
        assert s[1..][k..] == s[k + 1..];
      }
    }
  }
}
