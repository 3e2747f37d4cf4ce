/** The few string operations the gateway applies to its identifiers. */
module Text {

  /** White space as strings.TrimSpace understands it. */
  predicate IsSpace(c: char) {
    || '\U{9}' <= c <= '\U{D}' || c == ' ' || c == '\U{85}' || c == '\U{A0}'
    || c == '\U{1680}' || '\U{2000}' <= c <= '\U{200A}' || c == '\U{2028}' || c == '\U{2029}'
    || c == '\U{202F}' || c == '\U{205F}' || c == '\U{3000}'
  }

  /** The 25 characters of the White_Space property. */
  const SPACES: set<char> := {
    '\t', '\n', '\U{B}', '\U{C}', '\r', ' ', '\U{85}', '\U{A0}', '\U{1680}',
    '\U{2000}', '\U{2001}', '\U{2002}', '\U{2003}', '\U{2004}', '\U{2005}', '\U{2006}',
    '\U{2007}', '\U{2008}', '\U{2009}', '\U{200A}',
    '\U{2028}', '\U{2029}', '\U{202F}', '\U{205F}', '\U{3000}'}

  lemma IsSpaceIff(c: char)
    ensures IsSpace(c) <==> c in SPACES
  {
    var n := c as int;
    assert '\U{9}' <= c <= '\U{D}' <==> n == 9 || n == 10 || n == 11 || n == 12 || n == 13;
    assert '\U{2000}' <= c <= '\U{200A}' <==>
           n == 0x2000 || n == 0x2001 || n == 0x2002 || n == 0x2003 || n == 0x2004 || n == 0x2005
           || n == 0x2006 || n == 0x2007 || n == 0x2008 || n == 0x2009 || n == 0x200A;
  }

  function TrimLeft(s: string): string {
    if s != "" && IsSpace(s[0]) then TrimLeft(s[1..]) else s
  }

  function TrimRight(s: string): string {
    if s != "" && IsSpace(s[|s| - 1]) then TrimRight(s[..|s| - 1]) else s
  }

  function TrimSpace(s: string): string {
    TrimRight(TrimLeft(s))
  }

  predicate Blank(s: string) {
    TrimSpace(s) == ""
  }

  lemma {:induction false} TrimLeftEnd(s: string)
    ensures TrimLeft(s) == "" || !IsSpace(TrimLeft(s)[0])
  {
    if s != "" && IsSpace(s[0]) {
      TrimLeftEnd(s[1..]);
    }
  }

  lemma {:induction false} TrimRightEnd(s: string)
    ensures TrimRight(s) <= s
    ensures TrimRight(s) == "" || !IsSpace(TrimRight(s)[|TrimRight(s)| - 1])
  {
    if s != "" && IsSpace(s[|s| - 1]) {
      TrimRightEnd(s[..|s| - 1]);
    }
  }

  /** Trimming a second time changes nothing. */
  lemma TrimSpaceIdempotent(s: string)
    ensures TrimSpace(TrimSpace(s)) == TrimSpace(s)
  {
    hide IsSpace;
    TrimLeftEnd(s);
    TrimRightEnd(TrimLeft(s));
  }

  lemma {:induction false} TrimLeftCuts(s: string)
    ensures |TrimLeft(s)| <= |s| && TrimLeft(s) == s[|s| - |TrimLeft(s)|..]
    ensures forall k | 0 <= k < |s| - |TrimLeft(s)| :: IsSpace(s[k])
  {
    hide IsSpace;
    if s != "" && IsSpace(s[0]) {
      TrimLeftCuts(s[1..]);
      assert forall k | 0 < k < |s| :: s[1..][k - 1] == s[k];
    }
  }

  lemma {:induction false} TrimRightCuts(s: string)
    ensures TrimRight(s) <= s && forall k | |TrimRight(s)| <= k < |s| :: IsSpace(s[k])
  {
    hide IsSpace;
    if s != "" && IsSpace(s[|s| - 1]) {
      TrimRightCuts(s[..|s| - 1]);
    }
  }

  /** Trimming keeps a stretch of the string that has no space at its ends, and cuts off nothing but space. */
  lemma TrimSpaceCuts(s: string) returns (i: nat, j: nat)
    ensures i <= j <= |s| && TrimSpace(s) == s[i..j]
    ensures i < j ==> !IsSpace(s[i]) && !IsSpace(s[j - 1])
    ensures forall k | 0 <= k < i || j <= k < |s| :: IsSpace(s[k])
  {
    hide IsSpace, TrimLeft, TrimRight;
    var left := TrimLeft(s);
    TrimLeftCuts(s);
    TrimLeftEnd(s);
    TrimRightCuts(left);
    TrimRightEnd(left);
    i := |s| - |left|;
    j := i + |TrimRight(left)|;
    assert forall k | 0 <= k < |left| :: left[k] == s[i + k];
    assert TrimSpace(s) == left[..j - i];
    forall k | j <= k < |s|
      ensures IsSpace(s[k])
    {
      assert left[k - i] == s[k];
    }
  }

  /** A string is blank exactly if it has nothing but space. */
  lemma BlankIff(s: string)
    ensures Blank(s) <==> forall k | 0 <= k < |s| :: IsSpace(s[k])
  {
    var i, j := TrimSpaceCuts(s);
    hide IsSpace, TrimSpace;
  }

  /** Lower case, exact wherever the result is an ASCII letter. */
  function LowerChar(c: char): char {
    if 'A' <= c <= 'Z' then c - 'A' + 'a'
    else if c == '\U{130}' then 'i'
    else if c == '\U{212A}' then 'k'
    else c
  }

  function ToLower(s: string): (r: string)
    ensures |r| == |s|
  {
    seq(|s|, i requires 0 <= i < |s| => LowerChar(s[i]))
  }

  /** The order in which Go compares strings. */
  predicate Less(a: string, b: string) {
    if b == "" then false
    else if a == "" then true
    else if a[0] != b[0] then a[0] < b[0]
    else Less(a[1..], b[1..])
  }

  lemma {:induction false} LessTrichotomy(a: string, b: string)
    ensures Less(a, b) || Less(b, a) || a == b
    ensures !(Less(a, b) && Less(b, a))
    ensures !Less(a, a)
  {
    if a != "" {
      LessTrichotomy(a[1..], if b == "" then "" else b[1..]);
      if b != "" && a[0] == b[0] && a[1..] == b[1..] {
        assert a == [a[0]] + a[1..] && b == [b[0]] + b[1..];
      }
    }
  }

  lemma {:induction false} LessTransitive(a: string, b: string, c: string)
    requires Less(a, b) && Less(b, c)
    ensures Less(a, c)
  {
    if a != "" && a[0] == b[0] && b[0] == c[0] {
      LessTransitive(a[1..], b[1..], c[1..]);
    }
  }

  /** At the first place where two strings differ the smaller character decides; a prefix comes first. */
  ghost predicate DiffersAt(a: string, b: string, k: nat) {
    && k <= |a| && k < |b| && a[..k] == b[..k] && (k < |a| ==> a[k] < b[k])
  }

  lemma {:induction false} LessIff(a: string, b: string)
    ensures Less(a, b) <==> exists k: nat :: DiffersAt(a, b, k)
  {
    if b == "" {
    } else if a == "" {
      assert DiffersAt(a, b, 0);
    } else if a[0] != b[0] {
      assert a[0] < b[0] ==> DiffersAt(a, b, 0);
      forall k: nat | DiffersAt(a, b, k)
        ensures a[0] < b[0]
      {
        assert k > 0 ==> a[..k][0] == b[..k][0];
      }
    } else {
      LessIff(a[1..], b[1..]);
      if k: nat :| DiffersAt(a, b, k) {
        assert k > 0;
        assert a[1..][..k - 1] == a[..k][1..] && b[1..][..k - 1] == b[..k][1..];
        assert DiffersAt(a[1..], b[1..], k - 1);
      }
      if k: nat :| DiffersAt(a[1..], b[1..], k) {
        assert a[..k + 1] == [a[0]] + a[1..][..k] && b[..k + 1] == [b[0]] + b[1..][..k];
        assert DiffersAt(a, b, k + 1);
      }
    }
  }
}
