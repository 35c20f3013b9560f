/** White space as the Unicode tables of the source language have it. */
module Text {
  predicate IsSpace(c: char) {
    || c in "\t\n\U{000b}\U{000c}\r "
    || c in "\U{0085}\U{00a0}\U{1680}\U{2028}\U{2029}\U{202f}\U{205f}\U{3000}"
    || '\U{2000}' <= c <= '\U{200a}'
  }

  /** The code points with the White_Space property. */
  lemma WhiteSpace(c: char)
    ensures IsSpace(c) <==>
              || c as int in {9, 10, 11, 12, 13, 32, 133, 160, 5760, 8232, 8233, 8239, 8287, 12288}
              || 8192 <= c as int <= 8202
  {
  }

  function TrimLeft(s: string): (r: string)
    ensures |r| <= |s|
    ensures r == "" || !IsSpace(r[0])
  {
    if s == "" || !IsSpace(s[0]) then s else TrimLeft(s[1..])
  }

  function TrimRight(s: string): (r: string)
    ensures |r| <= |s| && r == s[..|r|]
    ensures r == "" || !IsSpace(r[|r| - 1])
  {
    if s == "" || !IsSpace(s[|s| - 1]) then s else TrimRight(s[..|s| - 1])
  }

  /** Without leading and trailing white space. */
  function Trim(s: string): string {
    TrimRight(TrimLeft(s))
  }

  predicate Blank(s: string) {
    Trim(s) == ""
  }

  /** Trimming twice is trimming once, so a trimmed value is blank only when it is empty. */
  lemma TrimTwice(s: string)
    ensures Trim(Trim(s)) == Trim(s)
    ensures Blank(Trim(s)) <==> Blank(s)
  {
    var l := TrimLeft(s);
    var t := TrimRight(l);
    if t != "" {
      assert t[0] == l[0];
      assert TrimLeft(t) == t && TrimRight(t) == t;
    }
  }

  // Joined texts

  lemma SameAfterSuffix(a: string, b: string, suffix: string)
    ensures a + suffix == b + suffix <==> a == b
  {
    if a + suffix == b + suffix {
      assert a == (a + suffix)[..|a|] && b == (b + suffix)[..|b|];
    }
  }

  lemma FirstSeparator(u: string, a: string, c: char)
    requires c !in u
    ensures var x := u + [c] + a;
            |u| < |x| && x[|u|] == c && forall k :: 0 <= k < |u| ==> x[k] != c
  {
    forall k | 0 <= k < |u| ensures (u + [c] + a)[k] != c {
      assert u[k] in u;
    }
  }

  /** Two texts joined by a separator that the first one is free of come apart again. */
  lemma SplitAtFirst(u: string, a: string, v: string, b: string, c: char)
    requires c !in u && c !in v
    ensures u + [c] + a == v + [c] + b <==> u == v && a == b
  {
    var x, y := u + [c] + a, v + [c] + b;
    FirstSeparator(u, a, c);
    FirstSeparator(v, b, c);
    if x == y {
      assert |u| == |v|;
      assert u == x[..|u|] && v == y[..|v|];
      assert a == x[|u| + 1..] && b == y[|v| + 1..];
    }
  }
}
