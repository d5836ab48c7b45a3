/** Strings as the Go sources use them: white space, trimming, searching and the string order. */
module Text {

  // unicode.IsSpace
  predicate IsSpace(c: char) {
    var n := c as int;
    || 9 <= n <= 13 || n == 0x20 || n == 0x85 || n == 0xA0 || n == 0x1680
    || 0x2000 <= n <= 0x200A || n == 0x2028 || n == 0x2029 || n == 0x202F || n == 0x205F || n == 0x3000
  }

  function TrimLeft(s: string): (r: string)
    ensures |r| <= |s|
    ensures r != "" ==> !IsSpace(r[0])
  {
    if s != "" && IsSpace(s[0]) then TrimLeft(s[1..]) else s
  }

  function TrimRight(s: string): (r: string)
    ensures |r| <= |s|
    ensures r != "" ==> !IsSpace(r[|r| - 1]) && r[0] == s[0]
  {
    if s != "" && IsSpace(s[|s| - 1]) then TrimRight(s[..|s| - 1]) else s
  }

  // strings.TrimSpace
  function TrimSpace(s: string): (r: string)
    ensures r != "" ==> !IsSpace(r[0]) && !IsSpace(r[|r| - 1])
    ensures |r| <= |s|
  {
    TrimRight(TrimLeft(s))
  }

  predicate Blank(s: string) {
    TrimSpace(s) == ""
  }

  /** A non-empty string with no white space at either end. */
  predicate Trimmed(s: string) {
    s != "" && !IsSpace(s[0]) && !IsSpace(s[|s| - 1])
  }

  lemma TrimmedIsFixed(s: string)
    requires Trimmed(s)
    ensures TrimSpace(s) == s && !Blank(s)
  {
  }

  lemma {:induction false} TrimLeftIsSuffix(s: string)
    ensures TrimLeft(s) == s[|s| - |TrimLeft(s)|..]
  {
    if s != "" && IsSpace(s[0]) {
      TrimLeftIsSuffix(s[1..]);
    }
  }

  lemma {:induction false} TrimRightIsPrefix(s: string)
    ensures TrimRight(s) == s[..|TrimRight(s)|]
    decreases |s|
  {
    if s != "" && IsSpace(s[|s| - 1]) {
      TrimRightIsPrefix(s[..|s| - 1]);
    }
  }

  /** A string that starts with no space is only cut at its end. */
  lemma TrimmedPrefix(s: string, i: nat)
    requires s != "" && !IsSpace(s[0]) && i < |s| && !IsSpace(s[i])
    ensures i < |TrimSpace(s)| && TrimSpace(s) == s[..|TrimSpace(s)|]
  {
    NonSpaceSurvivesRight(s, i);
    TrimRightIsPrefix(s);
  }

  /** A string that ends with no space is only cut at its start, and not beyond a non-space. */
  lemma TrimmedSuffix(s: string, i: nat)
    requires i < |s| && !IsSpace(s[i]) && !IsSpace(s[|s| - 1])
    ensures |s| - |TrimSpace(s)| <= i && TrimSpace(s) == s[|s| - |TrimSpace(s)|..]
  {
    NonSpaceSurvivesLeft(s, i);
    TrimLeftIsSuffix(s);
    NonSpaceSurvivesLeft(s, |s| - 1);
  }

  lemma {:induction false} NonSpaceSurvivesLeft(s: string, i: nat)
    requires i < |s| && !IsSpace(s[i])
    ensures |s| - |TrimLeft(s)| <= i && TrimLeft(s)[i - (|s| - |TrimLeft(s)|)] == s[i]
  {
    if IsSpace(s[0]) {
      NonSpaceSurvivesLeft(s[1..], i - 1);
    }
  }

  lemma {:induction false} NonSpaceSurvivesRight(s: string, i: nat)
    requires i < |s| && !IsSpace(s[i])
    ensures i < |TrimRight(s)|
    decreases |s|
  {
    if IsSpace(s[|s| - 1]) {
      NonSpaceSurvivesRight(s[..|s| - 1], i);
    }
  }

  lemma NonSpaceIsNotBlank(s: string, i: nat)
    requires i < |s| && !IsSpace(s[i])
    ensures !Blank(s)
  {
    NonSpaceSurvivesLeft(s, i);
    var l := TrimLeft(s);
    NonSpaceSurvivesRight(l, i - (|s| - |l|));
  }

  predicate OccursAt(s: string, sub: string, i: int) {
    0 <= i <= |s| - |sub| && s[i..i + |sub|] == sub
  }

  // strings.Index: the first occurrence, or -1.
  function Index(s: string, sub: string): (r: int)
    ensures r == -1 || OccursAt(s, sub, r)
    ensures forall j | 0 <= j && (r == -1 || j < r) :: !OccursAt(s, sub, j)
  {
    IndexFrom(s, sub, 0)
  }

  function IndexFrom(s: string, sub: string, from: nat): (r: int)
    requires from <= |s| + 1
    ensures r == -1 || (from <= r && OccursAt(s, sub, r))
    ensures forall j | from <= j && (r == -1 || j < r) :: !OccursAt(s, sub, j)
    decreases |s| + 1 - from
  {
    if from > |s| then -1
    else if OccursAt(s, sub, from) then from
    else IndexFrom(s, sub, from + 1)
  }

  // strings.LastIndex for a one-character needle.
  function LastIndexChar(s: string, c: char): (r: int)
    ensures -1 <= r < |s|
    ensures r >= 0 ==> s[r] == c
    ensures forall j | r < j < |s| :: s[j] != c
  {
    if s == "" then -1
    else if s[|s| - 1] == c then |s| - 1
    else LastIndexChar(s[..|s| - 1], c)
  }

  // The order of Go's < on strings.
  predicate Less(a: string, b: string) {
    b != "" && (a == "" || a[0] < b[0] || (a[0] == b[0] && Less(a[1..], b[1..])))
  }

  lemma LessIrreflexive(a: string)
    ensures !Less(a, a)
  {
  }

  lemma {:induction false} LessTransitive(a: string, b: string, c: string)
    requires Less(a, b) && Less(b, c)
    ensures Less(a, c)
  {
    if a != "" && a[0] == b[0] == c[0] {
      LessTransitive(a[1..], b[1..], c[1..]);
    }
  }

  lemma {:induction false} LessTotal(a: string, b: string)
    ensures Less(a, b) || a == b || Less(b, a)
  {
    if a != "" && b != "" && a[0] == b[0] {
      LessTotal(a[1..], b[1..]);
      if a[1..] == b[1..] {
        assert a == [a[0]] + a[1..] && b == [b[0]] + b[1..];
      }
    }
  }
}
