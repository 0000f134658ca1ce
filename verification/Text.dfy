/** The string operations the corpus is assembled with, after Python's
    `str.join`, `str.split`, `str.strip` and `str.lower`. */
module Text {

  /** Python's `str.isspace()`: exactly the characters a bare `strip()` removes. */
  predicate IsSpace(c: char)
  {
    || c == ' '
    || ('\t' <= c <= '\r')
    || ('\U{1C}' <= c <= '\U{1F}')
    || c == '\U{85}'
    || c == '\U{A0}'
    || c == '\U{1680}'
    || ('\U{2000}' <= c <= '\U{200A}')
    || c == '\U{2028}'
    || c == '\U{2029}'
    || c == '\U{202F}'
    || c == '\U{205F}'
    || c == '\U{3000}'
  }

  predicate AllSpace(s: string)
  {
    forall k :: 0 <= k < |s| ==> IsSpace(s[k])
  }

  /** The sum of the lengths of `parts`. */
  function TotalLength(parts: seq<string>): nat
  {
    if |parts| == 0 then 0 else |parts[0]| + TotalLength(parts[1..])
  }

  /** `sep.join(parts)`. */
  function Join(sep: string, parts: seq<string>): (r: string)
    ensures |parts| == 0 ==> r == []
    ensures |parts| > 0 ==> |r| == TotalLength(parts) + |sep| * (|parts| - 1)
  {
    if |parts| == 0 then []
    else if |parts| == 1 then parts[0]
    else parts[0] + sep + Join(sep, parts[1..])
  }

  /** Joining two non-empty lists is joining each and putting one separator between. */
  lemma {:induction false} JoinAppend(sep: string, a: seq<string>, b: seq<string>)
    requires |a| > 0 && |b| > 0
    ensures Join(sep, a + b) == Join(sep, a) + sep + Join(sep, b)
    decreases |a|
  {
    if |a| == 1 {
      assert (a + b)[0] == a[0];
      assert (a + b)[1..] == b;
    } else {
      assert (a + b)[0] == a[0];
      assert (a + b)[1..] == a[1..] + b;
      JoinAppend(sep, a[1..], b);
    }
  }

  /** The position of the first `d` in `s`. */
  function FirstIndex(s: string, d: char): (i: nat)
    requires d in s
    ensures i < |s| && s[i] == d
    ensures forall j :: 0 <= j < i ==> s[j] != d
  {
    if s[0] == d then 0 else 1 + FirstIndex(s[1..], d)
  }

  /** `s.split(d)` for a one-character separator. */
  function Split(s: string, d: char): (r: seq<string>)
    ensures |r| > 0
    ensures forall i :: 0 <= i < |r| ==> d !in r[i]
    decreases |s|
  {
    if d in s then
      var i := FirstIndex(s, d);
      [s[..i]] + Split(s[i + 1..], d)
    else
      [s]
  }

  /** Splitting undoes joining when no part holds the separator. */
  lemma {:induction false} SplitJoin(parts: seq<string>, d: char)
    requires |parts| > 0
    requires forall i :: 0 <= i < |parts| ==> d !in parts[i]
    ensures Split(Join([d], parts), d) == parts
    decreases |parts|
  {
    if |parts| > 1 {
      var rest := Join([d], parts[1..]);
      var s := Join([d], parts);
      assert s == parts[0] + [d] + rest;
      assert s[|parts[0]|] == d;
      var i := FirstIndex(s, d);
      assert i == |parts[0]|;
      assert s[..i] == parts[0];
      assert s[i + 1..] == rest;
      SplitJoin(parts[1..], d);
      assert [parts[0]] + parts[1..] == parts;
    }
  }

  /** The number of whitespace characters `s` starts with. */
  function LeadingSpaces(s: string): (n: nat)
    ensures n <= |s|
    ensures forall k :: 0 <= k < n ==> IsSpace(s[k])
    ensures n < |s| ==> !IsSpace(s[n])
  {
    if |s| == 0 || !IsSpace(s[0]) then 0 else 1 + LeadingSpaces(s[1..])
  }

  /** The number of whitespace characters `s` ends with. */
  function TrailingSpaces(s: string): (n: nat)
    ensures n <= |s|
    ensures forall k :: |s| - n <= k < |s| ==> IsSpace(s[k])
    ensures n < |s| ==> !IsSpace(s[|s| - n - 1])
  {
    if |s| == 0 || !IsSpace(s[|s| - 1]) then 0
    else 1 + TrailingSpaces(s[..|s| - 1])
  }

  /** `r` is the slice of `s` starting at `i`, everything around it is whitespace,
      and it neither starts nor ends with whitespace. */
  predicate IsStripped(s: string, r: string, i: nat)
  {
    && i + |r| <= |s|
    && r == s[i..i + |r|]
    && AllSpace(s[..i])
    && AllSpace(s[i + |r|..])
    && (|r| > 0 ==> !IsSpace(r[0]) && !IsSpace(r[|r| - 1]))
  }

  /** `s.strip()`. */
  function Strip(s: string): (r: string)
    ensures exists i :: IsStripped(s, r, i)
  {
    var n := LeadingSpaces(s);
    var t := s[n..];
    var m := TrailingSpaces(t);
    var r := t[..|t| - m];
    assert forall k :: n + |r| <= k < |s| ==> IsSpace(s[k]) by {
      forall k | n + |r| <= k < |s|
        ensures IsSpace(s[k])
      {
        assert s[k] == t[k - n];
      }
    }
    assert IsStripped(s, r, n);
    r
  }

  /** Only one string is a stripped form of `s`, so `Strip` is determined by `IsStripped`. */
  lemma StrippedUnique(s: string, r1: string, i1: nat, r2: string, i2: nat)
    requires IsStripped(s, r1, i1) && IsStripped(s, r2, i2)
    ensures r1 == r2
  {
  }

  /** Python's `str.lower()` on one character, for ASCII, the Latin-1 capitals and the two
      French capitals outside Latin-1 (Œ and Ÿ); every other character is kept. */
  function LowerChar(c: char): (r: char)
    ensures IsSpace(r) <==> IsSpace(c)
  {
    if ('A' <= c <= 'Z') || ('\U{C0}' <= c <= '\U{DE}' && c != '\U{D7}') then (c as int + 32) as char
    else if c == '\U{152}' then '\U{153}'
    else if c == '\U{178}' then '\U{FF}'
    else c
  }

  /** Every character of `s` is already in lower case. */
  predicate IsLower(s: string)
  {
    forall k :: 0 <= k < |s| ==> LowerChar(s[k]) == s[k]
  }

  /** `s.lower()`. */
  function Lower(s: string): (r: string)
    ensures |r| == |s|
    ensures IsLower(r)
    ensures forall k :: 0 <= k < |s| ==> (IsSpace(r[k]) <==> IsSpace(s[k]))
    ensures forall k :: 0 <= k < |s| && LowerChar(s[k]) == s[k] ==> r[k] == s[k]
  {
    seq(|s|, k requires 0 <= k < |s| => LowerChar(s[k]))
  }

  /** Lower-casing a slice is slicing the lower-cased string. */
  lemma LowerSlice(s: string, i: nat, j: nat)
    requires i <= j <= |s|
    ensures Lower(s[i..j]) == Lower(s)[i..j]
  {
  }

  /** Lower-casing keeps a stripped slice stripped, at the same offset. */
  lemma LowerKeepsStripped(s: string, r: string, i: nat)
    requires IsStripped(s, r, i)
    ensures IsStripped(Lower(s), Lower(r), i)
  {
    var ls := Lower(s);
    LowerSlice(s, i, i + |r|);
    LowerSlice(s, 0, i);
    LowerSlice(s, i + |r|, |s|);
    assert ls[..i] == ls[0..i];
    assert s[..i] == s[0..i];
    assert ls[i + |r|..] == ls[i + |r|..|s|];
    assert s[i + |r|..] == s[i + |r|..|s|];
  }

  /** `strip()` then `lower()` equals `lower()` then `strip()`: lower-casing never changes
      whether a character is whitespace. */
  lemma StripLowerCommute(s: string)
    ensures Lower(Strip(s)) == Strip(Lower(s))
  {
    var r := Strip(s);
    var i :| IsStripped(s, r, i);
    LowerKeepsStripped(s, r, i);
    var r2 := Strip(Lower(s));
    var i2 :| IsStripped(Lower(s), r2, i2);
    StrippedUnique(Lower(s), Lower(r), i, r2, i2);
  }
}
