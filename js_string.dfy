/**
 * The JavaScript string operations the controllers rely on: `trim`,
 * `toLowerCase`, `startsWith`, `includes` and `length`.
 */
module JsString {

  /** JavaScript's WhiteSpace and LineTerminator characters, the ones `trim` removes. */
  predicate IsSpace(c: char) {
    || c == ' ' || c == '\t' || c == '\n' || c == '\r'
    || c == '\U{000B}' || c == '\U{000C}' || c == '\U{00A0}' || c == '\U{1680}'
    || ('\U{2000}' <= c <= '\U{200A}')
    || c == '\U{2028}' || c == '\U{2029}' || c == '\U{202F}' || c == '\U{205F}'
    || c == '\U{3000}' || c == '\U{FEFF}'
  }

  /** Drops the leading white space: what remains is a suffix of `s` that does not start with a space. */
  function TrimStart(s: string): (r: string)
    ensures |r| <= |s| && r == s[|s| - |r|..]
    ensures forall k :: 0 <= k < |s| - |r| ==> IsSpace(s[k])
    ensures r != [] ==> !IsSpace(r[0])
    decreases |s|
  {
    if |s| > 0 && IsSpace(s[0]) then TrimStart(s[1..]) else s
  }

  /** Drops the trailing white space: what remains is a prefix of `s` that does not end with a space. */
  function TrimEnd(s: string): (r: string)
    ensures |r| <= |s| && r == s[..|r|]
    ensures forall k :: |r| <= k < |s| ==> IsSpace(s[k])
    ensures r != [] ==> !IsSpace(r[|r| - 1])
    decreases |s|
  {
    if |s| > 0 && IsSpace(s[|s| - 1]) then TrimEnd(s[..|s| - 1]) else s
  }

  predicate NoOuterSpace(s: string) {
    s == [] || (!IsSpace(s[0]) && !IsSpace(s[|s| - 1]))
  }

  /** `String.prototype.trim`: no white space is left at either end, and nothing is added. */
  function Trim(s: string): (r: string)
    ensures NoOuterSpace(r) && |r| <= |s|
  {
    var a := TrimStart(s);
    var r := TrimEnd(a);
    assert r != [] ==> r[0] == a[0];
    r
  }

  lemma TrimStartKeeps(s: string)
    requires s == [] || !IsSpace(s[0])
    ensures TrimStart(s) == s
  {
  }

  lemma TrimEndKeeps(s: string)
    requires s == [] || !IsSpace(s[|s| - 1])
    ensures TrimEnd(s) == s
  {
  }

  /** The trimmed string is a contiguous part of `s`, starting after its leading white space. */
  lemma TrimSpec(s: string)
    ensures forall k :: |s| - |TrimStart(s)| + |Trim(s)| <= k < |s| ==> IsSpace(s[k])
    ensures OccursAt(s, Trim(s), |s| - |TrimStart(s)|)
    ensures Includes(s, Trim(s))
  {
    var a := TrimStart(s);
    assert Trim(s) == TrimEnd(a);
    PrefixOfSuffix(s, a, TrimEnd(a));
    TrimFollowedBySpace(s);
  }

  /** A prefix `r` of a suffix `a` of `s` occurs in `s` where `a` starts. */
  lemma PrefixOfSuffix(s: string, a: string, r: string)
    requires |a| <= |s| && a == s[|s| - |a|..] && |r| <= |a| && r == a[..|r|]
    ensures OccursAt(s, r, |s| - |a|)
  {
    var i := |s| - |a|;
    assert s[i..i + |r|] == s[i..][..|r|];
  }

  /** Only white space follows the trimmed part. */
  lemma TrimFollowedBySpace(s: string)
    ensures forall k :: |s| - |TrimStart(s)| + |Trim(s)| <= k < |s| ==> IsSpace(s[k])
  {
    var a := TrimStart(s);
    assert Trim(s) == TrimEnd(a);
    SuffixSpaces(s, a, TrimEnd(a));
  }

  /** White space after position `n` of a suffix `a` of `s` is white space of `s`, shifted by where `a` starts. */
  lemma SuffixSpaces(s: string, a: string, r: string)
    requires |a| <= |s| && a == s[|s| - |a|..] && |r| <= |a|
    requires forall k :: |r| <= k < |a| ==> IsSpace(a[k])
    ensures forall k :: |s| - |a| + |r| <= k < |s| ==> IsSpace(s[k])
  {
    forall k | |s| - |a| + |r| <= k < |s| ensures IsSpace(s[k]) {
      assert a[k - (|s| - |a|)] == s[k];
    }
  }

  /** Trimming twice is trimming once. */
  lemma TrimIdempotent(s: string)
    ensures Trim(Trim(s)) == Trim(s)
  {
    var t := Trim(s);
    TrimSpec(s);
    TrimStartKeeps(t);
    TrimEndKeeps(t);
  }

  /** `toLowerCase` on one character (ASCII letters only). */
  function LowerChar(c: char): (d: char)
    ensures 'A' <= c <= 'Z' ==> d as int == c as int + 32
    ensures !('A' <= c <= 'Z') ==> d == c
  {
    if 'A' <= c <= 'Z' then (c as int - 'A' as int + 'a' as int) as char else c
  }

  /** `String.prototype.toLowerCase`, character by character. */
  function Lower(s: string): (r: string)
    ensures |r| == |s|
    ensures forall k :: 0 <= k < |s| ==> r[k] == LowerChar(s[k])
  {
    seq(|s|, k requires 0 <= k < |s| => LowerChar(s[k]))
  }

  /** A string is in canonical lower case when lower-casing leaves it as is. */
  predicate IsLower(s: string) {
    forall k :: 0 <= k < |s| ==> !('A' <= s[k] <= 'Z')
  }

  lemma LowerIsLower(s: string)
    ensures IsLower(Lower(s))
    ensures Lower(Lower(s)) == Lower(s)
  {
  }

  lemma LowerSlice(s: string, i: nat, j: nat)
    requires i <= j <= |s|
    ensures Lower(s[i..j]) == Lower(s)[i..j]
  {
  }

  /** Lower-casing never creates or removes white space. */
  lemma LowerCharSpace(c: char)
    ensures IsSpace(LowerChar(c)) == IsSpace(c)
  {
  }

  lemma TrimStartLower(s: string)
    ensures TrimStart(Lower(s)) == Lower(TrimStart(s))
  {
    var r := TrimStart(s);
    var l := Lower(s);
    var i := |s| - |r|;
    LowerSlice(s, i, |s|);
    assert Lower(r) == l[i..];
    forall k | 0 <= k < i ensures IsSpace(l[k]) {
      LowerCharSpace(s[k]);
    }
    if r != [] {
      LowerCharSpace(r[0]);
    }
    TrimStartUnique(l, Lower(r));
  }

  /** `TrimStart(t)` is the one suffix of `t` that is preceded only by white space and does not start with it. */
  lemma {:induction false} TrimStartUnique(t: string, r: string)
    requires |r| <= |t| && r == t[|t| - |r|..]
    requires forall k :: 0 <= k < |t| - |r| ==> IsSpace(t[k])
    requires r == [] || !IsSpace(r[0])
    ensures TrimStart(t) == r
    decreases |t|
  {
    if |t| > 0 && |r| < |t| {
      assert t[1..][|t| - 1 - |r|..] == r;
      TrimStartUnique(t[1..], r);
    }
  }

  lemma TrimEndLower(s: string)
    ensures TrimEnd(Lower(s)) == Lower(TrimEnd(s))
  {
    var r := TrimEnd(s);
    var l := Lower(s);
    LowerSlice(s, 0, |r|);
    assert Lower(r) == l[..|r|];
    forall k | |r| <= k < |l| ensures IsSpace(l[k]) {
      LowerCharSpace(s[k]);
    }
    if r != [] {
      LowerCharSpace(r[|r| - 1]);
    }
    TrimEndUnique(l, Lower(r));
  }

  /** `TrimEnd(t)` is the one prefix of `t` that is followed only by white space and does not end with it. */
  lemma {:induction false} TrimEndUnique(t: string, r: string)
    requires |r| <= |t| && r == t[..|r|]
    requires forall k :: |r| <= k < |t| ==> IsSpace(t[k])
    requires r == [] || !IsSpace(r[|r| - 1])
    ensures TrimEnd(t) == r
    decreases |t|
  {
    if |t| > 0 {
      var n := |t| - 1;
      if IsSpace(t[n]) {
        if |r| == |t| {
          assert r[n] == t[n];
        } else {
          assert t[..n][..|r|] == r;
          TrimEndUnique(t[..n], r);
        }
      } else {
        assert |r| == |t|;
      }
    }
  }

  /** `s.toLowerCase().trim()` is `s.trim().toLowerCase()`. */
  lemma TrimLowerCommute(s: string)
    ensures Trim(Lower(s)) == Lower(Trim(s))
  {
    TrimStartLower(s);
    TrimEndLower(TrimStart(s));
  }

  /** `sub` occurs in `s` starting at position `i`. */
  predicate OccursAt(s: string, sub: string, i: int) {
    0 <= i <= |s| - |sub| && s[i..i + |sub|] == sub
  }

  /** `s.includes(sub)`: the empty string is in every string, and nothing longer than `s` is. */
  predicate Includes(s: string, sub: string)
    ensures sub == [] ==> Includes(s, sub)
    ensures Includes(s, sub) ==> |sub| <= |s|
  {
    assert sub == [] ==> OccursAt(s, sub, 0);
    exists i :: 0 <= i <= |s| - |sub| && OccursAt(s, sub, i)
  }

  /** `s.startsWith(p)`: `p` occurs at the very start of `s`, so `s` also includes it. */
  predicate StartsWith(s: string, p: string)
    ensures StartsWith(s, p) <==> OccursAt(s, p, 0)
    ensures StartsWith(s, p) ==> Includes(s, p)
  {
    |p| <= |s| && s[..|p|] == p
  }

  /** `s.length`: JavaScript counts UTF-16 code units, two for a character beyond the basic plane. */
  function Utf16Length(s: string): (n: nat)
    ensures |s| <= n <= 2 * |s|
    ensures (forall k :: 0 <= k < |s| ==> s[k] as int < 0x1_0000) ==> n == |s|
  {
    if s == [] then 0 else (if s[0] as int < 0x1_0000 then 1 else 2) + Utf16Length(s[1..])
  }
}
