/** The few Python string operations the service relies on, over `string`
    (a sequence of Unicode scalar values). */
module Text {

  /** `c.isspace()`: the characters that `str.strip()` removes. */
  predicate IsSpace(c: char) {
    var n := c as int;
    n == 0x20 || 0x09 <= n <= 0x0D || 0x1C <= n <= 0x1F || n == 0x85 || n == 0xA0
    || n == 0x1680 || 0x2000 <= n <= 0x200A || n == 0x2028 || n == 0x2029
    || n == 0x202F || n == 0x205F || n == 0x3000
  }

  predicate AllSpace(s: string) {
    forall i :: 0 <= i < |s| ==> IsSpace(s[i])
  }

  /** `s.lstrip()` */
  function TrimStart(s: string): string {
    if |s| > 0 && IsSpace(s[0]) then TrimStart(s[1..]) else s
  }

  /** `s.rstrip()` */
  function TrimEnd(s: string): string {
    if |s| > 0 && IsSpace(s[|s| - 1]) then TrimEnd(s[..|s| - 1]) else s
  }

  /** `lstrip` drops a whitespace prefix, and exactly all of it. */
  lemma {:induction false} TrimStartMeaning(s: string)
    ensures |TrimStart(s)| <= |s| && TrimStart(s) == s[|s| - |TrimStart(s)|..]
    ensures AllSpace(s[..|s| - |TrimStart(s)|])
    ensures TrimStart(s) != [] ==> !IsSpace(TrimStart(s)[0])
  {
    if |s| > 0 && IsSpace(s[0]) {
      TrimStartMeaning(s[1..]);
      var r := TrimStart(s[1..]);
      assert s[1..][|s| - 1 - |r|..] == s[|s| - |r|..];
      assert s[..|s| - |r|] == [s[0]] + s[1..][..|s| - 1 - |r|];
    }
  }

  /** `rstrip` drops a whitespace suffix, and exactly all of it. */
  lemma {:induction false} TrimEndMeaning(s: string)
    ensures |TrimEnd(s)| <= |s| && TrimEnd(s) == s[..|TrimEnd(s)|]
    ensures AllSpace(s[|TrimEnd(s)|..])
    ensures TrimEnd(s) != [] ==> !IsSpace(TrimEnd(s)[|TrimEnd(s)| - 1])
  {
    if |s| > 0 && IsSpace(s[|s| - 1]) {
      var p := s[..|s| - 1];
      TrimEndMeaning(p);
      var r := TrimEnd(p);
      assert p[..|r|] == s[..|r|];
      assert s[|r|..] == p[|r|..] + [s[|s| - 1]];
    }
  }

  /** `s.strip()` */
  function Strip(s: string): string {
    TrimEnd(TrimStart(s))
  }

  /** `s.strip()` is a slice of `s` obtained by dropping whitespace only. */
  lemma StripSlice(s: string)
    ensures |Strip(s)| <= |TrimStart(s)| <= |s|
    ensures Strip(s) == s[|s| - |TrimStart(s)|..|s| - |TrimStart(s)| + |Strip(s)|]
    ensures AllSpace(s[..|s| - |TrimStart(s)|])
    ensures AllSpace(s[|s| - |TrimStart(s)| + |Strip(s)|..])
  {
    var t := TrimStart(s);
    TrimStartMeaning(s);
    TrimEndMeaning(t);
    TrimmedSlice(s, |s| - |t|, t, TrimEnd(t));
  }

  /** `s.strip()` neither starts nor ends with whitespace, and it is empty
      exactly when `s` is all whitespace: it is the longest such slice. */
  lemma StripEnds(s: string)
    ensures Strip(s) != [] ==> !IsSpace(Strip(s)[0]) && !IsSpace(Strip(s)[|Strip(s)| - 1])
    ensures Strip(s) == [] <==> AllSpace(s)
  {
    var t := TrimStart(s);
    var r := TrimEnd(t);
    assert Strip(s) == r;
    TrimStartMeaning(s);
    TrimEndMeaning(t);
    TrimmedSlice(s, |s| - |t|, t, r);
    if r != [] {
      assert r[0] == t[0];
    }
  }

  /** A slice of a slice, with only whitespace cut off on either side. */
  lemma TrimmedSlice(s: string, i: nat, t: string, r: string)
    requires i <= |s| && t == s[i..] && AllSpace(s[..i])
    requires |r| <= |t| && r == t[..|r|] && AllSpace(t[|r|..])
    requires r != [] ==> !IsSpace(r[0])
    ensures i <= |s| - |r| && r == s[i..i + |r|] && AllSpace(s[i + |r|..])
    ensures r == [] <==> AllSpace(s)
  {
    assert s[i + |r|..] == t[|r|..];
    if r == [] {
      AllSpaceConcat(s[..i], t);
      assert s == s[..i] + t;
    } else {
      assert s[i] == r[0];
    }
  }

  lemma AllSpaceConcat(a: string, b: string)
    requires AllSpace(a) && AllSpace(b)
    ensures AllSpace(a + b)
  {
    forall k | 0 <= k < |a + b| ensures IsSpace((a + b)[k]) {
      if k < |a| { assert (a + b)[k] == a[k]; } else { assert (a + b)[k] == b[k - |a|]; }
    }
  }

  function LowerChar(c: char): (d: char)
  {
    if 'A' <= c <= 'Z' then (c as int + 32) as char else c
  }

  /** `s.lower()` restricted to ASCII letters. */
  function Lower(s: string): (r: string)
    ensures |r| == |s|
    ensures forall i :: 0 <= i < |s| ==> r[i] == LowerChar(s[i])
  {
    if s == [] then [] else [LowerChar(s[0])] + Lower(s[1..])
  }

  predicate StartsWith(s: string, p: string) {
    |p| <= |s| && s[..|p|] == p
  }

  predicate EndsWith(s: string, p: string) {
    |p| <= |s| && s[|s| - |p|..] == p
  }

  predicate OccursAt(s: string, p: string, i: int) {
    0 <= i <= |s| - |p| && s[i..i + |p|] == p
  }

  /** Python's `p in s`, searched left to right. */
  predicate Contains(s: string, p: string)
    decreases |s|
  {
    StartsWith(s, p) || (|s| > 0 && Contains(s[1..], p))
  }

  /** `p in s` holds exactly when `p` occurs at some position of `s`. */
  lemma {:induction false} ContainsIff(s: string, p: string)
    ensures Contains(s, p) <==> exists i :: OccursAt(s, p, i)
    decreases |s|
  {
    if StartsWith(s, p) {
      assert OccursAt(s, p, 0);
    }
    if |s| > 0 {
      ContainsIff(s[1..], p);
      if Contains(s[1..], p) {
        var i :| OccursAt(s[1..], p, i);
        assert s[i + 1..i + 1 + |p|] == s[1..][i..i + |p|];
        assert OccursAt(s, p, i + 1);
      }
      if exists i :: OccursAt(s, p, i) {
        var i :| OccursAt(s, p, i);
        if i > 0 {
          assert s[1..][i - 1..i - 1 + |p|] == s[i..i + |p|];
          assert OccursAt(s[1..], p, i - 1);
        }
      }
    } else if exists i :: OccursAt(s, p, i) {
      var i :| OccursAt(s, p, i);
      assert i == 0 && StartsWith(s, p);
    }
  }

  /** Nothing non-empty occurs in the empty string. */
  lemma EmptyContainsNothing(p: string)
    requires p != []
    ensures !Contains([], p)
  {
  }

  /** `s.replace(p, "")` for a non-empty `p`: every non-overlapping occurrence,
      taken from the left, is removed. */
  function RemoveAll(s: string, p: string): (r: string)
    requires p != []
    ensures |r| <= |s|
    decreases |s|
  {
    if |s| < |p| then s
    else if s[..|p|] == p then RemoveAll(s[|p|..], p)
    else [s[0]] + RemoveAll(s[1..], p)
  }

  /** Without an occurrence of `p`, the removal changes nothing. */
  lemma {:induction false} RemoveAllAbsent(s: string, p: string)
    requires p != []
    ensures !Contains(s, p) ==> RemoveAll(s, p) == s
    decreases |s|
  {
    if |s| >= |p| && s[..|p|] != p {
      RemoveAllAbsent(s[1..], p);
    }
  }

  /** An occurrence needs room: `p in s` implies `len(p) <= len(s)`. */
  lemma {:induction false} ContainsNeedsRoom(s: string, p: string)
    ensures Contains(s, p) ==> |p| <= |s|
    decreases |s|
  {
    if |s| > 0 {
      ContainsNeedsRoom(s[1..], p);
    }
  }

  /** When `p` occurs, the removal shortens the string by at least `len(p)`. */
  lemma {:induction false} RemoveAllShrinks(s: string, p: string)
    requires p != []
    ensures Contains(s, p) ==> |RemoveAll(s, p)| <= |s| - |p|
    decreases |s|
  {
    ContainsNeedsRoom(s, p);
    if |s| >= |p| && s[..|p|] != p {
      RemoveAllShrinks(s[1..], p);
    }
  }

  /** Where `p` does not start the string, the first character is kept. */
  lemma RemoveAllKeeps(s: string, p: string)
    requires p != [] && 0 < |s| && !OccursAt(s, p, 0)
    ensures RemoveAll(s, p) == [s[0]] + RemoveAll(s[1..], p)
  {
  }

  /** Without an occurrence at `k`, the character there is kept. */
  lemma KeepOne(s: string, p: string, k: int)
    requires p != [] && 0 <= k < |s| && !OccursAt(s, p, k)
    ensures s[..k] + RemoveAll(s[k..], p) == s[..k + 1] + RemoveAll(s[k + 1..], p)
  {
    var u := s[k..];
    if |p| <= |u| {
      assert u[..|p|] == s[k..k + |p|];
    }
    RemoveAllKeeps(u, p);
    assert u[1..] == s[k + 1..];
    assert s[..k + 1] == s[..k] + [s[k]];
  }

  /** Without an occurrence before `k`, the first `k` characters are kept. */
  lemma {:induction false} KeptBefore(s: string, p: string, k: int)
    requires p != [] && 0 <= k <= |s|
    requires forall j :: 0 <= j < k ==> !OccursAt(s, p, j)
    ensures RemoveAll(s, p) == s[..k] + RemoveAll(s[k..], p)
    decreases k
  {
    if k == 0 {
      assert s[..0] == [] && s[0..] == s;
    } else {
      KeptBefore(s, p, k - 1);
      KeepOne(s, p, k - 1);
    }
  }

  /** The leftmost occurrence of `p` is removed, what precedes it is kept,
      and the removal goes on after it. */
  lemma RemoveAllLeftmost(s: string, p: string, i: int)
    requires p != [] && OccursAt(s, p, i)
    requires forall j :: 0 <= j < i ==> !OccursAt(s, p, j)
    ensures RemoveAll(s, p) == s[..i] + RemoveAll(s[i + |p|..], p)
  {
    KeptBefore(s, p, i);
    var u := s[i..];
    assert u[..|p|] == p;
    assert u[|p|..] == s[i + |p|..];
  }
}
