/** The handful of Python `str` operations the back ends rely on: `strip()`,
    `lower()`, `endswith()` and repeated `+=` concatenation. */
module PyStr {

  /** `c.isspace()`: the characters `str.strip()` with no argument removes
      (ASCII tab through carriage return, the four information separators,
      space, NEL, no-break space and the Unicode space separators). */
  predicate IsSpace(c: char) {
    || c == ' '
    || ('\t' <= c <= '\r')
    || ('\U{1C}' <= c <= '\U{1F}')
    || c == '\U{85}'
    || c == '\U{A0}'
    || c == '\U{1680}'
    || ('\U{2000}' <= c <= '\U{200A}')
    || c == '\U{2028}'
    || c == '\U{2029}'
    || c == '\U{202F}'
    || c == '\U{205F}'
    || c == '\U{3000}'
  }

  /** A string made of whitespace only; the empty string is blank. */
  predicate Blank(s: string) {
    forall i :: 0 <= i < |s| ==> IsSpace(s[i])
  }

  /** Where `s.lstrip()` cuts: the first index at or after `i` whose
      character is not whitespace, or `|s|` when there is none. */
  function SkipSpace(s: string, i: nat): (j: nat)
    requires i <= |s|
    ensures i <= j <= |s|
    ensures forall k :: i <= k < j ==> IsSpace(s[k])
    ensures j == |s| || !IsSpace(s[j])
    decreases |s| - i
  {
    if i < |s| && IsSpace(s[i]) then SkipSpace(s, i + 1) else i
  }

  /** Where `s.rstrip()` cuts within `s[lo..hi]`: the end once trailing
      whitespace is dropped, never before `lo`. */
  function SkipSpaceBack(s: string, lo: nat, hi: nat): (j: nat)
    requires lo <= hi <= |s|
    ensures lo <= j <= hi
    ensures forall k :: j <= k < hi ==> IsSpace(s[k])
    ensures j == lo || !IsSpace(s[j - 1])
    decreases hi
  {
    if lo < hi && IsSpace(s[hi - 1]) then SkipSpaceBack(s, lo, hi - 1) else hi
  }

  /** `r` is what `s.strip()` yields: a slice `s[lo..lo + |r|]` with only
      whitespace around it, and neither starting nor ending with whitespace. */
  ghost predicate StrippedOf(r: string, s: string) {
    exists lo :: StrippedAt(r, s, lo)
  }

  ghost predicate StrippedAt(r: string, s: string, lo: int) {
    && 0 <= lo && lo + |r| <= |s|
    && r == s[lo..lo + |r|]
    && Blank(s[..lo])
    && Blank(s[lo + |r|..])
    && (r == [] || (!IsSpace(r[0]) && !IsSpace(r[|r| - 1])))
  }

  /** `s.strip()`. */
  function Strip(s: string): (r: string)
    ensures StrippedOf(r, s)
  {
    var lo := SkipSpace(s, 0);
    var hi := SkipSpaceBack(s, lo, |s|);
    assert StrippedAt(s[lo..hi], s, lo) by {
      assert forall k :: 0 <= k < lo ==> s[..lo][k] == s[k];
      assert forall k :: 0 <= k < |s| - hi ==> s[hi..][k] == s[hi + k];
    }
    s[lo..hi]
  }

  /** At most one string is the strip of `s`, so `StrippedOf` pins down
      `Strip` completely. */
  lemma StrippedOfUnique(r1: string, r2: string, s: string)
    requires StrippedOf(r1, s) && StrippedOf(r2, s)
    ensures r1 == r2
  {
    var lo1 :| StrippedAt(r1, s, lo1);
    var lo2 :| StrippedAt(r2, s, lo2);
    if r1 == [] || r2 == [] {
      if r1 != [] {
        OnlyBlankAround(r2, s, lo2, lo1);
      } else if r2 != [] {
        OnlyBlankAround(r1, s, lo1, lo2);
      }
    } else {
      if lo1 < lo2 {
        assert false;
      } else if lo2 < lo1 {
        assert false;
      }
    }
  }

  /** When an empty strip sits at `lo`, every character of `s`, in particular
      the one at `k`, is whitespace. */
  lemma OnlyBlankAround(r: string, s: string, lo: int, k: int)
    requires StrippedAt(r, s, lo) && r == []
    requires 0 <= k < |s|
    ensures IsSpace(s[k])
  {
    if k < lo {
      assert s[..lo][k] == s[k];
    } else {
      assert s[lo..][k - lo] == s[k];
    }
  }

  /** `s.strip()` is empty exactly when `s` is blank: the condition under which
      both back ends give up on the text layer. */
  lemma StripEmptyIffBlank(s: string)
    ensures Strip(s) == [] <==> Blank(s)
  {
    var r := Strip(s);
    var lo :| StrippedAt(r, s, lo);
    if r == [] {
      forall k | 0 <= k < |s|
        ensures IsSpace(s[k])
      {
        OnlyBlankAround(r, s, lo, k);
      }
    } else {
      assert s[lo] == r[0];
    }
  }

  /** Stripping twice is stripping once. */
  lemma StripIdempotent(s: string)
    ensures Strip(Strip(s)) == Strip(s)
  {
    var r := Strip(s);
    var lo :| StrippedAt(r, s, lo);
    assert StrippedAt(r, r, 0) by {
      assert r[..0] == [] && r[|r|..] == [];
    }
    StrippedOfUnique(Strip(r), r, r);
  }

  /** `s.lower()` restricted to ASCII letters. */
  function Lower(s: string): (r: string)
    ensures |r| == |s|
    ensures forall i :: 0 <= i < |s| ==> r[i] == LowerChar(s[i])
  {
    seq(|s|, i requires 0 <= i < |s| => LowerChar(s[i]))
  }

  function LowerChar(c: char): char {
    if 'A' <= c <= 'Z' then (c as int - 'A' as int + 'a' as int) as char else c
  }

  /** `s.endswith(suffix)`. */
  predicate EndsWith(s: string, suffix: string) {
    |suffix| <= |s| && s[|s| - |suffix|..] == suffix
  }

  /** The result of `acc = ''` followed by `acc += part` for each part in
      turn. */
  function Concat(parts: seq<string>): string {
    if |parts| == 0 then "" else Concat(parts[..|parts| - 1]) + parts[|parts| - 1]
  }

  /** The concatenation is blank exactly when every part is. */
  lemma {:induction false} BlankConcat(parts: seq<string>)
    ensures Blank(Concat(parts)) <==> forall k :: 0 <= k < |parts| ==> Blank(parts[k])
  {
    if |parts| > 0 {
      var init := parts[..|parts| - 1];
      BlankConcat(init);
      BlankAppend(Concat(init), parts[|parts| - 1]);
      assert forall k :: 0 <= k < |init| ==> init[k] == parts[k];
    }
  }

  lemma BlankAppend(a: string, b: string)
    ensures Blank(a + b) <==> Blank(a) && Blank(b)
  {
    if Blank(a) && Blank(b) {
      forall i | 0 <= i < |a + b|
        ensures IsSpace((a + b)[i])
      {
        if i >= |a| {
          assert (a + b)[i] == b[i - |a|];
        }
      }
    }
    if Blank(a + b) {
      forall i | 0 <= i < |a|
        ensures IsSpace(a[i])
      {
        assert (a + b)[i] == a[i];
      }
      forall i | 0 <= i < |b|
        ensures IsSpace(b[i])
      {
        assert (a + b)[|a| + i] == b[i];
      }
    }
  }
}
