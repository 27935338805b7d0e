/** String helpers with the meaning of the Python `str` methods the
    ingestion code uses: case mapping, stripping, substring search,
    joining, replacement and the path/split suffixes. Case mapping covers
    ASCII letters only. */
module Text {

  /** Python's `str.isspace`, the set `strip()` removes and `\s` matches. */
  predicate IsSpace(c: char)
  {
    c == ' ' || ('\t' <= c <= '\r') || ('\U{1C}' <= c <= '\U{1F}')
    || c == '\U{85}' || c == '\U{A0}' || c == '\U{1680}'
    || ('\U{2000}' <= c <= '\U{200A}') || c == '\U{2028}' || c == '\U{2029}'
    || c == '\U{202F}' || c == '\U{205F}' || c == '\U{3000}'
  }

  predicate IsUpperLetter(c: char) { 'A' <= c <= 'Z' }
  predicate IsLowerLetter(c: char) { 'a' <= c <= 'z' }
  predicate IsLetter(c: char) { IsUpperLetter(c) || IsLowerLetter(c) }
  predicate IsDigit(c: char) { '0' <= c <= '9' }

  function UpperChar(c: char): (r: char)
    ensures !IsLowerLetter(r)
    ensures IsLowerLetter(c) || r == c
  {
    if IsLowerLetter(c) then (c as int - 32) as char else c
  }

  function LowerChar(c: char): (r: char)
    ensures !IsUpperLetter(r)
    ensures IsUpperLetter(c) || r == c
  {
    if IsUpperLetter(c) then (c as int + 32) as char else c
  }

  /** `s.upper()` */
  function Upper(s: string): (r: string)
    ensures |r| == |s|
    ensures forall i :: 0 <= i < |r| ==> r[i] == UpperChar(s[i])
  {
    seq(|s|, i requires 0 <= i < |s| => UpperChar(s[i]))
  }

  /** `s.lower()` */
  function Lower(s: string): (r: string)
    ensures |r| == |s|
    ensures forall i :: 0 <= i < |r| ==> r[i] == LowerChar(s[i])
  {
    seq(|s|, i requires 0 <= i < |s| => LowerChar(s[i]))
  }

  /** `s.title()`: a letter is upper-cased when the character before it is
      not a letter, and lower-cased when it is. */
  function Title(s: string): (r: string)
    ensures |r| == |s|
    ensures forall i :: 0 <= i < |s| && !IsLetter(s[i]) ==> r[i] == s[i]
    ensures forall i :: 0 <= i < |s| && IsLetter(s[i]) && (i == 0 || !IsLetter(s[i - 1]))
              ==> r[i] == UpperChar(s[i])
    ensures forall i :: 0 < i < |s| && IsLetter(s[i]) && IsLetter(s[i - 1])
              ==> r[i] == LowerChar(s[i])
  {
    seq(|s|, i requires 0 <= i < |s| =>
      if !IsLetter(s[i]) then s[i]
      else if i > 0 && IsLetter(s[i - 1]) then LowerChar(s[i])
      else UpperChar(s[i]))
  }

  /** `pat[k..]` occurs in `s` at offset `i + k`. Written character by
      character so that it unfolds on literal strings. */
  predicate MatchesFrom(s: string, pat: string, i: nat, k: nat)
    requires k <= |pat|
    decreases |pat| - k
  {
    k == |pat| || (i + k < |s| && s[i + k] == pat[k] && MatchesFrom(s, pat, i, k + 1))
  }

  /** `pat` occurs in `s` at offset `i`. */
  predicate OccursAt(s: string, pat: string, i: nat)
  {
    MatchesFrom(s, pat, i, 0)
  }

  lemma {:induction false} MatchesFromIff(s: string, pat: string, i: nat, k: nat)
    requires k <= |pat| && i + k <= |s|
    ensures MatchesFrom(s, pat, i, k) <==>
            i + |pat| <= |s| && s[i + k..i + |pat|] == pat[k..]
    decreases |pat| - k
  {
    if k < |pat| && i + k < |s| {
      MatchesFromIff(s, pat, i, k + 1);
      if i + |pat| <= |s| {
        assert s[i + k..i + |pat|] == [s[i + k]] + s[i + k + 1..i + |pat|];
        assert pat[k..] == [pat[k]] + pat[k + 1..];
      }
    }
  }

  /** `OccursAt` is the slice comparison it stands for. */
  lemma OccursAtIff(s: string, pat: string, i: nat)
    requires i <= |s|
    ensures OccursAt(s, pat, i) <==> i + |pat| <= |s| && s[i..i + |pat|] == pat
  {
    MatchesFromIff(s, pat, i, 0);
  }

  /** `s.startswith(prefix)` */
  predicate StartsWith(s: string, prefix: string)
  {
    OccursAt(s, prefix, 0)
  }

  /** `pat` occurs at some offset from `i` on. */
  predicate ContainsFrom(s: string, pat: string, i: nat)
    requires i <= |s|
    decreases |s| - i
  {
    OccursAt(s, pat, i) || (i < |s| && ContainsFrom(s, pat, i + 1))
  }

  /** Python's `pat in s`. */
  predicate Contains(s: string, pat: string)
  {
    ContainsFrom(s, pat, 0)
  }

  lemma {:induction false} ContainsFromIff(s: string, pat: string, i: nat)
    requires i <= |s|
    ensures ContainsFrom(s, pat, i) <==> exists j :: i <= j <= |s| && OccursAt(s, pat, j)
    decreases |s| - i
  {
    if i < |s| {
      ContainsFromIff(s, pat, i + 1);
    }
  }

  /** `pat in s` holds exactly when `pat` occurs at some offset of `s`. */
  lemma ContainsIff(s: string, pat: string)
    ensures Contains(s, pat) <==> exists j :: 0 <= j <= |s| && OccursAt(s, pat, j)
  {
    ContainsFromIff(s, pat, 0);
  }

  /** Every character of an occurring pattern is a character of `s`, so a
      pattern with a character `s` lacks does not occur in it. */
  lemma ContainsCharOf(s: string, pat: string, k: nat)
    requires Contains(s, pat) && k < |pat|
    ensures pat[k] in s
  {
    ContainsIff(s, pat);
    var i :| 0 <= i <= |s| && OccursAt(s, pat, i);
    OccursAtIff(s, pat, i);
    assert s[i + k] == s[i..i + |pat|][k];
  }

  /** A pattern occurring in a suffix of `s` occurs in `s`. */
  lemma ContainsSuffix(s: string, pat: string, i: nat)
    requires i <= |s| && Contains(s[i..], pat)
    ensures Contains(s, pat)
  {
    ContainsIff(s[i..], pat);
    var j :| 0 <= j <= |s[i..]| && OccursAt(s[i..], pat, j);
    OccursAtIff(s[i..], pat, j);
    OccursAtIff(s, pat, i + j);
    assert s[i + j..i + j + |pat|] == s[i..][j..j + |pat|];
    ContainsIff(s, pat);
  }

  /** First position from `i` on that holds no whitespace. */
  function FirstNonSpace(s: string, i: nat): (j: nat)
    requires i <= |s|
    ensures i <= j <= |s|
    decreases |s| - i
  {
    if i < |s| && IsSpace(s[i]) then FirstNonSpace(s, i + 1) else i
  }

  lemma {:induction false} FirstNonSpaceSpec(s: string, i: nat)
    requires i <= |s|
    ensures var j := FirstNonSpace(s, i);
            (forall k :: i <= k < j ==> IsSpace(s[k])) && (j < |s| ==> !IsSpace(s[j]))
    decreases |s| - i
  {
    if i < |s| && IsSpace(s[i]) {
      FirstNonSpaceSpec(s, i + 1);
    }
  }

  /** One past the last non-whitespace position from `i` on, or `end` if
      there is none. */
  function NonSpaceEnd(s: string, i: nat, end: nat): (e: nat)
    requires end <= i <= |s|
    ensures end <= e <= |s|
    decreases |s| - i
  {
    if i == |s| then end
    else NonSpaceEnd(s, i + 1, if IsSpace(s[i]) then end else i + 1)
  }

  lemma {:induction false} NonSpaceEndSpec(s: string, start: nat, i: nat, end: nat)
    requires start <= end <= i <= |s|
    requires end > start ==> !IsSpace(s[end - 1])
    requires forall k :: end <= k < i ==> IsSpace(s[k])
    ensures var e := NonSpaceEnd(s, i, end);
            start <= e && (e > start ==> !IsSpace(s[e - 1]))
            && (forall k :: e <= k < |s| ==> IsSpace(s[k]))
    decreases |s| - i
  {
    if i < |s| {
      NonSpaceEndSpec(s, start, i + 1, if IsSpace(s[i]) then end else i + 1);
    }
  }

  /** `s.strip()` */
  function Strip(s: string): string
  {
    var b := FirstNonSpace(s, 0);
    s[b..NonSpaceEnd(s, b, b)]
  }

  /** `Strip` keeps the middle part of `s` between two whitespace-only
      ends, and that part has no whitespace at either end. */
  lemma StripSpec(s: string)
    ensures exists b, e :: 0 <= b <= e <= |s| && Strip(s) == s[b..e]
              && (forall k :: 0 <= k < b ==> IsSpace(s[k]))
              && (forall k :: e <= k < |s| ==> IsSpace(s[k]))
    ensures var r := Strip(s); |r| > 0 ==> !IsSpace(r[0]) && !IsSpace(r[|r| - 1])
  {
    var b := FirstNonSpace(s, 0);
    FirstNonSpaceSpec(s, 0);
    NonSpaceEndSpec(s, b, b, b);
    var e := NonSpaceEnd(s, b, b);
    var r := s[b..e];
    if |r| > 0 {
      assert r[0] == s[b] && r[|r| - 1] == s[e - 1];
    }
  }

  /** `Strip` of a string whose non-whitespace part is exactly
      `s[b..e]`. */
  lemma StripAt(s: string, b: nat, e: nat)
    requires b < e <= |s|
    requires forall k :: 0 <= k < b ==> IsSpace(s[k])
    requires forall k :: e <= k < |s| ==> IsSpace(s[k])
    requires !IsSpace(s[b]) && !IsSpace(s[e - 1])
    ensures Strip(s) == s[b..e]
  {
    FirstNonSpaceSpec(s, 0);
    assert FirstNonSpace(s, 0) == b;
    NonSpaceEndSpec(s, b, b, b);
  }

  /** `sep.join(parts)` */
  function Join(parts: seq<string>, sep: string): string
  {
    if |parts| == 0 then ""
    else if |parts| == 1 then parts[0]
    else parts[0] + sep + Join(parts[1..], sep)
  }

  /** `s[i..].replace(pat, "")` for a non-empty pattern: occurrences are
      removed left to right and without overlapping. */
  function RemoveFrom(s: string, pat: string, i: nat): (r: string)
    requires i <= |s| && |pat| > 0
    ensures |r| <= |s| - i
    decreases |s| - i
  {
    if i == |s| then ""
    else if OccursAt(s, pat, i) && i + |pat| <= |s| then RemoveFrom(s, pat, i + |pat|)
    else [s[i]] + RemoveFrom(s, pat, i + 1)
  }

  /** `s.replace(pat, "")` */
  function RemoveAll(s: string, pat: string): (r: string)
    requires |pat| > 0
  {
    RemoveFrom(s, pat, 0)
  }

  /** No occurrence can start before the first character of the
      pattern, so that stretch is copied unchanged. */
  lemma {:induction false} RemoveFromSkip(s: string, pat: string, i: nat, j: nat)
    requires i <= j <= |s| && |pat| > 0 && pat[0] !in s[i..j]
    ensures RemoveFrom(s, pat, i) == s[i..j] + RemoveFrom(s, pat, j)
    decreases j - i
  {
    if i < j {
      assert s[i] == s[i..j][0];
      assert s[i + 1..j] == s[i..j][1..];
      RemoveFromSkip(s, pat, i + 1, j);
      assert s[i..j] == [s[i]] + s[i + 1..j];
    }
  }

  /** Where the pattern never occurs, nothing is removed. */
  lemma {:induction false} RemoveAbsent(s: string, pat: string, i: nat)
    requires i <= |s| && |pat| > 0 && !ContainsFrom(s, pat, i)
    ensures RemoveFrom(s, pat, i) == s[i..]
    decreases |s| - i
  {
    if i < |s| {
      RemoveAbsent(s, pat, i + 1);
    }
  }

  /** Removing every copy of one character leaves none behind and keeps
      every other character as often as it occurred (the order is kept
      too: see `RemoveCharConcat`). */
  lemma {:induction false} RemoveCharSpec(s: string, c: char, i: nat)
    requires i <= |s|
    ensures c !in RemoveFrom(s, [c], i)
    ensures forall d :: d != c ==> multiset(RemoveFrom(s, [c], i))[d] == multiset(s[i..])[d]
    decreases |s| - i
  {
    if i < |s| {
      RemoveCharSpec(s, c, i + 1);
      assert s[i..] == [s[i]] + s[i + 1..];
      OccursAtIff(s, [c], i);
      assert OccursAt(s, [c], i) <==> s[i] == c by {
        assert s[i..i + 1] == [s[i]];
      }
    }
  }

  /** Index of the last `sep` in `s`, scanning from `i` on with `last` the
      last one seen before `i` (-1 for none). */
  function LastIndexFrom(s: string, sep: char, i: nat, last: int): (r: int)
    requires i <= |s| && -1 <= last < i
    ensures -1 <= r < |s|
    decreases |s| - i
  {
    if i == |s| then last
    else LastIndexFrom(s, sep, i + 1, if s[i] == sep then i else last)
  }

  lemma {:induction false} LastIndexFromSpec(s: string, sep: char, i: nat, last: int)
    requires i <= |s| && -1 <= last < i
    requires last >= 0 ==> s[last] == sep
    requires forall k :: last < k < i ==> s[k] != sep
    ensures var r := LastIndexFrom(s, sep, i, last);
            (r >= 0 ==> s[r] == sep) && (forall k :: r < k < |s| ==> s[k] != sep)
    decreases |s| - i
  {
    if i < |s| {
      LastIndexFromSpec(s, sep, i + 1, if s[i] == sep then i else last);
    }
  }

  /** The suffix of `s` after the last `sep`, the whole of `s` when there is
      none: `s.split(sep)[-1]`, and `os.path.basename` for `sep == '/'`. */
  function AfterLast(s: string, sep: char): string
  {
    s[LastIndexFrom(s, sep, 0, -1) + 1..]
  }

  /** `AfterLast` is the longest suffix without `sep`. */
  lemma AfterLastSpec(s: string, sep: char)
    ensures var r := AfterLast(s, sep);
            |r| <= |s| && r == s[|s| - |r|..] && sep !in r
            && (|r| < |s| ==> s[|s| - |r| - 1] == sep)
  {
    LastIndexFromSpec(s, sep, 0, -1);
    var k := LastIndexFrom(s, sep, 0, -1);
    var r := s[k + 1..];
    forall j | 0 <= j < |r| ensures r[j] != sep {
      assert r[j] == s[k + 1 + j];
    }
  }

  /** The last part after the `sep` at position `k`, when no later
      character is `sep`. */
  lemma AfterLastAt(s: string, sep: char, k: nat)
    requires k < |s| && s[k] == sep && sep !in s[k + 1..]
    ensures AfterLast(s, sep) == s[k + 1..]
  {
    AfterLastSpec(s, sep);
  }

  /** A string without `sep` is its own last part. */
  lemma AfterLastAbsent(s: string, sep: char)
    requires sep !in s
    ensures AfterLast(s, sep) == s
  {
    AfterLastSpec(s, sep);
  }
  /** Occurrences survive concatenation on either side. */
  lemma ContainsInConcat(a: string, b: string, c: string, pat: string)
    requires Contains(b, pat)
    ensures Contains(a + b + c, pat)
  {
    ContainsIff(b, pat);
    var j :| 0 <= j <= |b| && OccursAt(b, pat, j);
    OccursAtIff(b, pat, j);
    var s := a + b + c;
    assert s[|a| + j..|a| + j + |pat|] == b[j..j + |pat|];
    OccursAtIff(s, pat, |a| + j);
    ContainsIff(s, pat);
  }

  /** Text containing a pattern contains every prefix of it. */
  lemma ContainsPrefix(s: string, pat: string, pre: string)
    requires Contains(s, pat) && |pre| <= |pat| && pat[..|pre|] == pre
    ensures Contains(s, pre)
  {
    ContainsIff(s, pat);
    var j :| 0 <= j <= |s| && OccursAt(s, pat, j);
    OccursAtIff(s, pat, j);
    assert s[j..j + |pre|] == s[j..j + |pat|][..|pre|];
    OccursAtIff(s, pre, j);
    ContainsIff(s, pre);
  }

  /** Case mapping works character by character, so it commutes with
      concatenation. */
  lemma LowerConcat(a: string, b: string)
    ensures Lower(a + b) == Lower(a) + Lower(b)
  {
    assert forall i :: 0 <= i < |a + b| ==> Lower(a + b)[i] == (Lower(a) + Lower(b))[i];
  }

  /** No position of `s` from `i` on holds `a` followed by `b`. Written
      as a recursion so that it unfolds on literal strings. */
  predicate NoPairFrom(s: string, a: char, b: char, i: nat)
    decreases |s| - i
  {
    i + 1 >= |s| || (!(s[i] == a && s[i + 1] == b) && NoPairFrom(s, a, b, i + 1))
  }

  lemma {:induction false} NoPairAt(s: string, a: char, b: char, i: nat, j: nat)
    requires NoPairFrom(s, a, b, i) && i <= j && j + 1 < |s|
    ensures !(s[j] == a && s[j + 1] == b)
    decreases j - i
  {
    if i < j {
      NoPairAt(s, a, b, i + 1, j);
    }
  }

  /** A pattern whose first two characters never appear side by side in
      `s` does not occur in `s`. */
  lemma PairAbsent(s: string, pat: string)
    requires |pat| >= 2 && NoPairFrom(s, pat[0], pat[1], 0)
    ensures !Contains(s, pat)
  {
    ContainsIff(s, pat);
    if Contains(s, pat) {
      var j :| 0 <= j <= |s| && OccursAt(s, pat, j);
      OccursAtIff(s, pat, j);
      assert s[j] == s[j..j + |pat|][0] && s[j + 1] == s[j..j + |pat|][1];
      NoPairAt(s, pat[0], pat[1], 0, j);
    }
  }

  /** A pattern with a character `s` lacks does not occur in `s`. */
  lemma CharAbsent(s: string, pat: string, k: nat)
    requires k < |pat| && pat[k] !in s
    ensures !Contains(s, pat)
  {
    if Contains(s, pat) {
      ContainsCharOf(s, pat, k);
    }
  }

  lemma OccursChar(s: string, c: char, i: nat)
    requires i < |s|
    ensures OccursAt(s, [c], i) <==> s[i] == c
  {
    assert MatchesFrom(s, [c], i, 1);
  }

  /** Removing a single character distributes over concatenation. */
  lemma {:induction false} RemoveCharConcat(a: string, b: string, c: char, i: nat)
    requires i <= |a|
    ensures RemoveFrom(a + b, [c], i) == RemoveFrom(a, [c], i) + RemoveFrom(b, [c], 0)
    decreases |a| - i
  {
    var s := a + b;
    if i < |a| {
      RemoveCharConcat(a, b, c, i + 1);
      OccursChar(s, c, i);
      OccursChar(a, c, i);
    } else {
      RemoveCharSuffix(a, b, c, 0);
    }
  }

  /** Removal from offset `|a| + j` of `a + b` is removal from offset `j`
      of `b`. */
  lemma {:induction false} RemoveCharSuffix(a: string, b: string, c: char, j: nat)
    requires j <= |b|
    ensures RemoveFrom(a + b, [c], |a| + j) == RemoveFrom(b, [c], j)
    decreases |b| - j
  {
    var s := a + b;
    if j < |b| {
      RemoveCharSuffix(a, b, c, j + 1);
      OccursChar(s, c, |a| + j);
      OccursChar(b, c, j);
    }
  }
}
