/** The Python `str` operations the source relies on: `<`, `split` and `replace`. */
module Strings {
  import opened Decimal

  /** Python's `a < b` on `str`: by code point, first difference decides, a proper prefix is smaller. */
  predicate LexLess(a: string, b: string)
    decreases |a|
  {
    if |a| == 0 then |b| > 0
    else if |b| == 0 then false
    else if a[0] != b[0] then a[0] < b[0]
    else LexLess(a[1..], b[1..])
  }

  /** `<` on strings is a strict total order. */
  lemma {:induction false} LexLessIrreflexive(a: string)
    ensures !LexLess(a, a)
  {
    if |a| > 0 { LexLessIrreflexive(a[1..]); }
  }

  lemma {:induction false} LexLessTotal(a: string, b: string)
    ensures a == b || LexLess(a, b) || LexLess(b, a)
    decreases |a|
  {
    if |a| > 0 && |b| > 0 && a[0] == b[0] {
      LexLessTotal(a[1..], b[1..]);
      if a[1..] == b[1..] { assert a == [a[0]] + a[1..] && b == [b[0]] + b[1..]; }
    }
  }

  lemma {:induction false} LexLessAsymmetric(a: string, b: string)
    requires LexLess(a, b)
    ensures !LexLess(b, a)
    decreases |a|
  {
    if |a| > 0 && a[0] == b[0] { LexLessAsymmetric(a[1..], b[1..]); }
  }

  lemma {:induction false} LexLessTransitive(a: string, b: string, c: string)
    requires LexLess(a, b) && LexLess(b, c)
    ensures LexLess(a, c)
    decreases |a|
  {
    if |a| > 0 && a[0] == b[0] && b[0] == c[0] {
      LexLessTransitive(a[1..], b[1..], c[1..]);
    }
  }

  /** A shared prefix does not influence the comparison. */
  lemma {:induction false} LexLessCommonPrefix(p: string, a: string, b: string)
    ensures LexLess(p + a, p + b) <==> LexLess(a, b)
  {
    if |p| > 0 {
      assert (p + a)[1..] == p[1..] + a && (p + b)[1..] == p[1..] + b;
      LexLessCommonPrefix(p[1..], a, b);
    } else {
      assert p + a == a && p + b == b;
    }
  }

  lemma LeadingDigitDecides(da: nat, ra: nat, db: nat, rb: nat, p: nat)
    requires da < db && ra < p && rb < p
    ensures da * p + ra < db * p + rb
  {
    assert (da + 1) * p <= db * p;
  }

  /** For digit strings of one length, string order is numeric order. */
  lemma {:induction false} LexLessDigits(a: string, b: string)
    requires AllDigits(a) && AllDigits(b) && |a| == |b|
    ensures LexLess(a, b) <==> DigitsValue(a) < DigitsValue(b)
  {
    if |a| > 0 {
      var p := Pow10(|a| - 1);
      var da, db, ra, rb := DigitValue(a[0]), DigitValue(b[0]), DigitsValue(a[1..]), DigitsValue(b[1..]);
      assert DigitsValue(a) == da * p + ra && DigitsValue(b) == db * p + rb;
      if a[0] == b[0] {
        LexLessDigits(a[1..], b[1..]);
      } else if a[0] < b[0] {
        LeadingDigitDecides(da, ra, db, rb, p);
      } else {
        LeadingDigitDecides(db, rb, da, ra, p);
      }
    }
  }

  /** `sep.join(parts)` in Python. */
  function Join(parts: seq<string>, sep: char): string
    requires |parts| >= 1
  {
    if |parts| == 1 then parts[0] else parts[0] + [sep] + Join(parts[1..], sep)
  }

  /** Python's `s.split(sep)` for a one-character separator: the pieces between separators. */
  function Split(s: string, sep: char): (parts: seq<string>)
    ensures |parts| >= 1
    ensures Join(parts, sep) == s
    ensures forall i :: 0 <= i < |parts| ==> sep !in parts[i]
  {
    if |s| == 0 then [""]
    else
      var rest := Split(s[1..], sep);
      if s[0] == sep then
        assert s == [sep] + s[1..];
        [""] + rest
      else
        var parts := [[s[0]] + rest[0]] + rest[1..];
        assert parts[1..] == rest[1..];
        assert s == [s[0]] + s[1..];
        assert forall i :: 1 <= i < |parts| ==> parts[i] == rest[i];
        parts
  }

  lemma {:induction false} SplitPlain(a: string, sep: char)
    requires sep !in a
    ensures Split(a, sep) == [a]
  {
    if |a| > 0 {
      assert sep !in a[1..];
      SplitPlain(a[1..], sep);
      assert a == [a[0]] + a[1..];
    }
  }

  lemma {:induction false} SplitAtFirst(a: string, sep: char, b: string)
    requires sep !in a
    ensures Split(a + [sep] + b, sep) == [a] + Split(b, sep)
  {
    var s := a + [sep] + b;
    if |a| == 0 {
      assert s == [sep] + b && s[1..] == b;
    } else {
      assert s[0] == a[0] && s[1..] == a[1..] + [sep] + b;
      assert sep !in a[1..];
      SplitAtFirst(a[1..], sep, b);
      assert a == [a[0]] + a[1..];
    }
  }

  /** `split` undoes `join` when no piece contains the separator. */
  lemma {:induction false} SplitJoin(parts: seq<string>, sep: char)
    requires |parts| >= 1
    requires forall i :: 0 <= i < |parts| ==> sep !in parts[i]
    ensures Split(Join(parts, sep), sep) == parts
  {
    if |parts| == 1 {
      SplitPlain(parts[0], sep);
    } else {
      SplitJoin(parts[1..], sep);
      SplitAtFirst(parts[0], sep, Join(parts[1..], sep));
      assert parts == [parts[0]] + parts[1..];
    }
  }

  predicate MatchesAt(s: string, i: nat, pat: string) {
    i + |pat| <= |s| && s[i..i + |pat|] == pat
  }

  /** Python's `s.replace(pat, rep)`: every non-overlapping occurrence, scanning left to right. */
  function Replace(s: string, pat: string, rep: string): (r: string)
    requires |pat| > 0
    ensures |rep| == |pat| ==> |r| == |s|
    ensures |rep| < |pat| ==> |r| <= |s|
  {
    if MatchesAt(s, 0, pat) then rep + Replace(s[|pat|..], pat, rep)
    else if |s| == 0 then ""
    else [s[0]] + Replace(s[1..], pat, rep)
  }

  /** The scan copies a prefix at no position of which the pattern starts. */
  lemma {:induction false} ReplaceSkips(s: string, k: nat, pat: string, rep: string)
    requires |pat| > 0 && k <= |s|
    requires forall i :: 0 <= i < k ==> !MatchesAt(s, i, pat)
    ensures Replace(s, pat, rep) == s[..k] + Replace(s[k..], pat, rep)
  {
    if k > 0 {
      var t := s[1..];
      assert !MatchesAt(s, 0, pat);
      assert Replace(s, pat, rep) == [s[0]] + Replace(t, pat, rep);
      forall i | 0 <= i < k - 1 ensures !MatchesAt(t, i, pat) {
        assert !MatchesAt(s, i + 1, pat);
        if i + |pat| <= |t| {
          assert t[i..i + |pat|] == s[i + 1..i + 1 + |pat|];
        }
      }
      ReplaceSkips(t, k - 1, pat, rep);
      assert t[k - 1..] == s[k..];
      assert s[..k] == [s[0]] + t[..k - 1];
    }
  }

  /** Without any occurrence, `replace` changes nothing. */
  lemma NoMatchReplace(s: string, pat: string, rep: string)
    requires |pat| > 0
    requires forall i :: 0 <= i <= |s| ==> !MatchesAt(s, i, pat)
    ensures Replace(s, pat, rep) == s
  {
    ReplaceSkips(s, |s|, pat, rep);
    assert !MatchesAt(s[|s|..], 0, pat);
  }

  /** A pattern ending in `last` can only match where `last` occurs. */
  lemma NoMatchWithoutLast(s: string, pat: string)
    requires |pat| > 0 && pat[|pat| - 1] !in s
    ensures forall i :: 0 <= i <= |s| ==> !MatchesAt(s, i, pat)
  {
    forall i | 0 <= i <= |s| ensures !MatchesAt(s, i, pat) {
      if i + |pat| <= |s| {
        assert s[i..i + |pat|][|pat| - 1] == s[i + |pat| - 1];
        assert s[i + |pat| - 1] in s;
      }
    }
  }

  /** No match of the pattern starts before its occurrence when its last character occurs only there. */
  lemma NoMatchBeforePattern(a: string, pat: string, b: string, i: nat)
    requires |pat| > 0 && i < |a|
    requires pat[|pat| - 1] !in a && pat[|pat| - 1] !in pat[..|pat| - 1]
    ensures !MatchesAt(a + pat + b, i, pat)
  {
    var t := a + pat + b;
    var j := i + |pat| - 1;
    if j < |a| {
      assert t[j] == a[j] && a[j] in a;
    } else {
      assert t[j] == pat[..|pat| - 1][j - |a|];
      assert pat[..|pat| - 1][j - |a|] in pat[..|pat| - 1];
    }
    assert t[i..i + |pat|][|pat| - 1] == t[j];
  }

  /** With the pattern's last character occurring once, right where the pattern sits, `replace`
      rewrites that one occurrence. */
  lemma ReplaceSingle(a: string, pat: string, b: string, rep: string)
    requires |pat| > 0
    requires pat[|pat| - 1] !in a && pat[|pat| - 1] !in b && pat[|pat| - 1] !in pat[..|pat| - 1]
    ensures Replace(a + pat + b, pat, rep) == a + rep + b
  {
    var t := a + pat + b;
    forall i | 0 <= i < |a| ensures !MatchesAt(t, i, pat) {
      NoMatchBeforePattern(a, pat, b, i);
    }
    ReplaceSkips(t, |a|, pat, rep);
    assert t[..|a|] == a && t[|a|..] == pat + b;
    ReplaceAtStart(pat, b, rep);
  }

  /** Text that starts with the pattern, with its last character nowhere after it, is rewritten once. */
  lemma ReplaceAtStart(pat: string, b: string, rep: string)
    requires |pat| > 0 && pat[|pat| - 1] !in b
    ensures Replace(pat + b, pat, rep) == rep + b
  {
    assert (pat + b)[..|pat|] == pat && (pat + b)[|pat|..] == b;
    assert MatchesAt(pat + b, 0, pat);
    NoMatchWithoutLast(b, pat);
    NoMatchReplace(b, pat, rep);
  }

  /** A longer word ending in the pattern's last character, with a different ending, hides no match. */
  lemma ReplaceNone(a: string, m: string, b: string, pat: string, rep: string)
    requires 0 < |pat| <= |m| && m[|m| - 1] == pat[|pat| - 1]
    requires pat[|pat| - 1] !in a && pat[|pat| - 1] !in b && pat[|pat| - 1] !in m[..|m| - 1]
    requires m[|m| - |pat|..] != pat
    ensures Replace(a + m + b, pat, rep) == a + m + b
  {
    var t := a + m + b;
    forall i | 0 <= i <= |t| ensures !MatchesAt(t, i, pat) {
      if i + |pat| <= |t| {
        var j := i + |pat| - 1;
        assert t[i..i + |pat|][|pat| - 1] == t[j];
        if j < |a| {
          assert t[j] == a[j] && a[j] in a;
        } else if j < |a| + |m| - 1 {
          assert t[j] == m[..|m| - 1][j - |a|];
          assert m[..|m| - 1][j - |a|] in m[..|m| - 1];
        } else if j == |a| + |m| - 1 {
          assert t[i..i + |pat|] == m[|m| - |pat|..];
        } else {
          assert t[j] == b[j - |a| - |m|] && b[j - |a| - |m|] in b;
        }
      }
    }
    NoMatchReplace(t, pat, rep);
  }
}
