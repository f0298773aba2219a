/** Character and string helpers shared by the title normaliser and the
    request handler: ASCII case folding, Python's whitespace class, prefix,
    suffix and substring tests, and the first index of a character. */
module Strings {

  datatype Option<T> = None | Some(value: T)

  /** ASCII lower-casing, the case folding `re.IGNORECASE` applies to the
      letters of the fixed patterns. */
  function Lower(c: char): (l: char)
  {
    if 'A' <= c <= 'Z' then (c as int + 32) as char else c
  }

  /** The characters Python's `str.isspace` (and so `\s` and `str.strip()`)
      treats as whitespace. */
  predicate IsSpace(c: char)
  {
    c == ' ' || ('\t' <= c <= '\r') || ('\U{1C}' <= c <= '\U{1F}') ||
    c == '\U{85}' || c == '\U{A0}' || c == '\U{1680}' ||
    ('\U{2000}' <= c <= '\U{200A}') || c == '\U{2028}' || c == '\U{2029}' ||
    c == '\U{202F}' || c == '\U{205F}' || c == '\U{3000}'
  }

  predicate StartsWith(s: string, p: string)
  {
    |p| <= |s| && s[..|p|] == p
  }

  /** `s.endswith(p)`: case-sensitive suffix test. */
  predicate EndsWith(s: string, p: string)
  {
    |p| <= |s| && s[|s| - |p|..] == p
  }

  /** `s` begins with `p` when letters are compared ASCII-case-insensitively. */
  predicate StartsWithIgnoringCase(s: string, p: string)
    decreases |p|
  {
    p == [] || (s != [] && Lower(s[0]) == Lower(p[0]) && StartsWithIgnoringCase(s[1..], p[1..]))
  }

  /** Two strings that agree up to ASCII case. */
  predicate SameIgnoringCase(p: string, q: string)
  {
    |p| == |q| && forall i :: 0 <= i < |p| ==> Lower(p[i]) == Lower(q[i])
  }

  lemma {:induction false} StartsWithIgnoringCaseRespectsCase(s: string, p: string, q: string)
    requires SameIgnoringCase(p, q)
    ensures StartsWithIgnoringCase(s, p) == StartsWithIgnoringCase(s, q)
    decreases |p|
  {
    if p != [] && s != [] {
      assert SameIgnoringCase(p[1..], q[1..]) by {
        forall i | 0 <= i < |p[1..]| ensures Lower(p[1..][i]) == Lower(q[1..][i]) {
          assert p[1..][i] == p[i + 1];
        }
      }
      StartsWithIgnoringCaseRespectsCase(s[1..], p[1..], q[1..]);
    }
  }

  /** Python's `p in s`: case-sensitive substring test, by a scan. */
  function Contains(s: string, p: string): (b: bool)
    decreases |s|
  {
    StartsWith(s, p) || (s != [] && Contains(s[1..], p))
  }

  /** Case-insensitive substring test: the keyword anywhere in `s`. */
  function ContainsIgnoringCase(s: string, p: string): (b: bool)
    decreases |s|
  {
    StartsWithIgnoringCase(s, p) || (s != [] && ContainsIgnoringCase(s[1..], p))
  }

  /** `p` sits at position `i` of `s`. */
  ghost predicate OccursAt(s: string, p: string, i: int)
  {
    0 <= i && i + |p| <= |s| && s[i..i + |p|] == p
  }

  /** The scan `Contains` agrees with the textbook definition of a substring. */
  lemma {:induction false} ContainsIff(s: string, p: string)
    ensures Contains(s, p) <==> exists i :: OccursAt(s, p, i)
    decreases |s|
  {
    if StartsWith(s, p) {
      assert OccursAt(s, p, 0);
    } else if s == [] {
      assert forall i :: !OccursAt(s, p, i);
    } else {
      ContainsIff(s[1..], p);
      if exists i :: OccursAt(s, p, i) {
        var i :| OccursAt(s, p, i);
        assert i != 0;
        assert s[1..][i - 1..i - 1 + |p|] == s[i..i + |p|];
        assert OccursAt(s[1..], p, i - 1);
      }
      if exists i :: OccursAt(s[1..], p, i) {
        var i :| OccursAt(s[1..], p, i);
        assert s[1..][i..i + |p|] == s[i + 1..i + 1 + |p|];
        assert OccursAt(s, p, i + 1);
      }
    }
  }

  /** A string occurs in any string that extends it on the right. */
  lemma ContainsPrefixOf(s: string, t: string, p: string)
    requires Contains(s, p)
    ensures Contains(s + t, p)
  {
    ContainsIff(s, p);
    var i :| OccursAt(s, p, i);
    assert (s + t)[i..i + |p|] == s[i..i + |p|];
    assert OccursAt(s + t, p, i);
    ContainsIff(s + t, p);
  }

  /** Every string occurs in itself placed at the end of another string. */
  lemma ContainsSuffix(s: string, p: string)
    ensures Contains(s + p, p)
  {
    assert (s + p)[|s|..|s| + |p|] == p;
    assert OccursAt(s + p, p, |s|);
    ContainsIff(s + p, p);
  }

  /** A string found in a suffix of `s` is found in `s`. */
  lemma {:induction false} ContainsFromSuffix(s: string, j: nat, p: string)
    requires j <= |s| && Contains(s[j..], p)
    ensures Contains(s, p)
    decreases j
  {
    if j > 0 {
      assert s[1..][j - 1..] == s[j..];
      ContainsFromSuffix(s[1..], j - 1, p);
    }
  }

  /** A keyword found in a suffix of `s` is found in `s`. */
  lemma {:induction false} ContainsIgnoringCaseSuffix(s: string, j: nat, p: string)
    requires j <= |s| && ContainsIgnoringCase(s[j..], p)
    ensures ContainsIgnoringCase(s, p)
    decreases j
  {
    if j > 0 {
      assert s[1..][j - 1..] == s[j..];
      ContainsIgnoringCaseSuffix(s[1..], j - 1, p);
    }
  }

  /** Searching for two keywords that agree up to case finds the same. */
  lemma {:induction false} ContainsIgnoringCaseRespectsCase(s: string, p: string, q: string)
    requires SameIgnoringCase(p, q)
    ensures ContainsIgnoringCase(s, p) == ContainsIgnoringCase(s, q)
    decreases |s|
  {
    StartsWithIgnoringCaseRespectsCase(s, p, q);
    if s != [] {
      ContainsIgnoringCaseRespectsCase(s[1..], p, q);
    }
  }

  /** The index of the first `c` in `s`, or `|s|` when there is none: where
      a scan for `c` stops. */
  function FirstIndex(s: string, c: char): (r: nat)
    ensures r <= |s|
    decreases |s|
  {
    if s == [] || s[0] == c then 0 else 1 + FirstIndex(s[1..], c)
  }

  /** `FirstIndex` stops at the first `c`, and only when there is none does
      it run to the end. */
  lemma {:induction false} FirstIndexSpec(s: string, c: char)
    ensures c !in s[..FirstIndex(s, c)]
    ensures FirstIndex(s, c) < |s| <==> c in s
    ensures FirstIndex(s, c) < |s| ==> s[FirstIndex(s, c)] == c
    decreases |s|
  {
    if s != [] && s[0] != c {
      FirstIndexSpec(s[1..], c);
      assert s[..FirstIndex(s, c)] == [s[0]] + s[1..][..FirstIndex(s[1..], c)];
      assert s == [s[0]] + s[1..];
    }
  }

  /** A keyword is not found where one of its lower-case letters occurs in
      neither case. */
  lemma {:induction false} MissingLetterMeansNoKeyword(s: string, p: string, k: nat)
    requires k < |p| && 'a' <= p[k] <= 'z'
    requires p[k] !in s && (p[k] as int - 32) as char !in s
    ensures !ContainsIgnoringCase(s, p)
    decreases |s|
  {
    NoStartWithoutLetter(s, p, k);
    if s != [] {
      MissingLetterMeansNoKeyword(s[1..], p, k);
    }
  }

  lemma {:induction false} NoStartWithoutLetter(s: string, p: string, k: nat)
    requires k < |p| && 'a' <= p[k] <= 'z'
    requires p[k] !in s && (p[k] as int - 32) as char !in s
    ensures !StartsWithIgnoringCase(s, p)
    decreases k
  {
    if s != [] && k > 0 {
      NoStartWithoutLetter(s[1..], p[1..], k - 1);
    } else if s != [] {
      assert s[0] in s;
    }
  }
  /** The case-insensitive prefix test compares position by position. */
  lemma {:induction false} StartsWithIgnoringCaseChars(s: string, p: string)
    ensures StartsWithIgnoringCase(s, p) <==>
      |p| <= |s| && forall i :: 0 <= i < |p| ==> Lower(s[i]) == Lower(p[i])
    decreases |p|
  {
    if p != [] && s != [] {
      StartsWithIgnoringCaseChars(s[1..], p[1..]);
      if |p| <= |s| && forall i :: 0 <= i < |p| ==> Lower(s[i]) == Lower(p[i]) {
        forall i | 0 <= i < |p[1..]| ensures Lower(s[1..][i]) == Lower(p[1..][i]) {
          assert s[1..][i] == s[i + 1] && p[1..][i] == p[i + 1];
        }
      }
      if StartsWithIgnoringCase(s, p) {
        forall i | 0 <= i < |p| ensures Lower(s[i]) == Lower(p[i]) {
          if i > 0 { assert s[1..][i - 1] == s[i] && p[1..][i - 1] == p[i]; }
        }
      }
    }
  }

  /** A keyword is never found in a string shorter than itself. */
  lemma {:induction false} ContainsIgnoringCaseNeedsLength(s: string, p: string)
    ensures ContainsIgnoringCase(s, p) ==> |p| <= |s|
    decreases |s|
  {
    StartsWithIgnoringCaseChars(s, p);
    if s != [] {
      ContainsIgnoringCaseNeedsLength(s[1..], p);
    }
  }

  lemma ConcatRegroup<T>(a: seq<T>, b: seq<T>, c: seq<T>, d: seq<T>, e: seq<T>)
    ensures a + b + c + d + e == a + b + (c + d + e)
  {
  }

  /** A keyword cannot be found in text that two characters foreign to it
      cut into pieces all shorter than the keyword. */
  lemma ShortPiecesHideKeyword(x: string, c: char, y: string, d: char, z: string, p: string)
    requires c !in p && d !in p
    requires !('a' <= c <= 'z') && !('A' <= c <= 'Z') && !('a' <= d <= 'z') && !('A' <= d <= 'Z')
    requires |x| < |p| && |y| < |p| && |z| < |p|
    ensures !ContainsIgnoringCase(x + [c] + y + [d] + z, p)
  {
    ConcatRegroup(x, [c], y, [d], z);
    ContainsIgnoringCaseAcross(x, c, y + [d] + z, p);
    ContainsIgnoringCaseAcross(y, d, z, p);
    ContainsIgnoringCaseNeedsLength(x, p);
    ContainsIgnoringCaseNeedsLength(y, p);
    ContainsIgnoringCaseNeedsLength(z, p);
  }

  /** A keyword none of whose letters matches `c` cannot be found across a
      `c`: it is found before it or after it. */
  lemma {:induction false} ContainsIgnoringCaseAcross(x: string, c: char, y: string, p: string)
    requires c !in p && !('a' <= c <= 'z') && !('A' <= c <= 'Z')
    ensures ContainsIgnoringCase(x + [c] + y, p) ==>
      ContainsIgnoringCase(x, p) || ContainsIgnoringCase(y, p)
    decreases |x|
  {
    var s := x + [c] + y;
    assert s[|x|] == c;
    assert forall i :: 0 <= i < |p| ==> Lower(p[i]) != Lower(c) by {
      forall i | 0 <= i < |p| ensures Lower(p[i]) != Lower(c) {
        assert p[i] in p;
      }
    }
    StartsWithIgnoringCaseChars(s, p);
    StartsWithIgnoringCaseChars(x, p);
    if StartsWithIgnoringCase(s, p) && p != [] {
      if |x| >= |p| {
        forall i | 0 <= i < |p| ensures Lower(x[i]) == Lower(p[i]) {
          assert s[i] == x[i];
        }
      }
    }
    if x == [] {
      assert s[1..] == y;
    } else {
      assert s[1..] == x[1..] + [c] + y;
      ContainsIgnoringCaseAcross(x[1..], c, y, p);
    }
  }

  /** A string found in `s` has its first character in `s`. */
  lemma ContainsHead(s: string, w: string)
    ensures Contains(s, w) && w != [] ==> w[0] in s
  {
    ContainsIff(s, w);
    if Contains(s, w) && w != [] {
      var i :| OccursAt(s, w, i);
      assert s[i] == s[i..i + |w|][0];
      assert s[i] in s;
    }
  }

  /** A prefix stays a prefix whatever follows. */
  lemma {:induction false} StartsWithIgnoringCaseExtend(x: string, y: string, p: string)
    requires StartsWithIgnoringCase(x, p)
    ensures StartsWithIgnoringCase(x + y, p)
    decreases |p|
  {
    if p != [] {
      assert (x + y)[0] == x[0] && (x + y)[1..] == x[1..] + y;
      StartsWithIgnoringCaseExtend(x[1..], y, p[1..]);
    }
  }

  /** `a` is `b` with some elements left out, order kept. */
  predicate SubsequenceOf<T(==)>(a: seq<T>, b: seq<T>)
    decreases |b|
  {
    a == [] ||
    (b != [] && ((a[0] == b[0] && SubsequenceOf(a[1..], b[1..])) || SubsequenceOf(a, b[1..])))
  }

  /** A subsequence of a suffix of `b` is a subsequence of `b`. */
  lemma {:induction false} SubsequenceOfSuffix<T>(a: seq<T>, b: seq<T>, n: nat)
    requires n <= |b| && SubsequenceOf(a, b[n..])
    ensures SubsequenceOf(a, b)
    decreases n
  {
    if n > 0 {
      assert b[1..][n - 1..] == b[n..];
      SubsequenceOfSuffix(a, b[1..], n - 1);
    } else {
      assert b[0..] == b;
    }
  }
}
