/** The three regular-expression shapes `clean_title` uses, and the two
    `re` operations it applies to them: `re.sub(pattern, '', s)` and
    `re.findall(pattern, s)`, both with `re.IGNORECASE`.

    None of the shapes can run past the first closing character after its
    opening one, so a match starting at a given position is unique and is
    decided by the text up to that closing character. */
module Patterns {
  import opened Strings

  datatype Pattern =
      /** `\([^)]*keyword[^)]*\)`: a parenthesised group holding the keyword. */
    | Noise(keyword: string)
      /** `\[[^\]]*\]`: any square-bracketed group. */
    | Bracketed
      /** `\(tag[^)]*\)`: a parenthesised group that begins with the tag. */
    | Credit(tag: string)
  {
    function Opener(): (c: char) { if Bracketed? then '[' else '(' }

    function Closer(): (c: char) { if Bracketed? then ']' else ')' }

    /** Whether the text between the opener and the first closer fits. */
    predicate Admits(inner: string)
    {
      match this
      case Noise(keyword) => ContainsIgnoringCase(inner, keyword)
      case Bracketed => true
      case Credit(tag) => StartsWithIgnoringCase(inner, tag)
    }
  }

  /** The regular-expression reading of a match: `s[..n]` is an opener, a
      run without the closer that the pattern admits, and the closer. */
  ghost predicate MatchesPrefix(p: Pattern, s: string, n: int)
  {
    2 <= n <= |s| && s[0] == p.Opener() && s[n - 1] == p.Closer() &&
    p.Closer() !in s[1..n - 1] && p.Admits(s[1..n - 1])
  }

  /** The length of the match of `p` at the start of `s`, if there is one:
      the opener, then everything up to the first closer. */
  function MatchLength(p: Pattern, s: string): (r: Option<nat>)
    ensures r.Some? ==> 2 <= r.value <= |s|
  {
    if |s| == 0 || s[0] != p.Opener() then None
    else
      var k := FirstIndex(s[1..], p.Closer());
      if k < |s| - 1 && p.Admits(s[1..1 + k]) then Some(k + 2) else None
  }

  /** Every match `MatchLength` reports is one in the regular-expression
      sense. */
  lemma MatchLengthSound(p: Pattern, s: string)
    ensures MatchLength(p, s).Some? ==> MatchesPrefix(p, s, MatchLength(p, s).value)
  {
    if |s| > 0 && s[0] == p.Opener() {
      var k := FirstIndex(s[1..], p.Closer());
      FirstIndexSpec(s[1..], p.Closer());
      assert s[1..1 + k] == s[1..][..k];
    }
  }

  /** Conversely, wherever the regular expression matches a prefix,
      `MatchLength` finds that very match: the match is unique. */
  lemma MatchLengthComplete(p: Pattern, s: string, n: int)
    requires MatchesPrefix(p, s, n)
    ensures MatchLength(p, s) == Some(n)
  {
    assert s[1..][n - 2] == p.Closer();
    var k := FirstIndex(s[1..], p.Closer());
    FirstIndexSpec(s[1..], p.Closer());
    assert s[1..][..n - 2] == s[1..n - 1];
    FirstOccurrenceUnique(s[1..], p.Closer(), k, n - 2);
    assert s[1..1 + k] == s[1..n - 1];
  }

  /** Two first occurrences of the same character are the same position. */
  lemma FirstOccurrenceUnique(t: string, c: char, a: nat, b: nat)
    requires a < |t| && t[a] == c && c !in t[..a]
    requires b < |t| && t[b] == c && c !in t[..b]
    ensures a == b
  {
  }

  /** A match needs a closing character somewhere in the text. */
  lemma MatchNeedsCloser(p: Pattern, s: string)
    ensures MatchLength(p, s).Some? ==> p.Closer() in s
  {
    MatchLengthSound(p, s);
    if MatchLength(p, s).Some? {
      assert s[MatchLength(p, s).value - 1] in s;
    }
  }

  /** An opener, a run `u` without the closer, and the closer: the pattern
      matches there exactly when it admits `u`, whatever follows. */
  lemma MatchOfGroup(p: Pattern, u: string, v: string)
    requires p.Closer() !in u
    ensures MatchLength(p, [p.Opener()] + u + [p.Closer()] + v)
            == if p.Admits(u) then Some(|u| + 2) else None
  {
    var s := [p.Opener()] + u + [p.Closer()] + v;
    assert s[1..|u| + 1] == u;
    assert s[1..][..|u|] == u;
    assert MatchesPrefix(p, s, |u| + 2) <==> p.Admits(u);
    MatchLengthSound(p, s);
    if MatchLength(p, s).Some? {
      var n := MatchLength(p, s).value;
      assert s[1..][..n - 2] == s[1..n - 1];
      FirstOccurrenceUnique(s[1..], p.Closer(), |u|, n - 2);
    }
    if p.Admits(u) {
      MatchLengthComplete(p, s, |u| + 2);
    }
  }

  /** No position of `s` starts a match of `p`. */
  ghost predicate NoMatch(p: Pattern, s: string)
  {
    forall i :: 0 <= i < |s| ==> MatchLength(p, s[i..]).None?
  }

  /** `re.sub(p, '', s)`: scan left to right, drop every match, resume after
      it; where nothing matches keep the character and move on by one. */
  function Sub(p: Pattern, s: string): (r: string)
    decreases |s|
  {
    if s == [] then []
    else match MatchLength(p, s)
      case Some(n) => Sub(p, s[n..])
      case None => [s[0]] + Sub(p, s[1..])
  }

  /** `re.findall(p, s)`: the same scan, collecting each match verbatim. */
  function FindAll(p: Pattern, s: string): (found: seq<string>)
    decreases |s|
  {
    if s == [] then []
    else match MatchLength(p, s)
      case Some(n) => [s[..n]] + FindAll(p, s[n..])
      case None => FindAll(p, s[1..])
  }

  /** Removal only deletes characters: what it keeps is the input with
      some characters left out, in their order, so it never introduces a
      character either. */
  lemma {:induction false} SubKeepsOnlyInputChars(p: Pattern, s: string)
    ensures SubsequenceOf(Sub(p, s), s)
    ensures forall c :: c in Sub(p, s) ==> c in s
    decreases |s|
  {
    if s != [] {
      match MatchLength(p, s)
      case Some(n) =>
        SubKeepsOnlyInputChars(p, s[n..]);
        SubsequenceOfSuffix(Sub(p, s), s, n);
        assert forall c :: c in s[n..] ==> c in s;
      case None =>
        SubKeepsOnlyInputChars(p, s[1..]);
        var r := Sub(p, s);
        assert r[0] == s[0] && r[1..] == Sub(p, s[1..]);
        assert forall c :: c in s[1..] ==> c in s;
    }
  }

  /** A string with nothing to remove is left as it is. */
  lemma {:induction false} SubFixesNoMatch(p: Pattern, s: string)
    requires NoMatch(p, s)
    ensures Sub(p, s) == s
    decreases |s|
  {
    if s != [] {
      assert s[0..] == s;
      assert NoMatch(p, s[1..]) by {
        forall i | 0 <= i < |s[1..]| ensures MatchLength(p, s[1..][i..]).None? {
          assert s[1..][i..] == s[i + 1..];
        }
      }
      SubFixesNoMatch(p, s[1..]);
    }
  }

  /** A keyword found after a position inside a group is found in the group. */
  lemma AdmitsSuffix(p: Pattern, u: string, j: nat)
    requires p.Noise? && j <= |u|
    ensures p.Admits(u[j..]) ==> p.Admits(u)
  {
    if p.Admits(u[j..]) {
      ContainsIgnoringCaseSuffix(u, j, p.keyword);
    }
  }

  /** Inside a group whose text does not hold the keyword, the first
      position starts no match. */
  lemma NoMatchInsideUnmatchedGroup(p: Pattern, u: string, v: string)
    requires p.Noise? && p.Closer() !in u && !p.Admits(u) && u != []
    ensures MatchLength(p, u + [p.Closer()] + v).None?
  {
    AdmitsSuffix(p, u, 1);
    if u[0] == p.Opener() {
      assert u + [p.Closer()] + v == [p.Opener()] + u[1..] + [p.Closer()] + v;
      MatchOfGroup(p, u[1..], v);
    }
  }

  /** When the text up to the first `)` does not hold the keyword, no `(`
      inside it starts a match either, so removal copies it unchanged. */
  lemma {:induction false} SubPassesUnmatchedGroup(p: Pattern, u: string, v: string)
    requires p.Noise? && p.Closer() !in u && !p.Admits(u)
    ensures Sub(p, u + [p.Closer()] + v) == u + [p.Closer()] + Sub(p, v)
    decreases |u|
  {
    var s := u + [p.Closer()] + v;
    if u == [] {
      SubKeepsUnmatchedHead(p, s);
      assert s[1..] == v;
    } else {
      AdmitsSuffix(p, u, 1);
      SubPassesUnmatchedGroup(p, u[1..], v);
      NoMatchInsideUnmatchedGroup(p, u, v);
      SubKeepsUnmatchedHead(p, s);
      GroupTail(u, p.Closer(), v, Sub(p, v));
    }
  }

  /** Splitting the first character off a group followed by more text. */
  lemma GroupTail<T>(u: seq<T>, c: T, v: seq<T>, w: seq<T>)
    requires u != []
    ensures (u + [c] + v)[0] == u[0]
    ensures (u + [c] + v)[1..] == u[1..] + [c] + v
    ensures [u[0]] + (u[1..] + [c] + w) == u + [c] + w
  {
  }

  /** One step of the scan: an unmatched first character is kept. */
  lemma SubKeepsUnmatchedHead(p: Pattern, s: string)
    requires s != [] && MatchLength(p, s).None?
    ensures Sub(p, s) == [s[0]] + Sub(p, s[1..])
  {
  }

  /** After removal no position starts a match of the same pattern. */
  lemma {:induction false} SubLeavesNoMatch(p: Pattern, s: string)
    requires !p.Credit?
    ensures NoMatch(p, Sub(p, s))
    decreases |s|
  {
    if s != [] {
      match MatchLength(p, s)
      case Some(n) =>
        SubLeavesNoMatch(p, s[n..]);
      case None =>
        var rest := Sub(p, s[1..]);
        var r := [s[0]] + rest;
        SubLeavesNoMatch(p, s[1..]);
        forall i | 0 <= i < |r| ensures MatchLength(p, r[i..]).None? {
          if i > 0 {
            assert r[i..] == rest[i - 1..];
          } else {
            assert r[0..] == r;
            HeadStartsNoMatch(p, s);
          }
        }
    }
  }

  /** The character kept at an unmatched position starts no match in the
      removal result either. */
  lemma HeadStartsNoMatch(p: Pattern, s: string)
    requires !p.Credit? && s != [] && MatchLength(p, s).None?
    ensures MatchLength(p, [s[0]] + Sub(p, s[1..])).None?
  {
    var r := [s[0]] + Sub(p, s[1..]);
    if s[0] == p.Opener() {
      var k := FirstIndex(s[1..], p.Closer());
      FirstIndexSpec(s[1..], p.Closer());
      if k == |s| - 1 {
        SubKeepsOnlyInputChars(p, s[1..]);
        MatchNeedsCloser(p, r);
      } else {
        var u, v := s[1..][..k], s[1..][k + 1..];
        SplitAfterHead(s, k);
        UnmatchedGroupStaysUnmatched(p, u, v);
      }
    }
  }

  /** A sequence cut around position `k` of its tail. */
  lemma SplitAfterHead<T>(s: seq<T>, k: nat)
    requires 1 + k < |s|
    ensures s == [s[0]] + s[1..][..k] + [s[1..][k]] + s[1..][k + 1..]
    ensures s[1..] == s[1..][..k] + [s[1..][k]] + s[1..][k + 1..]
  {
  }

  /** An opener whose group was not removed still starts no match once the
      text after it has been through removal. */
  lemma UnmatchedGroupStaysUnmatched(p: Pattern, u: string, v: string)
    requires !p.Credit? && p.Closer() !in u
    requires MatchLength(p, [p.Opener()] + u + [p.Closer()] + v).None?
    ensures MatchLength(p, [p.Opener()] + Sub(p, u + [p.Closer()] + v)).None?
  {
    MatchOfGroup(p, u, v);
    SubPassesUnmatchedGroup(p, u, v);
    assert [p.Opener()] + Sub(p, u + [p.Closer()] + v)
        == [p.Opener()] + u + [p.Closer()] + Sub(p, v);
    MatchOfGroup(p, u, Sub(p, v));
  }

  /** Each removal pass is idempotent: running it on its own output changes
      nothing. */
  lemma SubIdempotent(p: Pattern, s: string)
    requires !p.Credit?
    ensures Sub(p, Sub(p, s)) == Sub(p, s)
  {
    SubLeavesNoMatch(p, s);
    SubFixesNoMatch(p, Sub(p, s));
  }

  /** Keywords that differ only in letter case remove the same groups. */
  lemma {:induction false} SubIgnoresKeywordCase(a: string, b: string, s: string)
    requires SameIgnoringCase(a, b)
    ensures Sub(Noise(a), s) == Sub(Noise(b), s)
    decreases |s|
  {
    if s != [] {
      forall inner: string ensures Noise(a).Admits(inner) == Noise(b).Admits(inner) {
        ContainsIgnoringCaseRespectsCase(inner, a, b);
      }
      assert MatchLength(Noise(a), s) == MatchLength(Noise(b), s);
      match MatchLength(Noise(a), s)
      case Some(n) => SubIgnoresKeywordCase(a, b, s[n..]);
      case None => SubIgnoresKeywordCase(a, b, s[1..]);
    }
  }

  /** With case ignored, a pass for a second spelling of the same keyword
      right after the first finds nothing left to remove. */
  lemma SecondSpellingChangesNothing(a: string, b: string, s: string)
    requires SameIgnoringCase(a, b)
    ensures Sub(Noise(b), Sub(Noise(a), s)) == Sub(Noise(a), s)
  {
    SubIgnoresKeywordCase(a, b, Sub(Noise(a), s));
    SubIdempotent(Noise(a), s);
  }

  /** Every found span is a verbatim piece of the input, with its original
      casing, and is itself one whole match of the pattern. */
  lemma {:induction false} FindAllVerbatim(p: Pattern, s: string)
    ensures forall m :: m in FindAll(p, s) ==> Contains(s, m) && MatchesPrefix(p, m, |m|)
    decreases |s|
  {
    if s != [] {
      match MatchLength(p, s)
      case Some(n) =>
        FirstMatchVerbatim(p, s);
        FindAllVerbatim(p, s[n..]);
        FoundInSuffix(p, s, n);
      case None =>
        FindAllVerbatim(p, s[1..]);
        FoundInSuffix(p, s, 1);
    }
  }

  /** The match at the start of `s` is a verbatim piece of `s` and a whole
      match on its own. */
  lemma FirstMatchVerbatim(p: Pattern, s: string)
    requires MatchLength(p, s).Some?
    ensures Contains(s, s[..MatchLength(p, s).value])
    ensures MatchesPrefix(p, s[..MatchLength(p, s).value], MatchLength(p, s).value)
  {
    MatchLengthSound(p, s);
    var n := MatchLength(p, s).value;
    var m := s[..n];
    assert s == m + s[n..];
    assert Contains(m, m);
    ContainsPrefixOf(m, s[n..], m);
    assert m[1..n - 1] == s[1..n - 1];
  }

  /** Spans found in a suffix of `s` are pieces of `s`. */
  lemma FoundInSuffix(p: Pattern, s: string, j: nat)
    requires j <= |s|
    requires forall m :: m in FindAll(p, s[j..]) ==> Contains(s[j..], m) && MatchesPrefix(p, m, |m|)
    ensures forall m :: m in FindAll(p, s[j..]) ==> Contains(s, m) && MatchesPrefix(p, m, |m|)
  {
    forall m | m in FindAll(p, s[j..]) ensures Contains(s, m) {
      ContainsFromSuffix(s, j, m);
    }
  }

  /** `findall` comes back empty exactly when no position starts a match. */
  lemma {:induction false} FindAllEmptyIff(p: Pattern, s: string)
    ensures FindAll(p, s) == [] <==> NoMatch(p, s)
    decreases |s|
  {
    if s != [] {
      assert s[0..] == s;
      FindAllEmptyIff(p, s[1..]);
      forall i | 1 <= i < |s| ensures s[1..][i - 1..] == s[i..] { }
      assert NoMatch(p, s[1..]) <==> forall i :: 1 <= i < |s| ==> MatchLength(p, s[i..]).None?;
    }
  }
  /** Text without an opening character is copied through removal as is. */
  lemma {:induction false} SubSkipsPlain(p: Pattern, a: string, b: string)
    requires p.Opener() !in a
    ensures Sub(p, a + b) == a + Sub(p, b)
    decreases |a|
  {
    if a != [] {
      var s := a + b;
      assert s[0] == a[0] && s[1..] == a[1..] + b;
      SubSkipsPlain(p, a[1..], b);
      SubKeepsUnmatchedHead(p, s);
      assert [a[0]] + (a[1..] + Sub(p, b)) == a + Sub(p, b);
    } else {
      assert a + b == b;
    }
  }

  /** A whole group, with no opener or closer inside: removal drops it when
      the pattern admits its text and copies it otherwise. */
  lemma SubOfGroup(p: Pattern, u: string, v: string)
    requires p.Opener() !in u && p.Closer() !in u
    ensures Sub(p, [p.Opener()] + u + [p.Closer()] + v)
            == if p.Admits(u) then Sub(p, v) else [p.Opener()] + u + [p.Closer()] + Sub(p, v)
  {
    var s := [p.Opener()] + u + [p.Closer()] + v;
    MatchOfGroup(p, u, v);
    if p.Admits(u) {
      assert s[|u| + 2..] == v;
    } else {
      assert s[1..] == (u + [p.Closer()]) + v;
      SubSkipsPlain(p, u + [p.Closer()], v);
    }
  }

  /** Text without an opening character contributes no match. */
  lemma {:induction false} FindAllSkipsPlain(p: Pattern, a: string, b: string)
    requires p.Opener() !in a
    ensures FindAll(p, a + b) == FindAll(p, b)
    decreases |a|
  {
    if a != [] {
      var s := a + b;
      assert s[0] == a[0] && s[1..] == a[1..] + b;
      FindAllSkipsPlain(p, a[1..], b);
    } else {
      assert a + b == b;
    }
  }

  /** A whole group, with no opener or closer inside, is found verbatim
      exactly when the pattern admits its text. */
  lemma FindAllOfGroup(p: Pattern, u: string, v: string)
    requires p.Opener() !in u && p.Closer() !in u
    ensures FindAll(p, [p.Opener()] + u + [p.Closer()] + v)
            == (if p.Admits(u) then [[p.Opener()] + u + [p.Closer()]] else []) + FindAll(p, v)
  {
    var s := [p.Opener()] + u + [p.Closer()] + v;
    MatchOfGroup(p, u, v);
    if p.Admits(u) {
      assert s[|u| + 2..] == v;
      assert s[..|u| + 2] == [p.Opener()] + u + [p.Closer()];
    } else {
      assert s[1..] == (u + [p.Closer()]) + v;
      FindAllSkipsPlain(p, u + [p.Closer()], v);
    }
  }
  /** Where the bracket pattern matches nowhere, no `[` has a `]` anywhere
      after it. */
  lemma NoBracketGroupLeft(s: string)
    requires NoMatch(Bracketed, s)
    ensures forall i, j :: 0 <= i < j < |s| && s[i] == '[' ==> s[j] != ']'
  {
    forall i, j | 0 <= i < j < |s| && s[i] == '[' ensures s[j] != ']' {
      var t := s[i..];
      assert MatchLength(Bracketed, t).None?;
      FirstIndexSpec(t[1..], ']');
      assert s[j] == t[1..][j - i - 1];
    }
  }
}
