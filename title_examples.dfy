/** Worked cases of `clean_title`, each for every title `u` already in
    normal form and free of `(` and `[`, followed by one group. */
module TitleExamples {
  import opened Strings
  import opened Patterns
  import opened Whitespace
  import opened TitleCleaner

  /** One pass over a plain prefix and one final group. */
  lemma SubPrefixGroup(p: Pattern, a: string, g: string)
    requires p.Opener() !in a && p.Opener() !in g && p.Closer() !in g
    ensures Sub(p, a + [p.Opener()] + g + [p.Closer()])
            == if p.Admits(g) then a else a + [p.Opener()] + g + [p.Closer()]
  {
    var grp := [p.Opener()] + g + [p.Closer()];
    assert a + [p.Opener()] + g + [p.Closer()] == a + grp;
    SubSkipsPlain(p, a, grp);
    assert grp == [p.Opener()] + g + [p.Closer()] + [];
    SubOfGroup(p, g, []);
  }

  /** `findall` over a plain prefix and one final group. */
  lemma FindAllPrefixGroup(p: Pattern, a: string, g: string)
    requires p.Opener() !in a && p.Opener() !in g && p.Closer() !in g
    ensures FindAll(p, a + [p.Opener()] + g + [p.Closer()])
            == if p.Admits(g) then [[p.Opener()] + g + [p.Closer()]] else []
  {
    var grp := [p.Opener()] + g + [p.Closer()];
    assert a + [p.Opener()] + g + [p.Closer()] == a + grp;
    FindAllSkipsPlain(p, a, grp);
    assert grp == [p.Opener()] + g + [p.Closer()] + [];
    FindAllOfGroup(p, g, []);
  }

  /** A pass finds nothing in text without its opener. */
  lemma SubPlain(p: Pattern, s: string)
    requires p.Opener() !in s
    ensures Sub(p, s) == s
  {
    SubSkipsPlain(p, s, []);
    assert s + [] == s;
  }

  /** No featured-artist annotation in a title whose only group does not
      begin with a tag. */
  lemma NoFeatsBeforeGroup(a: string, g: string)
    requires '(' !in a && '(' !in g && ')' !in g
    requires !StartsWithIgnoringCase(g, "ft.") && !StartsWithIgnoringCase(g, "feat.")
    requires !StartsWithIgnoringCase(g, "featuring")
    ensures CollectFeats(a + "(" + g + ")", FeatPatterns) == []
  {
    FindAllPrefixGroup(Credit("ft."), a, g);
    FindAllPrefixGroup(Credit("feat."), a, g);
    FindAllPrefixGroup(Credit("featuring"), a, g);
    CollectFeatsOrder(a + "(" + g + ")");
  }

  /** A gap of at most one space after a normal title disappears in the
      whitespace step. */
  lemma NormalizeGap(u: string, gap: string)
    requires Normal(u) && (gap == "" || gap == " ")
    ensures Normalize(u + gap) == u
  {
    if gap == "" {
      assert u + gap == u;
      NormalizeFixesNormal(u);
    } else {
      NormalizeDropsTrailingSpace(u);
    }
  }

  /** The seven keywords of the removal passes, each of which runs once in
      lower case and once capitalised. */
  const NoiseKeywords: seq<string> :=
    ["audio", "official", "video", "from", "movie", "lyric", "version"]

  /** The group text holds one of the keywords, in any letter case. */
  predicate HoldsNoiseKeyword(g: string)
  {
    exists k :: k in NoiseKeywords && ContainsIgnoringCase(g, k)
  }

  /** A final group holding any of the keywords is removed by the chain of
      passes from a title that has no other group: the passes before the
      first one that admits it keep it, that one removes it, and the rest
      find nothing. */
  lemma RemovedByKeywordPass(a: string, g: string)
    requires '(' !in a && '[' !in a && '(' !in g && ')' !in g
    requires HoldsNoiseKeyword(g)
    ensures RemoveNoise(a + "(" + g + ")", NoisePatterns) == a
  {
    var k :| k in NoiseKeywords && ContainsIgnoringCase(g, k);
    var m :| 0 <= m < 7 && NoiseKeywords[m] == k;
    KeywordPasses(m);
    PassesRemoveFinalGroup(a, g, NoisePatterns, 2 * m);
  }

  /** A group holding keyword `m` holds a keyword. */
  lemma KeywordHeld(g: string, m: nat)
    requires m < 7 && ContainsIgnoringCase(g, NoiseKeywords[m])
    ensures HoldsNoiseKeyword(g)
  {
    assert NoiseKeywords[m] in NoiseKeywords;
  }

  /** The first fourteen passes are keyword passes, the lower-case spelling
      of each keyword at an even position. */
  lemma KeywordPasses(m: nat)
    requires m < 7
    ensures NoisePatterns[2 * m] == Noise(NoiseKeywords[m])
    ensures forall j :: 0 <= j < 14 ==> NoisePatterns[j].Noise?
  {
  }

  /** A chain of passes whose pass `i` admits the final group and whose
      earlier passes are all keyword passes removes that group, and
      nothing else, from a title without other groups. */
  lemma {:induction false} PassesRemoveFinalGroup(a: string, g: string, pats: seq<Pattern>, i: nat)
    requires '(' !in a && '[' !in a && '(' !in g && ')' !in g
    requires i < |pats| && pats[i].Noise? && pats[i].Admits(g)
    requires forall j :: 0 <= j < i ==> pats[j].Noise?
    ensures RemoveNoise(a + "(" + g + ")", pats) == a
    decreases i
  {
    var title := a + "(" + g + ")";
    SubPrefixGroup(pats[0], a, g);
    if pats[0].Admits(g) {
      RemoveNoisePlain(a, pats[1..]);
    } else {
      PassesRemoveFinalGroup(a, g, pats[1..], i - 1);
    }
  }

  /** A title in normal form, a gap, and a final noise group that no tag
      begins: `clean_title` gives back the title alone. */
  lemma CleanDropsFinalGroup(u: string, gap: string, g: string)
    requires Normal(u) && (gap == "" || gap == " ") && '(' !in u && '[' !in u
    requires '(' !in g && ')' !in g
    requires !StartsWithIgnoringCase(g, "ft.") && !StartsWithIgnoringCase(g, "feat.")
    requires !StartsWithIgnoringCase(g, "featuring")
    requires HoldsNoiseKeyword(g)
    ensures Clean(u + gap + "(" + g + ")") == u
  {
    RemovedByKeywordPass(u + gap, g);
    NoFeatsBeforeGroup(u + gap, g);
    NormalizeGap(u, gap);
  }

  /** A title in normal form, a gap, and a final group the `feat.` tag
      begins and a keyword pass removes: the group comes back, now after
      exactly one space. */
  lemma CleanRestoresFinalFeat(u: string, gap: string, g: string)
    requires Normal(u) && (gap == "" || gap == " ") && '(' !in u && '[' !in u
    requires '(' !in g && ')' !in g
    requires !StartsWithIgnoringCase(g, "ft.") && StartsWithIgnoringCase(g, "feat.")
    requires !StartsWithIgnoringCase(g, "featuring")
    requires HoldsNoiseKeyword(g)
    ensures Clean(u + gap + "(" + g + ")") == u + " " + ("(" + g + ")")
  {
    RemovedByKeywordPass(u + gap, g);
    var grp := "(" + g + ")";
    var title := u + gap + "(" + g + ")";
    OneFeatBeforeGroup(u + gap, g);
    NormalizeGap(u, gap);
    AppendOneMissing(u, g);
    CleanOfParts(title, u, [grp]);
  }

  /** `clean_title` from the results of its stages. */
  lemma CleanOfParts(title: string, base: string, feats: seq<string>)
    requires Normalize(RemoveNoise(title, NoisePatterns)) == base
    requires CollectFeats(title, FeatPatterns) == feats
    ensures Clean(title) == AppendFeats(base, feats)
  {
  }

  /** A parenthesised annotation is appended to text without `(`. */
  lemma AppendOneMissing(t: string, g: string)
    requires '(' !in t
    ensures AppendFeats(t, ["(" + g + ")"]) == t + " " + ("(" + g + ")")
  {
    var f := "(" + g + ")";
    assert f[0] == '(';
    ContainsHead(t, f);
    assert [f][1..] == [];
    assert AppendFeats(t, [f]) == AppendFeats(t + " " + f, []);
  }

  /** Exactly one annotation in a title whose only group the `feat.` tag
      begins. */
  lemma OneFeatBeforeGroup(a: string, g: string)
    requires '(' !in a && '(' !in g && ')' !in g
    requires !StartsWithIgnoringCase(g, "ft.") && StartsWithIgnoringCase(g, "feat.")
    requires !StartsWithIgnoringCase(g, "featuring")
    ensures CollectFeats(a + "(" + g + ")", FeatPatterns) == ["(" + g + ")"]
  {
    FindAllPrefixGroup(Credit("ft."), a, g);
    FindAllPrefixGroup(Credit("feat."), a, g);
    FindAllPrefixGroup(Credit("featuring"), a, g);
    CollectFeatsOrder(a + "(" + g + ")");
  }

  /** A title in normal form, a gap, and a final square-bracketed group:
      `clean_title` gives back the title alone. */
  lemma CleanDropsFinalBracket(u: string, gap: string, g: string)
    requires Normal(u) && (gap == "" || gap == " ") && '(' !in u && '[' !in u
    requires '(' !in g && '[' !in g && ']' !in g
    ensures Clean(u + gap + "[" + g + "]") == u
  {
    var a := u + gap;
    var title := a + "[" + g + "]";
    assert '(' !in title;
    CollectFeatsPlain(title);
    BracketPassRemovesFinalGroup(a, g);
    NormalizeGap(u, gap);
    CleanOfParts(title, u, []);
  }

  /** Of all the passes only the last removes a final square-bracketed
      group from text without parentheses. */
  lemma BracketPassRemovesFinalGroup(a: string, g: string)
    requires '(' !in a && '[' !in a && '(' !in g && '[' !in g && ']' !in g
    ensures RemoveNoise(a + "[" + g + "]", NoisePatterns) == a
  {
    var title := a + "[" + g + "]";
    assert '(' !in title;
    KeywordPassesSkipPlain(title);
    SubPrefixGroup(Bracketed, a, g);
    RemoveNoiseOnePass(title, NoisePatterns, 14, a);
  }

  /** The fourteen keyword passes leave text without `(` unchanged. */
  lemma KeywordPassesSkipPlain(s: string)
    requires '(' !in s
    ensures forall i :: 0 <= i < 14 ==> Sub(NoisePatterns[i], s) == s
  {
    forall i | 0 <= i < 14 ensures Sub(NoisePatterns[i], s) == s {
      assert NoisePatterns[i].Noise?;
      SubPlain(NoisePatterns[i], s);
    }
  }

  /** "Song Title (Official Video)" becomes "Song Title": the group holds
      `official`, so a keyword pass removes it. */
  lemma OfficialVideoRemoved(u: string, gap: string)
    requires Normal(u) && (gap == "" || gap == " ") && '(' !in u && '[' !in u
    ensures Clean(u + gap + "(" + ("Official" + " Video") + ")") == u
  {
    var g := "Official" + " Video";
    OfficialVideoHoldsOfficial();
    OfficialVideoTags();
    KeywordHeld(g, 1);
    CleanDropsFinalGroup(u, gap, g);
  }

  lemma OfficialVideoHoldsOfficial()
    ensures ContainsIgnoringCase("Official" + " Video", "official")
  {
    assert StartsWithIgnoringCase("Official", "official");
    StartsWithIgnoringCaseExtend("Official", " Video", "official");
  }

  lemma OfficialVideoTags()
    ensures var g := "Official" + " Video";
            '(' !in g && ')' !in g && !StartsWithIgnoringCase(g, "ft.") &&
            !StartsWithIgnoringCase(g, "feat.") && !StartsWithIgnoringCase(g, "featuring")
  {
  }

  /** The keyword is found whatever its letter case in the title:
      "Track (AUDIO)" becomes "Track". */
  lemma UpperCaseAudioRemoved(u: string, gap: string)
    requires Normal(u) && (gap == "" || gap == " ") && '(' !in u && '[' !in u
    ensures Clean(u + gap + "(" + "AUDIO" + ")") == u
  {
    UpperCaseAudioFacts();
    KeywordHeld("AUDIO", 0);
    CleanDropsFinalGroup(u, gap, "AUDIO");
  }

  lemma UpperCaseAudioFacts()
    ensures ContainsIgnoringCase("AUDIO", "audio")
    ensures '(' !in "AUDIO" && ')' !in "AUDIO"
    ensures !StartsWithIgnoringCase("AUDIO", "ft.") && !StartsWithIgnoringCase("AUDIO", "feat.")
    ensures !StartsWithIgnoringCase("AUDIO", "featuring")
  {
    assert StartsWithIgnoringCase("AUDIO", "audio");
  }

  /** "Track (audio)" becomes "Track". */
  lemma LowerCaseAudioRemoved(u: string, gap: string)
    requires Normal(u) && (gap == "" || gap == " ") && '(' !in u && '[' !in u
    ensures Clean(u + gap + "(" + "audio" + ")") == u
  {
    LowerCaseAudioFacts();
    KeywordHeld("audio", 0);
    CleanDropsFinalGroup(u, gap, "audio");
  }

  lemma LowerCaseAudioFacts()
    ensures ContainsIgnoringCase("audio", "audio")
    ensures '(' !in "audio" && ')' !in "audio"
    ensures !StartsWithIgnoringCase("audio", "ft.") && !StartsWithIgnoringCase("audio", "feat.")
    ensures !StartsWithIgnoringCase("audio", "featuring")
  {
    assert StartsWithIgnoringCase("audio", "audio");
  }

  /** "Song [Remastered 2020]" becomes "Song". */
  lemma RemasteredRemoved(u: string, gap: string)
    requires Normal(u) && (gap == "" || gap == " ") && '(' !in u && '[' !in u
    ensures Clean(u + gap + "[" + ("Remastered" + " 2020") + "]") == u
  {
    CleanDropsFinalBracket(u, gap, "Remastered" + " 2020");
  }

  /** A featured-artist group that also holds a noise keyword is removed by
      that pass and then appended again, verbatim and after one space:
      "Song (feat. Official X)" comes back unchanged, and a title that is
      only that group gains a leading space. Here `x` is the rest of the
      group, " X" in that example: any text without parentheses. */
  lemma FeatWithKeywordRestored(u: string, gap: string, x: string)
    requires Normal(u) && (gap == "" || gap == " ") && '(' !in u && '[' !in u
    requires '(' !in x && ')' !in x
    ensures var g := "feat. " + ("Official" + x);
            Clean(u + gap + "(" + g + ")") == u + " " + ("(" + g + ")")
  {
    var g := "feat. " + ("Official" + x);
    FeatOfficialHoldsOfficial(x);
    FeatOfficialTags(x);
    KeywordHeld(g, 1);
    CleanRestoresFinalFeat(u, gap, g);
  }

  lemma FeatOfficialHoldsOfficial(x: string)
    ensures ContainsIgnoringCase("feat. " + ("Official" + x), "official")
  {
    var g := "feat. " + ("Official" + x);
    assert StartsWithIgnoringCase("Official", "official");
    StartsWithIgnoringCaseExtend("Official", x, "official");
    assert g[6..] == "Official" + x;
    ContainsIgnoringCaseSuffix(g, 6, "official");
  }

  lemma FeatOfficialTags(x: string)
    requires '(' !in x && ')' !in x
    ensures var g := "feat. " + ("Official" + x);
            '(' !in g && ')' !in g &&
            !StartsWithIgnoringCase(g, "ft.") && StartsWithIgnoringCase(g, "feat.") &&
            !StartsWithIgnoringCase(g, "featuring")
  {
    FeatTagBegins("Official" + x);
    FeatTagIsNotFt("Official" + x);
    FeatTagIsNotFeaturing("Official" + x);
    assert '(' !in "Official" + x && ')' !in "Official" + x;
  }

  lemma FeatTagBegins(y: string)
    ensures StartsWithIgnoringCase("feat. " + y, "feat.")
  {
    assert StartsWithIgnoringCase("feat. ", "feat.");
    StartsWithIgnoringCaseExtend("feat. ", y, "feat.");
  }

  lemma FeatTagIsNotFt(y: string)
    ensures !StartsWithIgnoringCase("feat. " + y, "ft.")
  {
    var g := "feat. " + y;
    StartsWithIgnoringCaseChars(g, "ft.");
    assert g[1] == 'e';
  }

  lemma FeatTagIsNotFeaturing(y: string)
    ensures !StartsWithIgnoringCase("feat. " + y, "featuring")
  {
    var g := "feat. " + y;
    StartsWithIgnoringCaseChars(g, "featuring");
    assert g[4] == '.';
  }

  /** Every keyword pass looks for a word of at least four letters. */
  lemma NoiseKeywordsAreLong(i: nat)
    requires i < |NoisePatterns| - 1
    ensures NoisePatterns[i].Noise? && |NoisePatterns[i].keyword| >= 4
  {
  }

  lemma NoiseKeywordsLackOpeningBracket(i: nat)
    requires i < |NoisePatterns| - 1 && NoisePatterns[i].Noise?
    ensures '[' !in NoisePatterns[i].keyword
  {
  }

  lemma NoiseKeywordsLackClosingBracket(i: nat)
    requires i < |NoisePatterns| - 1 && NoisePatterns[i].Noise?
    ensures ']' !in NoisePatterns[i].keyword
  {
  }

  /** Text without parentheses or square brackets. */
  predicate Bare(w: string)
  {
    '(' !in w && ')' !in w && '[' !in w && ']' !in w
  }

  /** A square-bracketed part inside a parenthesised group, in a group too
      short around the brackets to hold a keyword, is removed by the last
      pass alone, which leaves the parentheses in place:
      "(au[x]dio)" becomes "(audio)". */
  lemma BracketInsideGroupRemoved(a: string, b: string, c: string)
    requires |a| < 4 && |b| < 4 && |c| < 4 && Bare(a) && Bare(b) && Bare(c)
    requires forall ch :: ch in a + c ==> !IsSpace(ch)
    requires a != [] && Lower(a[0]) != 'f'
    ensures Clean("(" + (a + "[" + b + "]" + c) + ")") == "(" + (a + c) + ")"
  {
    var title := "(" + (a + "[" + b + "]" + c) + ")";
    NoFeatsInBracketGroup(a, b, c);
    BracketInsideGroupPasses(a, b, c);
    GroupWithoutSpaceIsNormal(a + c);
    CleanOfParts(title, "(" + (a + c) + ")", []);
  }

  /** The case itself: "(au[x]dio)" becomes "(audio)". */
  lemma BracketInsideAudioGroup()
    ensures Clean("(" + ("au" + "[" + "x" + "]" + "dio") + ")") == "(" + ("au" + "dio") + ")"
  {
    assert forall ch :: ch in "au" + "dio" ==> !IsSpace(ch);
    BracketInsideGroupRemoved("au", "x", "dio");
  }

  lemma NoFeatsInBracketGroup(a: string, b: string, c: string)
    requires Bare(a) && Bare(b) && Bare(c)
    requires a != [] && Lower(a[0]) != 'f'
    ensures CollectFeats("(" + (a + "[" + b + "]" + c) + ")", FeatPatterns) == []
  {
    var g := a + "[" + b + "]" + c;
    assert "(" + g + ")" == [] + "(" + g + ")";
    PiecesLackParentheses(a, b, c);
    GroupTakesNoTag(a, "[" + b + "]" + c);
    NoFeatsBeforeGroup([], g);
  }

  lemma PiecesLackParentheses(a: string, b: string, c: string)
    requires Bare(a) && Bare(b) && Bare(c)
    ensures var g := a + "[" + b + "]" + c; '(' !in g && ')' !in g
  {
  }

  /** The keyword passes keep the group, and the bracket pass removes the
      bracketed part. */
  lemma BracketInsideGroupPasses(a: string, b: string, c: string)
    requires |a| < 4 && |b| < 4 && |c| < 4 && Bare(a) && Bare(b) && Bare(c)
    ensures RemoveNoise("(" + (a + "[" + b + "]" + c) + ")", NoisePatterns) == "(" + (a + c) + ")"
  {
    var title := "(" + (a + "[" + b + "]" + c) + ")";
    forall i | 0 <= i < |NoisePatterns| - 1 ensures Sub(NoisePatterns[i], title) == title {
      KeywordPassKeepsGroup(i, a, b, c);
    }
    BracketPassInsideGroup(a, b, c);
    RemoveNoiseOnePass(title, NoisePatterns, |NoisePatterns| - 1, "(" + (a + c) + ")");
  }

  lemma KeywordPassKeepsGroup(i: nat, a: string, b: string, c: string)
    requires i < |NoisePatterns| - 1
    requires |a| < 4 && |b| < 4 && |c| < 4 && Bare(a) && Bare(b) && Bare(c)
    ensures var title := "(" + (a + "[" + b + "]" + c) + ")";
            Sub(NoisePatterns[i], title) == title
  {
    var p := NoisePatterns[i];
    var g := a + "[" + b + "]" + c;
    assert "(" + g + ")" == [] + "(" + g + ")";
    PiecesLackParentheses(a, b, c);
    NoiseKeywordsAreLong(i);
    NoiseKeywordsLackOpeningBracket(i);
    NoiseKeywordsLackClosingBracket(i);
    ShortPiecesHideKeyword(a, '[', b, ']', c, p.keyword);
    SubPrefixGroup(p, [], g);
  }

  /** No tag begins text whose first letter is not an `f`. */
  lemma GroupTakesNoTag(a: string, rest: string)
    requires a != [] && Lower(a[0]) != 'f'
    ensures var g := a + rest;
            !StartsWithIgnoringCase(g, "ft.") && !StartsWithIgnoringCase(g, "feat.") &&
            !StartsWithIgnoringCase(g, "featuring")
  {
    var g := a + rest;
    assert g[0] == a[0];
    StartsWithIgnoringCaseChars(g, "ft.");
    StartsWithIgnoringCaseChars(g, "feat.");
    StartsWithIgnoringCaseChars(g, "featuring");
  }

  lemma BracketPassInsideGroup(a: string, b: string, c: string)
    requires Bare(a) && Bare(b) && Bare(c)
    ensures Sub(Bracketed, "(" + (a + "[" + b + "]" + c) + ")") == "(" + (a + c) + ")"
  {
    BracketedGroupRegroup(a, b, c);
    SubSkipsPlain(Bracketed, "(" + a, "[" + b + "]" + (c + ")"));
    SubOfGroup(Bracketed, b, c + ")");
    SubPlain(Bracketed, c + ")");
  }

  lemma BracketedGroupRegroup(a: string, b: string, c: string)
    ensures "(" + (a + "[" + b + "]" + c) + ")" == ("(" + a) + ("[" + b + "]" + (c + ")"))
    ensures ("(" + a) + (c + ")") == "(" + (a + c) + ")"
  {
  }

  /** A parenthesised group without whitespace is its own normal form. */
  lemma GroupWithoutSpaceIsNormal(w: string)
    requires forall ch :: ch in w ==> !IsSpace(ch)
    ensures Normalize("(" + w + ")") == "(" + w + ")"
  {
    var r := "(" + w + ")";
    forall i | 0 <= i < |r| ensures !IsSpace(r[i]) {
      if 0 < i < |r| - 1 { assert r[i] == w[i - 1]; }
    }
    assert Normal(r);
    NormalizeFixesNormal(r);
  }


  /** A kept featured-artist group followed by a noise group: the noise
      group goes, the artist group stays where it was, and since it is
      already in the cleaned text it is not appended a second time:
      "Track (feat. Artist B) (Official Audio)" becomes
      "Track (feat. Artist B)". */
  lemma KeptCreditThenNoiseGroup(u: string, x: string, g: string)
    requires Normal(u) && u != [] && '(' !in u && '[' !in u
    requires Normal(x) && x != [] && '(' !in x && ')' !in x && '[' !in x
    requires !HoldsNoiseKeyword("feat. " + x)
    requires '(' !in g && ')' !in g && HoldsNoiseKeyword(g)
    requires !StartsWithIgnoringCase(g, "ft.") && !StartsWithIgnoringCase(g, "feat.")
    requires !StartsWithIgnoringCase(g, "featuring")
    ensures Clean(u + " (" + ("feat. " + x) + ") (" + g + ")") == u + " (" + ("feat. " + x) + ")"
  {
    TwoGroupsRegroup(u, "feat. " + x, g);
    CleanCreditThenNoise(u, x, g);
  }

  /** The same, with the title cut into the text before the artist group,
      that group, and the rest. */
  lemma CleanCreditThenNoise(u: string, x: string, g: string)
    requires Normal(u) && u != [] && '(' !in u && '[' !in u
    requires Normal(x) && x != [] && '(' !in x && ')' !in x && '[' !in x
    requires !HoldsNoiseKeyword("feat. " + x)
    requires '(' !in g && ')' !in g && HoldsNoiseKeyword(g)
    requires !StartsWithIgnoringCase(g, "ft.") && !StartsWithIgnoringCase(g, "feat.")
    requires !StartsWithIgnoringCase(g, "featuring")
    ensures var grp := "(" + ("feat. " + x) + ")";
            Clean((u + " ") + grp + (" " + "(" + g + ")")) == u + " " + grp
  {
    var grp := "(" + ("feat. " + x) + ")";
    var title := (u + " ") + grp + (" " + "(" + g + ")");
    SpaceAfterPlain(u);
    CreditThenNoiseFeats(u + " ", x, g);
    CreditThenNoiseBase(u, x, g);
    AppendPresentFeat(u, grp);
    CleanOfParts(title, u + " " + grp, [grp]);
  }

  /** The removal and whitespace steps leave the text before the artist
      group and that group. */
  lemma CreditThenNoiseBase(u: string, x: string, g: string)
    requires Normal(u) && u != [] && '(' !in u && '[' !in u
    requires Normal(x) && x != [] && '(' !in x && ')' !in x && '[' !in x
    requires !HoldsNoiseKeyword("feat. " + x)
    requires '(' !in g && ')' !in g && HoldsNoiseKeyword(g)
    ensures var grp := "(" + ("feat. " + x) + ")";
            Normalize(RemoveNoise((u + " ") + grp + (" " + "(" + g + ")"), NoisePatterns)) == u + " " + grp
  {
    var f := "feat. " + x;
    var grp := "(" + f + ")";
    SpaceAfterPlain(u);
    FeatTextPlain(x);
    CreditThenNoiseRemoval(u + " ", f, g);
    assert (u + " ") + grp + " " == u + " " + grp + " ";
    CreditGroupNormal(u, x);
    NormalizeDropsTrailingSpace(u + " " + grp);
  }

  lemma SpaceAfterPlain(u: string)
    requires '(' !in u && '[' !in u
    ensures '(' !in u + " " && '[' !in u + " "
  {
  }

  lemma FeatTextPlain(x: string)
    requires '(' !in x && ')' !in x && '[' !in x
    ensures var f := "feat. " + x; '(' !in f && ')' !in f && '[' !in f
  {
  }

  lemma TwoGroupsRegroup(u: string, f: string, g: string)
    ensures u + " (" + f + ") (" + g + ")" == (u + " ") + ("(" + f + ")") + (" " + "(" + g + ")")
    ensures u + " (" + f + ")" == u + " " + ("(" + f + ")")
  {
  }

  /** Only the artist group is collected. */
  lemma CreditThenNoiseFeats(h: string, x: string, g: string)
    requires '(' !in h && '(' !in x && ')' !in x && '(' !in g && ')' !in g
    requires !StartsWithIgnoringCase(g, "ft.") && !StartsWithIgnoringCase(g, "feat.")
    requires !StartsWithIgnoringCase(g, "featuring")
    ensures var grp := "(" + ("feat. " + x) + ")";
            CollectFeats(h + grp + (" " + "(" + g + ")"), FeatPatterns) == [grp]
  {
    var f := "feat. " + x;
    var grp := "(" + f + ")";
    FeatTagBegins(x);
    FeatTagIsNotFt(x);
    FeatTagIsNotFeaturing(x);
    assert '(' !in f && ')' !in f;
    CreditFindAll(Credit("ft."), h, f, g);
    CreditFindAll(Credit("feat."), h, f, g);
    CreditFindAll(Credit("featuring"), h, f, g);
    CollectFeatsOrder(h + grp + (" " + "(" + g + ")"));
  }

  /** One credit pass over a plain prefix, a group and a final group it
      does not admit. */
  lemma CreditFindAll(p: Pattern, h: string, f: string, g: string)
    requires p.Credit? && '(' !in h && '(' !in f && ')' !in f && '(' !in g && ')' !in g
    requires !p.Admits(g)
    ensures var grp := "(" + f + ")";
            FindAll(p, h + grp + (" " + "(" + g + ")")) == if p.Admits(f) then [grp] else []
  {
    var grp := "(" + f + ")";
    var tail := " " + "(" + g + ")";
    assert grp == [p.Opener()] + f + [p.Closer()];
    assert h + grp + tail == h + (grp + tail);
    FindAllSkipsPlain(p, h, grp + tail);
    FindAllOfGroup(p, f, tail);
    FindAllPrefixGroup(p, " ", g);
    assert (if p.Admits(f) then [grp] else []) + [] == if p.Admits(f) then [grp] else [];
  }

  /** The removal passes keep a group holding no keyword and drop the final
      group that holds one. */
  lemma CreditThenNoiseRemoval(h: string, f: string, g: string)
    requires '(' !in h && '[' !in h && '(' !in f && ')' !in f && '[' !in f
    requires '(' !in g && ')' !in g && HoldsNoiseKeyword(g) && !HoldsNoiseKeyword(f)
    ensures RemoveNoise(h + ("(" + f + ")") + (" " + "(" + g + ")"), NoisePatterns) == h + ("(" + f + ")") + " "
  {
    var k :| k in NoiseKeywords && ContainsIgnoringCase(g, k);
    var m :| 0 <= m < 7 && NoiseKeywords[m] == k;
    KeywordPasses(m);
    NoPassAdmits(f);
    PassesKeepCreditRemoveFinal(h, f, g, NoisePatterns, 2 * m);
  }

  /** Text holding no keyword is admitted by no keyword pass, in either
      spelling. */
  lemma NoPassAdmits(f: string)
    requires !HoldsNoiseKeyword(f)
    ensures forall j :: 0 <= j < |NoisePatterns| && !NoisePatterns[j].Bracketed? ==> !NoisePatterns[j].Admits(f)
  {
    forall j | 0 <= j < |NoisePatterns| && !NoisePatterns[j].Bracketed?
      ensures !NoisePatterns[j].Admits(f)
    {
      PassDoesNotAdmit(f, j);
    }
  }

  lemma PassDoesNotAdmit(f: string, j: nat)
    requires !HoldsNoiseKeyword(f) && j < |NoisePatterns| && !NoisePatterns[j].Bracketed?
    ensures !NoisePatterns[j].Admits(f)
  {
    var m := j / 2;
    assert m < 7;
    assert NoiseKeywords[m] in NoiseKeywords;
    if j == 2 * m {
      KeywordPasses(m);
    } else {
      CapitalisedKeyword(m);
      ContainsIgnoringCaseRespectsCase(f, NoiseKeywords[m], NoisePatterns[2 * m + 1].keyword);
    }
  }

  /** The odd passes look for the same keywords, capitalised. */
  lemma CapitalisedKeyword(m: nat)
    requires m < 7
    ensures NoisePatterns[2 * m + 1].Noise?
    ensures SameIgnoringCase(NoiseKeywords[m], NoisePatterns[2 * m + 1].keyword)
  {
  }

  /** The chain of passes, when pass `i` is the first to admit the final
      group and no pass admits the earlier one. */
  lemma {:induction false} PassesKeepCreditRemoveFinal(h: string, f: string, g: string, pats: seq<Pattern>, i: nat)
    requires '(' !in h && '[' !in h && '(' !in f && ')' !in f && '[' !in f && '(' !in g && ')' !in g
    requires i < |pats| && pats[i].Noise? && pats[i].Admits(g)
    requires forall j :: 0 <= j < i ==> pats[j].Noise?
    requires forall j :: 0 <= j < |pats| && !pats[j].Bracketed? ==> !pats[j].Admits(f)
    ensures RemoveNoise(h + ("(" + f + ")") + (" " + "(" + g + ")"), pats) == h + ("(" + f + ")") + " "
    decreases i
  {
    KeptGroupPass(pats[0], h, f, g);
    if pats[0].Admits(g) {
      PassesKeepCredit(h, f, pats[1..]);
    } else {
      PassesKeepCreditRemoveFinal(h, f, g, pats[1..], i - 1);
    }
  }

  /** One keyword pass that does not admit the first group. */
  lemma KeptGroupPass(p: Pattern, h: string, f: string, g: string)
    requires p.Noise? && !p.Admits(f)
    requires '(' !in h && '(' !in f && ')' !in f && '(' !in g && ')' !in g
    ensures var grp := "(" + f + ")";
            var tail := " " + "(" + g + ")";
            Sub(p, h + grp + tail) == h + grp + (if p.Admits(g) then " " else tail)
  {
    var grp := "(" + f + ")";
    var tail := " " + "(" + g + ")";
    assert grp == [p.Opener()] + f + [p.Closer()];
    assert h + grp + tail == h + (grp + tail);
    SubSkipsPlain(p, h, grp + tail);
    SubOfGroup(p, f, tail);
    SubPrefixGroup(p, " ", g);
    var rest := if p.Admits(g) then " " else tail;
    assert h + (grp + rest) == h + grp + rest;
  }

  /** Passes that do not admit the group leave the text as it is. */
  lemma {:induction false} PassesKeepCredit(h: string, f: string, pats: seq<Pattern>)
    requires '(' !in h && '[' !in h && '(' !in f && ')' !in f && '[' !in f
    requires forall j :: 0 <= j < |pats| && !pats[j].Bracketed? ==> !pats[j].Admits(f)
    ensures RemoveNoise(h + ("(" + f + ")") + " ", pats) == h + ("(" + f + ")") + " "
    decreases |pats|
  {
    if pats != [] {
      KeepsGroupPass(pats[0], h, f);
      PassesKeepCredit(h, f, pats[1..]);
    }
  }

  lemma KeepsGroupPass(p: Pattern, h: string, f: string)
    requires !p.Bracketed? ==> !p.Admits(f)
    requires '(' !in h && '[' !in h && '(' !in f && ')' !in f && '[' !in f
    ensures Sub(p, h + ("(" + f + ")") + " ") == h + ("(" + f + ")") + " "
  {
    var grp := "(" + f + ")";
    if p.Bracketed? {
      assert '[' !in h + grp + " ";
      SubPlain(p, h + grp + " ");
    } else {
      assert grp == [p.Opener()] + f + [p.Closer()];
      assert h + grp + " " == h + (grp + " ");
      SubSkipsPlain(p, h, grp + " ");
      SubOfGroup(p, f, " ");
      SubPlain(p, " ");
    }
  }

  /** The title, one space and the artist group are in normal form. */
  lemma CreditGroupNormal(u: string, x: string)
    requires Normal(u) && u != [] && Normal(x) && x != []
    ensures Normal(u + " " + ("(" + ("feat. " + x) + ")"))
  {
    NoSpaceIsNormal("feat.");
    NormalJoin("feat.", x);
    assert "feat." + " " + x == "feat. " + x;
    NormalInGroup("feat. " + x);
    NormalJoin(u, "(" + ("feat. " + x) + ")");
  }

  lemma NoSpaceIsNormal(w: string)
    requires forall ch :: ch in w ==> !IsSpace(ch)
    ensures Normal(w)
  {
  }

  /** Two texts in normal form joined by one space. */
  lemma NormalJoin(x: string, y: string)
    requires Normal(x) && Normal(y) && x != [] && y != []
    ensures Normal(x + " " + y)
  {
    NormalizeJoinsWithOneSpace(x, " ", y);
    NormalizeIsNormal(x + " " + y);
  }

  /** Parentheses around text in normal form. */
  lemma NormalInGroup(w: string)
    requires Normal(w)
    ensures Normal("(" + w + ")")
  {
    var r := "(" + w + ")";
    forall i | 0 <= i < |r| && IsSpace(r[i])
      ensures r[i] == ' ' && (i + 1 < |r| ==> !IsSpace(r[i + 1]))
    {
      assert r[i] == w[i - 1];
      if i + 1 < |r| - 1 { assert r[i + 1] == w[i]; }
    }
  }

  /** An annotation already in the text is not appended again. */
  lemma AppendPresentFeat(u: string, grp: string)
    ensures AppendFeats(u + " " + grp, [grp]) == u + " " + grp
  {
    ContainsSuffix(u + " ", grp);
    assert [grp][1..] == [];
  }

  /** The case itself. */
  lemma FeatThenOfficialAudio()
    ensures Clean("Track" + " (" + ("feat. " + ("Artist" + " B")) + ") (" + ("Official" + " Audio") + ")")
            == "Track" + " (" + ("feat. " + ("Artist" + " B")) + ")"
  {
    TrackFacts();
    ArtistFacts();
    ArtistHoldsNoKeyword();
    OfficialAudioHoldsOfficial();
    OfficialAudioTags();
    KeywordHeld("Official" + " Audio", 1);
    KeptCreditThenNoiseGroup("Track", "Artist" + " B", "Official" + " Audio");
  }

  lemma TrackFacts()
    ensures Normal("Track") && "Track" != [] && '(' !in "Track" && '[' !in "Track"
  {
    NoSpaceIsNormal("Track");
  }

  lemma ArtistFacts()
    ensures var x := "Artist" + " B";
            Normal(x) && x != [] && '(' !in x && ')' !in x && '[' !in x
  {
    NoSpaceIsNormal("Artist");
    NoSpaceIsNormal("B");
    NormalJoin("Artist", "B");
    assert "Artist" + " " + "B" == "Artist" + " B";
  }

  lemma ArtistHoldsNoKeyword()
    ensures !HoldsNoiseKeyword("feat. " + ("Artist" + " B"))
  {
    var f := "feat. " + ("Artist" + " B");
    ArtistLacksLetters();
    MissingLetterMeansNoKeyword(f, "audio", 1);
    MissingLetterMeansNoKeyword(f, "official", 0);
    MissingLetterMeansNoKeyword(f, "video", 4);
    MissingLetterMeansNoKeyword(f, "from", 2);
    MissingLetterMeansNoKeyword(f, "movie", 1);
    MissingLetterMeansNoKeyword(f, "lyric", 1);
    MissingLetterMeansNoKeyword(f, "version", 5);
  }

  /** No `u`, `o` or `y` in the artist group, in either case. */
  lemma ArtistLacksLetters()
    ensures var f := "feat. " + ("Artist" + " B");
            'u' !in f && 'U' !in f && 'o' !in f && 'O' !in f && 'y' !in f && 'Y' !in f
  {
    var f := "feat. " + ("Artist" + " B");
    forall i | 0 <= i < |f|
      ensures f[i] != 'u' && f[i] != 'U' && f[i] != 'o' && f[i] != 'O' && f[i] != 'y' && f[i] != 'Y'
    {
      if i < 6 { assert f[i] == "feat. "[i]; }
      else if i < 12 { assert f[i] == "Artist"[i - 6]; }
      else { assert f[i] == " B"[i - 12]; }
    }
  }

  lemma OfficialAudioHoldsOfficial()
    ensures ContainsIgnoringCase("Official" + " Audio", "official")
  {
    assert StartsWithIgnoringCase("Official", "official");
    StartsWithIgnoringCaseExtend("Official", " Audio", "official");
  }

  lemma OfficialAudioTags()
    ensures var g := "Official" + " Audio";
            '(' !in g && ')' !in g && !StartsWithIgnoringCase(g, "ft.") &&
            !StartsWithIgnoringCase(g, "feat.") && !StartsWithIgnoringCase(g, "featuring")
  {
  }
}
