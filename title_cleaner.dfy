/** `clean_title` (main.py:23-53): collect the featured-artist annotations,
    strip the noise groups pass by pass, normalise whitespace, and append
    back each annotation the stripping lost. */
module TitleCleaner {
  import opened Strings
  import opened Patterns
  import opened Whitespace

  /** `patterns_to_remove`, in the order the passes run: each keyword twice
      (lower case, then capitalised) and the bracket pattern last. */
  const NoisePatterns: seq<Pattern> := [
    Noise("audio"), Noise("Audio"),
    Noise("official"), Noise("Official"),
    Noise("video"), Noise("Video"),
    Noise("from"), Noise("From"),
    Noise("movie"), Noise("Movie"),
    Noise("lyric"), Noise("Lyric"),
    Noise("version"), Noise("Version"),
    Bracketed
  ]

  /** `feat_patterns`, in the order their matches are collected. */
  const FeatPatterns: seq<Pattern> := [Credit("ft."), Credit("feat."), Credit("featuring")]

  /** The `findall` results of every pattern, pattern after pattern, each
      list in left-to-right order. */
  function CollectFeats(title: string, pats: seq<Pattern>): (feats: seq<string>)
  {
    if pats == [] then [] else FindAll(pats[0], title) + CollectFeats(title, pats[1..])
  }

  /** The removal passes in order, each over the previous pass's output. */
  function RemoveNoise(s: string, pats: seq<Pattern>): (r: string)
    decreases pats
  {
    if pats == [] then s else RemoveNoise(Sub(pats[0], s), pats[1..])
  }

  /** The re-append loop: each annotation not already present verbatim (case
      sensitively) in the text built so far is added after one space. */
  function AppendFeats(t: string, feats: seq<string>): (r: string)
    decreases feats
  {
    if feats == [] then t
    else AppendFeats(if Contains(t, feats[0]) then t else t + " " + feats[0], feats[1..])
  }

  /** What `clean_title` returns. */
  function Clean(title: string): (cleaned: string)
  {
    AppendFeats(Normalize(RemoveNoise(title, NoisePatterns)), CollectFeats(title, FeatPatterns))
  }

  /** `clean_title` as written: collect, strip, normalise, re-append. */
  method CleanTitle(title: string) returns (cleaned: string)
    ensures cleaned == Clean(title)
  {
    var featMatches := CollectFeatMatches(title, FeatPatterns);
    cleaned := RunRemovalPasses(title, NoisePatterns);
    cleaned := Normalize(cleaned);
    cleaned := AppendMissingFeats(cleaned, featMatches);
  }

  /** The loop that extends `feat_matches` with each pattern's `findall`. */
  method CollectFeatMatches(title: string, pats: seq<Pattern>) returns (featMatches: seq<string>)
    ensures featMatches == CollectFeats(title, pats)
  {
    featMatches := [];
    for k := 0 to |pats|
      invariant featMatches + CollectFeats(title, pats[k..]) == CollectFeats(title, pats)
    {
      var matches := FindAll(pats[k], title);
      assert pats[k..][1..] == pats[k + 1..];
      featMatches := featMatches + matches;
    }
  }

  /** The loop that reassigns `cleaned_title` once per removal pattern. */
  method RunRemovalPasses(title: string, pats: seq<Pattern>) returns (cleaned: string)
    ensures cleaned == RemoveNoise(title, pats)
  {
    cleaned := title;
    for k := 0 to |pats|
      invariant RemoveNoise(cleaned, pats[k..]) == RemoveNoise(title, pats)
    {
      assert pats[k..][1..] == pats[k + 1..];
      cleaned := Sub(pats[k], cleaned);
    }
  }

  /** The loop that appends each annotation missing from the result. */
  method AppendMissingFeats(base: string, featMatches: seq<string>) returns (cleaned: string)
    ensures cleaned == AppendFeats(base, featMatches)
  {
    cleaned := base;
    for k := 0 to |featMatches|
      invariant AppendFeats(cleaned, featMatches[k..]) == AppendFeats(base, featMatches)
    {
      var feat := featMatches[k];
      assert featMatches[k..][1..] == featMatches[k + 1..];
      if !Contains(cleaned, feat) {
        cleaned := cleaned + " " + feat;
      }
    }
  }

  /** Running the passes of `a` and then those of `b` is running `a + b`. */
  lemma {:induction false} RemoveNoiseSplit(s: string, a: seq<Pattern>, b: seq<Pattern>)
    ensures RemoveNoise(s, a + b) == RemoveNoise(RemoveNoise(s, a), b)
    decreases a
  {
    if a != [] {
      assert (a + b)[0] == a[0] && (a + b)[1..] == a[1..] + b;
      RemoveNoiseSplit(Sub(a[0], s), a[1..], b);
    } else {
      assert a + b == b;
    }
  }

  /** Passes that each leave `s` alone leave it alone together. */
  lemma {:induction false} RemoveNoiseUnchanged(s: string, pats: seq<Pattern>)
    requires forall p :: p in pats ==> Sub(p, s) == s
    ensures RemoveNoise(s, pats) == s
    decreases pats
  {
    if pats != [] {
      assert pats[0] in pats;
      RemoveNoiseUnchanged(s, pats[1..]);
    }
  }

  /** A title with no `(` and no `[` gives every pass nothing to remove. */
  lemma RemoveNoisePlain(s: string, pats: seq<Pattern>)
    requires '(' !in s && '[' !in s
    ensures RemoveNoise(s, pats) == s
  {
    forall p | p in pats ensures Sub(p, s) == s {
      SubSkipsPlain(p, s, []);
      assert s + [] == s;
    }
    RemoveNoiseUnchanged(s, pats);
  }

  /** Patterns that find nothing contribute no annotation. */
  lemma {:induction false} CollectFeatsNone(title: string, pats: seq<Pattern>)
    requires forall p :: p in pats ==> FindAll(p, title) == []
    ensures CollectFeats(title, pats) == []
    decreases pats
  {
    if pats != [] {
      assert pats[0] in pats;
      CollectFeatsNone(title, pats[1..]);
    }
  }

  /** Without a `(` the title carries no featured-artist annotation. */
  lemma CollectFeatsPlain(title: string)
    requires '(' !in title
    ensures CollectFeats(title, FeatPatterns) == []
  {
    forall p | p in FeatPatterns ensures FindAll(p, title) == [] {
      FindAllSkipsPlain(p, title, []);
      assert title + [] == title;
    }
    CollectFeatsNone(title, FeatPatterns);
  }

  /** A title with no `(` and no `[` only has its whitespace normalised, so
      a title already in normal form comes back unchanged. */
  lemma CleanPlainTitle(title: string)
    requires '(' !in title && '[' !in title
    ensures Clean(title) == Normalize(title)
    ensures Normal(title) ==> Clean(title) == title
  {
    RemoveNoisePlain(title, NoisePatterns);
    CollectFeatsPlain(title);
    if Normal(title) {
      NormalizeFixesNormal(title);
    }
  }

  /** Every collected annotation is a verbatim piece of the title and one
      whole match of one of the patterns. */
  lemma {:induction false} CollectFeatsVerbatim(title: string, pats: seq<Pattern>)
    ensures forall f :: f in CollectFeats(title, pats) ==>
      Contains(title, f) && exists p :: p in pats && MatchesPrefix(p, f, |f|)
    decreases pats
  {
    if pats != [] {
      FindAllVerbatim(pats[0], title);
      CollectFeatsVerbatim(title, pats[1..]);
      assert pats[0] in pats;
      assert forall p :: p in pats[1..] ==> p in pats;
    }
  }

  /** The annotations the re-append loop actually adds, in the order it adds
      them. */
  function Appended(t: string, feats: seq<string>): (added: seq<string>)
    decreases feats
  {
    if feats == [] then []
    else if Contains(t, feats[0]) then Appended(t, feats[1..])
    else [feats[0]] + Appended(t + " " + feats[0], feats[1..])
  }

  /** Each piece preceded by one space. */
  function Joined(pieces: seq<string>): (r: string)
  {
    if pieces == [] then [] else " " + pieces[0] + Joined(pieces[1..])
  }

  /** The re-append loop only ever adds text: it returns the text it was
      given followed by one space and one annotation per annotation it
      adds. Those are some of the annotations, in their order, none twice,
      and none already present in the text it was given; and every
      annotation is present in the result. */
  lemma {:induction false} AppendFeatsShape(t: string, feats: seq<string>)
    ensures AppendFeats(t, feats) == t + Joined(Appended(t, feats))
    ensures SubsequenceOf(Appended(t, feats), feats)
    ensures forall f :: f in Appended(t, feats) ==> !Contains(t, f)
    ensures forall i, j :: 0 <= i < j < |Appended(t, feats)| ==>
      Appended(t, feats)[i] != Appended(t, feats)[j]
    ensures forall f :: f in feats ==> Contains(AppendFeats(t, feats), f)
    decreases feats
  {
    if feats != [] {
      var f := feats[0];
      var rest := feats[1..];
      assert feats == [f] + rest;
      if Contains(t, f) {
        AppendFeatsShape(t, rest);
        assert SubsequenceOf(Appended(t, rest), feats) by {
          assert feats[1..] == rest;
        }
        AppendFeatsKeeps(t, rest, f);
      } else {
        var t' := t + " " + f;
        AppendFeatsShape(t', rest);
        var a := Appended(t', rest);
        assert Appended(t, feats) == [f] + a;
        assert t' + Joined(a) == t + Joined([f] + a);
        AbsentFromExtended(t, f, a);
        assert SubsequenceOf([f] + a, feats) by {
          assert ([f] + a)[1..] == a;
        }
        ContainsSuffix(t + " ", f);
        AppendFeatsKeeps(t', rest, f);
      }
    }
  }

  /** What is absent from the text once an annotation has been appended
      was absent before, and is not that annotation. */
  lemma AbsentFromExtended(t: string, f: string, a: seq<string>)
    requires forall g :: g in a ==> !Contains(t + " " + f, g)
    ensures forall g :: g in a ==> !Contains(t, g) && g != f
  {
    ContainsSuffix(t + " ", f);
    forall g | g in a ensures !Contains(t, g) {
      if Contains(t, g) {
        assert t + (" " + f) == t + " " + f;
        ContainsPrefixOf(t, " " + f, g);
      }
    }
  }

  /** Text present before the re-append loop is still present after it. */
  lemma {:induction false} AppendFeatsKeeps(t: string, feats: seq<string>, f: string)
    requires Contains(t, f)
    ensures Contains(AppendFeats(t, feats), f)
    decreases feats
  {
    if feats != [] {
      if !Contains(t, feats[0]) {
        ContainsPrefixOf(t, " " + feats[0], f);
        assert t + (" " + feats[0]) == t + " " + feats[0];
      }
      AppendFeatsKeeps(if Contains(t, feats[0]) then t else t + " " + feats[0], feats[1..], f);
    }
  }

  /** What `clean_title` returns is a title in normal form (no whitespace at
      either end, single plain spaces inside) followed by one space and one
      annotation per annotation that normalisation lost, in the order they
      were collected, none twice; every collected annotation, each a
      verbatim piece of the input, is present in the result. */
  lemma CleanShape(title: string)
    ensures var base := Normalize(RemoveNoise(title, NoisePatterns));
            var feats := CollectFeats(title, FeatPatterns);
            Normal(base) &&
            Clean(title) == base + Joined(Appended(base, feats)) &&
            SubsequenceOf(Appended(base, feats), feats) &&
            (forall f :: f in Appended(base, feats) ==> !Contains(base, f)) &&
            (forall i, j :: 0 <= i < j < |Appended(base, feats)| ==>
               Appended(base, feats)[i] != Appended(base, feats)[j]) &&
            (forall f :: f in feats ==> Contains(title, f) && Contains(Clean(title), f))
  {
    var r := RemoveNoise(title, NoisePatterns);
    var feats := CollectFeats(title, FeatPatterns);
    assert Clean(title) == AppendFeats(Normalize(r), feats);
    CollectFeatsVerbatim(title, FeatPatterns);
    NormalizedShape(title, r, feats);
  }

  /** The shape of re-appending annotations taken from `title` to the
      normal form of any text `r`. */
  lemma NormalizedShape(title: string, r: string, feats: seq<string>)
    requires forall f :: f in feats ==> Contains(title, f)
    ensures var base := Normalize(r);
            Normal(base) &&
            AppendFeats(base, feats) == base + Joined(Appended(base, feats)) &&
            SubsequenceOf(Appended(base, feats), feats) &&
            (forall f :: f in Appended(base, feats) ==> !Contains(base, f)) &&
            (forall i, j :: 0 <= i < j < |Appended(base, feats)| ==>
               Appended(base, feats)[i] != Appended(base, feats)[j]) &&
            (forall f :: f in feats ==> Contains(title, f) && Contains(AppendFeats(base, feats), f))
  {
    NormalizeIsNormal(r);
    AppendFeatsShape(Normalize(r), feats);
  }

  /** The bracket pass runs last, so the text the passes leave has no
      square-bracketed group: no `[` is followed anywhere by a `]`. */
  lemma RemoveNoiseLeavesNoBrackets(title: string)
    ensures var r := RemoveNoise(title, NoisePatterns);
            forall i, j :: 0 <= i < j < |r| && r[i] == '[' ==> r[j] != ']'
  {
    assert NoisePatterns == NoisePatterns[..14] + [Bracketed];
    RemoveNoiseSplit(title, NoisePatterns[..14], [Bracketed]);
    var before := RemoveNoise(title, NoisePatterns[..14]);
    assert RemoveNoise(before, [Bracketed]) == Sub(Bracketed, before);
    SubLeavesNoMatch(Bracketed, before);
    NoBracketGroupLeft(Sub(Bracketed, before));
  }
  /** When only pass `k` changes anything, the passes together do what it
      does. */
  lemma RemoveNoiseOnePass(s: string, pats: seq<Pattern>, k: nat, r: string)
    requires k < |pats|
    requires forall i :: 0 <= i < k ==> Sub(pats[i], s) == s
    requires Sub(pats[k], s) == r
    requires forall i :: k < i < |pats| ==> Sub(pats[i], r) == r
    ensures RemoveNoise(s, pats) == r
  {
    var rest := pats[k + 1..];
    assert pats == pats[..k] + ([pats[k]] + rest);
    RemoveNoiseSplit(s, pats[..k], [pats[k]] + rest);
    assert forall p :: p in pats[..k] ==> Sub(p, s) == s;
    RemoveNoiseUnchanged(s, pats[..k]);
    assert ([pats[k]] + rest)[1..] == rest;
    assert forall p :: p in rest ==> Sub(p, r) == r;
    RemoveNoiseUnchanged(r, rest);
  }

  /** The annotations come out pattern by pattern: every `ft.` group, then
      every `feat.` group, then every `featuring` group. */
  lemma CollectFeatsOrder(title: string)
    ensures CollectFeats(title, FeatPatterns)
      == FindAll(Credit("ft."), title) + FindAll(Credit("feat."), title)
         + FindAll(Credit("featuring"), title)
  {
    var pats := FeatPatterns;
    var ft, feat, featuring := FindAll(pats[0], title), FindAll(pats[1], title), FindAll(pats[2], title);
    assert pats[1..][1..][1..] == [];
    assert CollectFeats(title, pats[1..][1..]) == featuring + [];
    assert CollectFeats(title, pats[1..]) == feat + featuring;
    assert CollectFeats(title, pats) == ft + (feat + featuring);
  }
}
