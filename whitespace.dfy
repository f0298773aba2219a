/** The whitespace step of `clean_title`: `re.sub(r'\s+', ' ', s).strip()`.
    Every run of whitespace becomes one plain space, then whitespace is cut
    from both ends. */
module Whitespace {
  import opened Strings

  /** `s.lstrip()`: the suffix of `s` that starts at its first non-space. */
  function TrimStart(s: string): (r: string)
    ensures |r| <= |s| && r == s[|s| - |r|..]
    ensures s != [] && IsSpace(s[0]) ==> |r| < |s|
    ensures r == [] || !IsSpace(r[0])
    ensures forall i :: 0 <= i < |s| - |r| ==> IsSpace(s[i])
    decreases |s|
  {
    if s != [] && IsSpace(s[0]) then
      var r := TrimStart(s[1..]);
      assert s[1..][|s| - 1 - |r|..] == s[|s| - |r|..];
      assert forall i :: 1 <= i < |s| - |r| ==> s[i] == s[1..][i - 1];
      r
    else s
  }

  /** `s.rstrip()`: the prefix of `s` that ends at its last non-space. */
  function TrimEnd(s: string): (r: string)
    ensures |r| <= |s| && r == s[..|r|]
    ensures r == [] || !IsSpace(r[|r| - 1])
    ensures forall i :: |r| <= i < |s| ==> IsSpace(s[i])
    decreases |s|
  {
    if s != [] && IsSpace(s[|s| - 1]) then TrimEnd(s[..|s| - 1]) else s
  }

  /** `s.strip()`. */
  function Strip(s: string): (r: string)
  {
    TrimEnd(TrimStart(s))
  }

  /** `re.sub(r'\s+', ' ', s)`: each maximal run of whitespace, one
      character or many, is replaced by a single `' '`. */
  function Collapse(s: string): (r: string)
    decreases |s|
  {
    if s == [] then []
    else if IsSpace(s[0]) then [' '] + Collapse(TrimStart(s))
    else [s[0]] + Collapse(s[1..])
  }

  /** The whitespace step as `clean_title` applies it. */
  function Normalize(s: string): (r: string)
  {
    Strip(Collapse(s))
  }

  /** Every whitespace character is a plain space, and no two are adjacent. */
  ghost predicate Collapsed(s: string)
  {
    forall i :: 0 <= i < |s| && IsSpace(s[i]) ==>
      s[i] == ' ' && (i + 1 < |s| ==> !IsSpace(s[i + 1]))
  }

  /** Collapsed, and neither end is whitespace. */
  ghost predicate Normal(s: string)
  {
    Collapsed(s) && (s != [] ==> !IsSpace(s[0]) && !IsSpace(s[|s| - 1]))
  }

  /** The characters of `s` that are not whitespace, in order. */
  function Visible(s: string): (r: string)
    decreases |s|
  {
    if s == [] then [] else (if IsSpace(s[0]) then [] else [s[0]]) + Visible(s[1..])
  }

  /** `Collapse` keeps the first character unless it is whitespace. */
  lemma CollapseHead(s: string)
    requires s != []
    ensures Collapse(s) != [] && (IsSpace(Collapse(s)[0]) <==> IsSpace(s[0]))
  {
  }

  lemma {:induction false} CollapseIsCollapsed(s: string)
    ensures Collapsed(Collapse(s))
    decreases |s|
  {
    if s != [] {
      var t := if IsSpace(s[0]) then TrimStart(s) else s[1..];
      CollapseIsCollapsed(t);
      var c := Collapse(s);
      assert c[1..] == Collapse(t);
      forall i | 0 <= i < |c| && IsSpace(c[i])
        ensures c[i] == ' ' && (i + 1 < |c| ==> !IsSpace(c[i + 1]))
      {
        if i == 0 && IsSpace(s[0]) && i + 1 < |c| {
          CollapseHead(t);
          assert c[1] == Collapse(t)[0];
        } else if i > 0 {
          assert c[i] == Collapse(t)[i - 1];
        }
      }
    }
  }

  /** Any slice of a collapsed string is collapsed. */
  lemma CollapsedSlice(s: string, lo: nat, hi: nat)
    requires Collapsed(s) && lo <= hi <= |s|
    ensures Collapsed(s[lo..hi])
  {
    var t := s[lo..hi];
    forall i | 0 <= i < |t| && IsSpace(t[i])
      ensures t[i] == ' ' && (i + 1 < |t| ==> !IsSpace(t[i + 1]))
    {
      assert t[i] == s[lo + i];
      if i + 1 < |t| { assert t[i + 1] == s[lo + i + 1]; }
    }
  }

  /** The result of the whitespace step has no whitespace at either end and
      no two whitespace characters side by side, and its only whitespace is
      the plain space. */
  lemma NormalizeIsNormal(s: string)
    ensures Normal(Normalize(s))
  {
    CollapseIsCollapsed(s);
    StripOfCollapsedIsNormal(Collapse(s));
  }

  lemma StripOfCollapsedIsNormal(c: string)
    requires Collapsed(c)
    ensures Normal(Strip(c))
  {
    var a := TrimStart(c);
    TrimStartKeepsCollapsed(c);
    var b := TrimEnd(a);
    TrimEndKeepsCollapsed(a);
    if b != [] {
      assert b[0] == a[0];
    }
  }

  lemma TrimStartKeepsCollapsed(c: string)
    requires Collapsed(c)
    ensures Collapsed(TrimStart(c))
  {
    CollapsedSlice(c, |c| - |TrimStart(c)|, |c|);
  }

  lemma TrimEndKeepsCollapsed(a: string)
    requires Collapsed(a)
    ensures Collapsed(TrimEnd(a))
  {
    CollapsedSlice(a, 0, |TrimEnd(a)|);
  }

  /** A string already in normal form passes through `Collapse` untouched. */
  lemma {:induction false} CollapseFixesCollapsed(s: string)
    requires Collapsed(s)
    ensures Collapse(s) == s
    decreases |s|
  {
    if s != [] {
      CollapsedSlice(s, 1, |s|);
      if IsSpace(s[0]) {
        assert |s| > 1 ==> !IsSpace(s[1]);
        assert TrimStart(s) == s[1..] by {
          assert TrimStart(s) == TrimStart(s[1..]);
        }
      }
      CollapseFixesCollapsed(s[1..]);
    }
  }

  /** A title already in normal form is returned unchanged. */
  lemma NormalizeFixesNormal(s: string)
    requires Normal(s)
    ensures Normalize(s) == s
  {
    CollapseFixesCollapsed(s);
  }

  lemma {:induction false} VisibleConcat(a: string, b: string)
    ensures Visible(a + b) == Visible(a) + Visible(b)
    decreases |a|
  {
    if a != [] {
      var head := if IsSpace(a[0]) then [] else [a[0]];
      assert (a + b)[0] == a[0];
      assert (a + b)[1..] == a[1..] + b;
      VisibleConcat(a[1..], b);
      calc {
        Visible(a + b);
        head + Visible(a[1..] + b);
        head + (Visible(a[1..]) + Visible(b));
        (head + Visible(a[1..])) + Visible(b);
      }
    } else {
      assert a + b == b;
    }
  }

  /** A string of whitespace only has nothing visible. */
  lemma {:induction false} VisibleOfSpaces(s: string)
    requires forall i :: 0 <= i < |s| ==> IsSpace(s[i])
    ensures Visible(s) == []
    decreases |s|
  {
    if s != [] {
      VisibleOfSpaces(s[1..]);
    }
  }

  lemma {:induction false} CollapseKeepsVisible(s: string)
    ensures Visible(Collapse(s)) == Visible(s)
    decreases |s|
  {
    if s != [] {
      if IsSpace(s[0]) {
        var t := TrimStart(s);
        CollapseKeepsVisible(t);
        assert s == s[..|s| - |t|] + t;
        VisibleConcat(s[..|s| - |t|], t);
        VisibleOfSpaces(s[..|s| - |t|]);
        VisibleConcat([' '], Collapse(t));
      } else {
        CollapseKeepsVisible(s[1..]);
        VisibleConcat([s[0]], Collapse(s[1..]));
      }
    }
  }

  lemma TrimStartKeepsVisible(s: string)
    ensures Visible(TrimStart(s)) == Visible(s)
  {
    var t := TrimStart(s);
    assert s == s[..|s| - |t|] + t;
    VisibleConcat(s[..|s| - |t|], t);
    VisibleOfSpaces(s[..|s| - |t|]);
  }

  lemma TrimEndKeepsVisible(s: string)
    ensures Visible(TrimEnd(s)) == Visible(s)
  {
    var t := TrimEnd(s);
    assert s == t + s[|t|..];
    VisibleConcat(t, s[|t|..]);
    VisibleOfSpaces(s[|t|..]);
  }

  /** The whitespace step changes whitespace only: the other characters all
      stay, in their order. */
  lemma NormalizeKeepsVisible(s: string)
    ensures Visible(Normalize(s)) == Visible(s)
  {
    CollapseKeepsVisible(s);
    TrimStartKeepsVisible(Collapse(s));
    TrimEndKeepsVisible(TrimStart(Collapse(s)));
  }
  /** A removed group leaves its space behind at the end of a normal title;
      the whitespace step drops it again. */
  lemma NormalizeDropsTrailingSpace(s: string)
    requires Normal(s)
    ensures Normalize(s + " ") == s
  {
    if s == [] {
      assert s + " " == " ";
      NormalizeOneSpace();
    } else {
      SpaceAfterNormal(s);
      CollapseFixesCollapsed(s + " ");
      TrimSpaceAfterNormal(s);
    }
  }

  lemma NormalizeOneSpace()
    ensures Normalize(" ") == []
  {
    assert Collapse(" ") == " " by {
      assert TrimStart(" ") == [];
    }
    assert TrimEnd(" ") == [] by {
      assert " "[..0] == [];
    }
  }

  lemma TrimSpaceAfterNormal(s: string)
    requires Normal(s) && s != []
    ensures Strip(s + " ") == s
  {
    var t := s + " ";
    assert t[0] == s[0];
    assert TrimStart(t) == t;
    assert t[..|t| - 1] == s;
    assert TrimEnd(t) == TrimEnd(s);
  }

  lemma SpaceAfterNormal(s: string)
    requires Normal(s) && s != []
    ensures Collapsed(s + " ")
  {
    var t := s + " ";
    forall i | 0 <= i < |t| && IsSpace(t[i])
      ensures t[i] == ' ' && (i + 1 < |t| ==> !IsSpace(t[i + 1]))
    {
      if i < |s| { assert t[i] == s[i]; }
      if i + 1 < |s| { assert t[i + 1] == s[i + 1]; }
    }
  }

  /** A run of whitespace between two texts in normal form becomes exactly
      one plain space, whatever characters and however many it holds. */
  lemma NormalizeJoinsWithOneSpace(x: string, w: string, y: string)
    requires Normal(x) && Normal(y) && x != [] && y != [] && w != []
    requires forall i :: 0 <= i < |w| ==> IsSpace(w[i])
    ensures Normalize(x + w + y) == x + " " + y
  {
    CollapseJoin(x, w, y);
    StripOfVisibleEnds(x, y);
  }

  /** `Collapse` over normal text, whitespace and normal text. */
  lemma CollapseJoin(x: string, w: string, y: string)
    requires Normal(x) && Normal(y) && x != [] && y != [] && w != []
    requires forall i :: 0 <= i < |w| ==> IsSpace(w[i])
    ensures Collapse(x + w + y) == x + " " + y
  {
    CollapseAfterVisible(x, w + y);
    CollapseFixesCollapsed(x);
    CollapseOfSpacesBefore(w, y);
    Regroup(x, w, y, Collapse(x + (w + y)), " ");
  }

  /** Regrouping the pieces on both sides of an equation. */
  lemma Regroup<T>(x: seq<T>, w: seq<T>, y: seq<T>, c: seq<T>, s: seq<T>)
    requires c == x + (s + y)
    ensures x + w + y == x + (w + y) && c == x + s + y
  {
  }

  /** Text that ends in a visible character is collapsed on its own: no run
      of whitespace reaches across its end. */
  lemma {:induction false} CollapseAfterVisible(a: string, b: string)
    requires a != [] && !IsSpace(a[|a| - 1])
    ensures Collapse(a + b) == Collapse(a) + Collapse(b)
    decreases |a|
  {
    if IsSpace(a[0]) {
      CollapseSpaceHead(a, b);
      var t := TrimStart(a);
      CollapseAfterVisible(t, b);
      JoinAfterHead([' '], Collapse(a + b), Collapse(a), Collapse(t + b), Collapse(t), Collapse(b));
    } else if |a| == 1 {
      CollapseVisibleHead(a, b);
    } else {
      CollapseVisibleHead(a, b);
      CollapseAfterVisible(a[1..], b);
      JoinAfterHead([a[0]], Collapse(a + b), Collapse(a), Collapse(a[1..] + b), Collapse(a[1..]), Collapse(b));
    }
  }

  /** Regrouping after one step of `Collapse`. */
  lemma JoinAfterHead<T>(h: seq<T>, ab: seq<T>, a: seq<T>, tb: seq<T>, t: seq<T>, b: seq<T>)
    requires ab == h + tb && tb == t + b && a == h + t
    ensures ab == a + b
  {
  }

  /** One step of `Collapse` over `a + b` when `a` starts with whitespace. */
  lemma CollapseSpaceHead(a: string, b: string)
    requires a != [] && !IsSpace(a[|a| - 1]) && IsSpace(a[0])
    ensures TrimStart(a) != [] && TrimStart(a)[|TrimStart(a)| - 1] == a[|a| - 1]
    ensures |TrimStart(a)| < |a|
    ensures Collapse(a + b) == [' '] + Collapse(TrimStart(a) + b)
    ensures Collapse(a) == [' '] + Collapse(TrimStart(a))
  {
    assert (a + b)[0] == a[0];
    TrimStartBeforeVisible(a, b);
  }

  /** One step of `Collapse` over `a + b` when `a` starts visibly. */
  lemma CollapseVisibleHead(a: string, b: string)
    requires a != [] && !IsSpace(a[0])
    ensures Collapse(a + b) == [a[0]] + Collapse(a[1..] + b)
    ensures Collapse(a) == [a[0]] + Collapse(a[1..])
    ensures |a| == 1 ==> a[1..] + b == b && Collapse(a[1..]) == []
  {
    assert (a + b)[0] == a[0];
    assert (a + b)[1..] == a[1..] + b;
  }

  /** `lstrip` stops inside text that ends in a visible character. */
  lemma {:induction false} TrimStartBeforeVisible(a: string, b: string)
    requires a != [] && !IsSpace(a[|a| - 1])
    ensures TrimStart(a + b) == TrimStart(a) + b
    decreases |a|
  {
    var s := a + b;
    assert s[0] == a[0];
    if IsSpace(a[0]) {
      assert s[1..] == a[1..] + b;
      TrimStartBeforeVisible(a[1..], b);
    }
  }

  /** `lstrip` removes a leading run of whitespace up to a visible
      character. */
  lemma {:induction false} TrimStartOfSpaces(w: string, y: string)
    requires forall i :: 0 <= i < |w| ==> IsSpace(w[i])
    requires y != [] && !IsSpace(y[0])
    ensures TrimStart(w + y) == y
    decreases |w|
  {
    if w == [] {
      assert w + y == y;
    } else {
      assert (w + y)[0] == w[0];
      assert (w + y)[1..] == w[1..] + y;
      TrimStartOfSpaces(w[1..], y);
    }
  }

  /** A run of whitespace before normal text collapses to one space. */
  lemma CollapseOfSpacesBefore(w: string, y: string)
    requires Normal(y) && y != [] && w != []
    requires forall i :: 0 <= i < |w| ==> IsSpace(w[i])
    ensures Collapse(w + y) == " " + y
  {
    assert (w + y)[0] == w[0];
    TrimStartOfSpaces(w, y);
    CollapseFixesCollapsed(y);
  }

  /** Two visible ends around one space: nothing to strip. */
  lemma StripOfVisibleEnds(x: string, y: string)
    requires x != [] && y != [] && !IsSpace(x[0]) && !IsSpace(y[|y| - 1])
    ensures Strip(x + " " + y) == x + " " + y
  {
    var s := x + " " + y;
    assert s[0] == x[0] && s[|s| - 1] == y[|y| - 1];
  }
}
