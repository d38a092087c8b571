/** The blog document's pre-save hook: the URL slug derived from the title. */
module BlogModel {
  import opened Util

  /** A character the cleaned slug may contain: `[a-z0-9-]`. */
  predicate IsSlugChar(c: char) { IsLowerAlnum(c) || c == '-' }

  /** What the cleaning chain promises: only `[a-z0-9-]`, no hyphen at either end, no two
      hyphens in a row. */
  predicate IsClean(s: string) {
    && (forall i :: 0 <= i < |s| ==> IsSlugChar(s[i]))
    && (s != [] ==> s[0] != '-' && s[|s| - 1] != '-')
    && NoDoubleHyphen(s)
  }

  // ---------------------------------------------------------------------------
  // The three replace passes
  // ---------------------------------------------------------------------------

  /** Drops the leading characters outside `[a-z0-9]`. */
  function SkipNonAlnum(s: string): (r: string)
    ensures |r| <= |s| && r == s[|s| - |r|..]
    ensures r != [] ==> IsLowerAlnum(r[0])
    ensures (s != [] && IsLowerAlnum(s[0])) ==> r == s
  {
    if s != [] && !IsLowerAlnum(s[0]) then SkipNonAlnum(s[1..]) else s
  }

  /** Only characters outside `[a-z0-9]` are skipped, so the letters and digits all remain. */
  lemma {:induction false} SkipDropsOnlyNonAlnum(s: string)
    ensures forall i :: 0 <= i < |s| - |SkipNonAlnum(s)| ==> !IsLowerAlnum(s[i])
  {
    if s != [] && !IsLowerAlnum(s[0]) {
      var t := s[1..];
      SkipDropsOnlyNonAlnum(t);
      assert SkipNonAlnum(s) == SkipNonAlnum(t);
      var n := |t| - |SkipNonAlnum(t)|;
      forall i | 1 <= i < n + 1 ensures !IsLowerAlnum(s[i]) {
        assert s[i] == t[i - 1];
      }
    }
  }

  /** So skipping loses no letter or digit. */
  lemma SkipKeepsAlnum(s: string)
    ensures Filter(SkipNonAlnum(s), IsLowerAlnum) == Filter(s, IsLowerAlnum)
  {
    SkipDropsOnlyNonAlnum(s);
    FilterSkipsRejected(s, |s| - |SkipNonAlnum(s)|, IsLowerAlnum);
  }

  /** `.replace(/[^a-z0-9]+/g, '-')`: every maximal run outside `[a-z0-9]` becomes one hyphen. */
  function ReplaceNonAlnum(s: string): (r: string)
    ensures forall i :: 0 <= i < |r| ==> IsSlugChar(r[i])
    ensures NoDoubleHyphen(r)
    ensures r != [] <==> s != []
    ensures r != [] ==> (r[0] == '-' <==> !IsLowerAlnum(s[0]))
    decreases |s|
  {
    if s == [] then []
    else if IsLowerAlnum(s[0]) then [s[0]] + ReplaceNonAlnum(s[1..])
    else ['-'] + ReplaceNonAlnum(SkipNonAlnum(s[1..]))
  }

  /** The first pass keeps every letter and digit, in order: only the runs between them are
      replaced. */
  lemma {:induction false} ReplaceKeepsAlnum(s: string)
    ensures Filter(ReplaceNonAlnum(s), IsLowerAlnum) == Filter(s, IsLowerAlnum)
    decreases |s|
  {
    if s != [] {
      var t := s[1..];
      assert s == [s[0]] + t;
      FilterCons(s[0], t, IsLowerAlnum);
      if IsLowerAlnum(s[0]) {
        ReplaceKeepsAlnum(t);
        FilterCons(s[0], ReplaceNonAlnum(t), IsLowerAlnum);
      } else {
        SkipKeepsAlnum(t);
        ReplaceKeepsAlnum(SkipNonAlnum(t));
        FilterCons('-', ReplaceNonAlnum(SkipNonAlnum(t)), IsLowerAlnum);
      }
    }
  }

  /** A reference for the first pass, one character at a time: every character outside
      `[a-z0-9]` becomes a hyphen. */
  function HyphenateNonAlnum(s: string): (r: string)
    ensures |r| == |s|
    ensures forall i :: 0 <= i < |s| ==> IsLowerAlnum(s[i]) ==> r[i] == s[i]
    ensures forall i :: 0 <= i < |s| ==> !IsLowerAlnum(s[i]) ==> r[i] == '-'
  {
    if s == [] then [] else [if IsLowerAlnum(s[0]) then s[0] else '-'] + HyphenateNonAlnum(s[1..])
  }

  /** Skipping a run outside `[a-z0-9]` is dropping the hyphens it would become. */
  lemma {:induction false} SkipIsDropHyphens(s: string)
    ensures DropLeadingHyphens(HyphenateNonAlnum(s)) == HyphenateNonAlnum(SkipNonAlnum(s))
  {
    if s != [] && !IsLowerAlnum(s[0]) {
      SkipIsDropHyphens(s[1..]);
      assert HyphenateNonAlnum(s)[1..] == HyphenateNonAlnum(s[1..]);
    }
  }

  /** The first pass replaces each maximal run outside `[a-z0-9]` by exactly one hyphen: it is
      the character-wise replacement followed by collapsing the hyphen runs. */
  lemma {:induction false} ReplaceIsHyphenateThenCollapse(s: string)
    ensures ReplaceNonAlnum(s) == CollapseHyphens(HyphenateNonAlnum(s))
    decreases |s|
  {
    if s != [] {
      var h := HyphenateNonAlnum(s);
      assert h[1..] == HyphenateNonAlnum(s[1..]);
      if IsLowerAlnum(s[0]) {
        ReplaceIsHyphenateThenCollapse(s[1..]);
      } else {
        SkipIsDropHyphens(s[1..]);
        ReplaceIsHyphenateThenCollapse(SkipNonAlnum(s[1..]));
      }
    }
  }

  /** `.replace(/^-+|-+$/g, '')`: the leading and then the trailing hyphen run removed. */
  function StripEdgeHyphens(s: string): string {
    DropTrailing(DropLeadingHyphens(s), '-')
  }

  /** The cleaned base of the slug: lower-case, then the three replace passes. */
  function CleanBase(title: string): string {
    CollapseHyphens(StripEdgeHyphens(ReplaceNonAlnum(Lower(title))))
  }

  // ---------------------------------------------------------------------------
  // What the cleaning guarantees
  // ---------------------------------------------------------------------------

  /** Slicing keeps the character set and the absence of double hyphens. */
  lemma SliceKeeps(s: string, a: nat, b: nat)
    requires a <= b <= |s|
    requires forall i :: 0 <= i < |s| ==> IsSlugChar(s[i])
    requires NoDoubleHyphen(s)
    ensures forall i :: 0 <= i < b - a ==> IsSlugChar(s[a..b][i])
    ensures NoDoubleHyphen(s[a..b])
  {
    forall i | 0 <= i < b - a - 1 ensures !(s[a..b][i] == '-' && s[a..b][i + 1] == '-') {
      assert s[a..b][i] == s[a + i] && s[a..b][i + 1] == s[a + i + 1];
    }
  }

  /** The hyphen-stripping pass leaves a clean string when run on the output of the first pass. */
  lemma StripClean(s: string)
    requires forall i :: 0 <= i < |s| ==> IsSlugChar(s[i])
    requires NoDoubleHyphen(s)
    ensures IsClean(StripEdgeHyphens(s))
  {
    var l := DropLeadingHyphens(s);
    SliceKeeps(s, |s| - |l|, |s|);
    var t := DropTrailing(l, '-');
    SliceKeeps(l, 0, |t|);
    if t != [] {
      assert t[0] == l[0];
    }
  }

  /** The last pass has nothing left to do: the first two already leave no double hyphen. */
  lemma CollapseIsNoOp(title: string)
    ensures CollapseHyphens(StripEdgeHyphens(ReplaceNonAlnum(Lower(title)))) ==
            StripEdgeHyphens(ReplaceNonAlnum(Lower(title)))
  {
    StripClean(ReplaceNonAlnum(Lower(title)));
  }

  /** The cleaned base uses only `[a-z0-9-]`, has no hyphen at either end and no double hyphen. */
  lemma CleanBaseIsClean(title: string)
    ensures IsClean(CleanBase(title))
  {
    CollapseIsNoOp(title);
    StripClean(ReplaceNonAlnum(Lower(title)));
  }

  /** The first pass leaves a clean string as it is. */
  lemma {:induction false} ReplaceFixed(s: string)
    requires forall i :: 0 <= i < |s| ==> IsSlugChar(s[i])
    requires NoDoubleHyphen(s)
    requires s != [] ==> s[0] != '-' || |s| == 1 || IsLowerAlnum(s[1])
    ensures ReplaceNonAlnum(s) == s
    decreases |s|
  {
    if s != [] {
      var t := s[1..];
      SliceKeeps(s, 1, |s|);
      if IsLowerAlnum(s[0]) {
        ReplaceFixed(t);
      } else {
        assert t == [] || IsLowerAlnum(t[0]);
        ReplaceFixed(t);
      }
    }
  }

  lemma LowerFixed(s: string)
    requires forall i :: 0 <= i < |s| ==> IsSlugChar(s[i])
    ensures Lower(s) == s
  {
  }

  /** Cleaning an already clean string returns it unchanged. */
  lemma CleanFixed(c: string)
    requires IsClean(c)
    ensures CleanBase(c) == c
  {
    LowerFixed(c);
    ReplaceFixed(c);
    assert DropLeadingHyphens(c) == c;
    assert DropTrailing(c, '-') == c;
  }

  /** The cleaning is idempotent. */
  lemma CleanIdempotent(title: string)
    ensures CleanBase(CleanBase(title)) == CleanBase(title)
  {
    CleanBaseIsClean(title);
    CleanFixed(CleanBase(title));
  }

  // ---------------------------------------------------------------------------
  // The hook
  // ---------------------------------------------------------------------------

  /** `untitled-` followed by a number is itself a clean base. */
  lemma UntitledClean(d: string)
    requires d != [] && forall i :: 0 <= i < |d| ==> IsDigit(d[i])
    ensures IsClean("untitled-" + d)
  {
    var u := "untitled-" + d;
    forall i | 0 <= i < |u| ensures IsSlugChar(u[i]) {
      if i >= 9 {
        assert u[i] == d[i - 9];
      }
    }
    forall i | 0 <= i < |u| - 1 ensures !(u[i] == '-' && u[i + 1] == '-') {
      if i >= 9 {
        assert u[i] == d[i - 9];
      } else if i == 8 {
        assert u[i + 1] == d[0];
      }
    }
    assert u[|u| - 1] == d[|d| - 1];
  }

  /** An empty base is replaced by `untitled-` and the first clock reading. */
  function BaseOrUntitled(title: string, now1: nat): (r: string)
    ensures CleanBase(title) != "" ==> r == CleanBase(title)
    ensures CleanBase(title) == "" ==> r == "untitled-" + Decimal(now1)
    ensures r != "" && IsClean(r)
  {
    var base := CleanBase(title);
    CleanBaseIsClean(title);
    if base != "" then base
    else
      var d := Decimal(now1);
      UntitledClean(d);
      "untitled-" + d
  }

  /** A new slug: a clean, non-empty base, a hyphen and the second clock reading; the part
      before the last hyphen is the base. */
  lemma NewSlugShape(title: string, now1: nat, now2: nat)
    ensures var b := BaseOrUntitled(title, now1);
            var s := b + "-" + Decimal(now2);
            && s[..|b|] == b
            && s[|b|] == '-'
            && s[|b| + 1..] == Decimal(now2)
            && (forall i :: 0 <= i < |s| ==> IsSlugChar(s[i]))
  {
    var b := BaseOrUntitled(title, now1);
    SlugJoin(b, Decimal(now2));
  }

  lemma SlugJoin(b: string, d: string)
    requires forall i :: 0 <= i < |b| ==> IsSlugChar(b[i])
    requires forall i :: 0 <= i < |d| ==> IsDigit(d[i])
    ensures var s := b + "-" + d;
            && s[..|b|] == b
            && s[|b|] == '-'
            && s[|b| + 1..] == d
            && (forall i :: 0 <= i < |s| ==> IsSlugChar(s[i]))
  {
    var s := b + "-" + d;
    forall i | 0 <= i < |s| ensures IsSlugChar(s[i]) {
      if i > |b| {
        assert s[i] == d[i - |b| - 1];
      } else if i < |b| {
        assert s[i] == b[i];
      }
    }
    assert s[|b| + 1..] == d;
  }

  /** The slug the hook assigns: base, hyphen, second clock reading. */
  function NewSlug(title: string, now1: nat, now2: nat): (r: string)
    ensures forall i :: 0 <= i < |r| ==> IsSlugChar(r[i])
  {
    NewSlugShape(title, now1, now2);
    BaseOrUntitled(title, now1) + "-" + Decimal(now2)
  }

  /** An unfolding step for `BlogDocument.PreSave`: `NewSlug` is the base the hook computes joined
      to the second clock reading. */
  lemma NewSlugOf(title: string, now1: nat, now2: nat)
    ensures NewSlug(title, now1, now2) ==
            (if CleanBase(title) == "" then "untitled-" + Decimal(now1) else CleanBase(title)) + "-" + Decimal(now2)
  {
  }

  /** The fields of a blog document the hook reads and writes. */
  class BlogDocument {
    var title: string
    var slug: Option<string>

    constructor (title0: string, slug0: Option<string>)
      ensures title == title0 && slug == slug0
    {
      title := title0;
      slug := slug0;
    }

    /** The pre-save hook. The slug is recomputed only when there is none yet or the title has
        been modified; `now1` and `now2` are the two clock readings the hook takes. */
    method PreSave(titleModified: bool, now1: nat, now2: nat)
      modifies this
      ensures title == old(title)
      ensures Truthy(old(slug)) && !titleModified ==> slug == old(slug)
      ensures !Truthy(old(slug)) || titleModified ==>
                slug == Some(NewSlug(title, now1, now2))
    {
      NewSlugOf(title, now1, now2);
      if !Truthy(slug) || titleModified {
        var base := CleanBase(title);
        if base == "" {
          base := "untitled-" + Decimal(now1);
        }
        slug := Some(base + "-" + Decimal(now2));
      }
    }
  }
}
