/** Slug derivation from a product name: lower-case it, replace every maximal run of
    characters outside `[a-z0-9]` by one `-`, then strip the dashes at both ends. */
module DerivedSlugs {
  import opened Text
  import opened Schemas

  predicate IsAlnum(c: char) {
    'a' <= c <= 'z' || '0' <= c <= '9'
  }

  /** Every character is in `[a-z0-9-]` and no two dashes are adjacent. */
  ghost predicate DashSeparated(s: string) {
    (forall i :: 0 <= i < |s| ==> IsAlnum(s[i]) || s[i] == '-') &&
    (forall i, j :: 0 <= i < j < |s| && j == i + 1 ==> s[i] != '-' || s[j] != '-')
  }

  /** Neither the first nor the last character is a dash. */
  predicate Trimmed(s: string) {
    s == [] || (s[0] != '-' && s[|s| - 1] != '-')
  }

  /** The input with its leading characters outside `[a-z0-9]` dropped. */
  function SkipRun(s: string): (r: string)
    ensures |r| <= |s| && r == s[|s| - |r|..]
    ensures r == [] || IsAlnum(r[0])
  {
    if s == [] || IsAlnum(s[0]) then s else SkipRun(s[1..])
  }

  /** `replace(/[^a-z0-9]+/g, '-')`. */
  function CollapseRuns(s: string): (r: string)
    ensures s == [] <==> r == []
    ensures s != [] && IsAlnum(s[0]) ==> r[0] == s[0]
    ensures s != [] && !IsAlnum(s[0]) ==> r[0] == '-'
    decreases |s|
  {
    if s == [] then []
    else if IsAlnum(s[0]) then [s[0]] + CollapseRuns(s[1..])
    else
      ['-'] + CollapseRuns(SkipRun(s[1..]))
  }

  /** A letter or digit, or a dash not followed by a dash, in front of a dash-separated
      string keeps it dash-separated. */
  lemma ConsDashSeparated(c: char, t: string)
    requires DashSeparated(t) && (IsAlnum(c) || c == '-')
    requires c == '-' ==> t == [] || t[0] != '-'
    ensures DashSeparated([c] + t)
  {
    var r := [c] + t;
    forall i | 0 <= i < |r| ensures IsAlnum(r[i]) || r[i] == '-' {
      if i > 0 {
        assert r[i] == t[i - 1];
      }
    }
    forall i, j | 0 <= i < j < |r| && j == i + 1 ensures r[i] != '-' || r[j] != '-' {
      if i > 0 {
        assert r[i] == t[i - 1] && r[j] == t[j - 1];
      }
    }
  }

  /** Collapsing leaves only `[a-z0-9-]`, with no two dashes side by side. */
  lemma {:induction false} CollapseDashSeparated(s: string)
    ensures DashSeparated(CollapseRuns(s))
    decreases |s|
  {
    if s != [] {
      if IsAlnum(s[0]) {
        CollapseDashSeparated(s[1..]);
        ConsDashSeparated(s[0], CollapseRuns(s[1..]));
      } else {
        CollapseDashSeparated(SkipRun(s[1..]));
        ConsDashSeparated('-', CollapseRuns(SkipRun(s[1..])));
      }
    }
  }

  /** `replace(/^-+/, '')`. */
  function TrimStart(s: string): (r: string)
    ensures |r| <= |s| && r == s[|s| - |r|..]
    ensures r == [] || r[0] != '-'
  {
    if s != [] && s[0] == '-' then TrimStart(s[1..]) else s
  }

  /** `replace(/-+$/, '')`. */
  function TrimEnd(s: string): (r: string)
    ensures |r| <= |s| && r == s[..|r|]
    ensures r == [] || r[|r| - 1] != '-'
  {
    if s != [] && s[|s| - 1] == '-' then TrimEnd(s[..|s| - 1]) else s
  }

  /** A contiguous part of a dash-separated string is dash-separated. */
  lemma SliceDashSeparated(s: string, a: nat, b: nat)
    requires DashSeparated(s) && a <= b <= |s|
    ensures DashSeparated(s[a..b])
  {
    var t := s[a..b];
    assert forall i :: 0 <= i < |t| ==> t[i] == s[a + i];
  }

  /** The slug `create` and `update` derive from a name. */
  function Slugify(name: string): (r: string)
    ensures Trimmed(r)
  {
    TrimEnd(TrimStart(CollapseRuns(Lower(name))))
  }

  lemma {:induction false} TrimStartDashSeparated(s: string)
    requires DashSeparated(s)
    ensures DashSeparated(TrimStart(s))
  {
    if s != [] && s[0] == '-' {
      SliceDashSeparated(s, 1, |s|);
      TrimStartDashSeparated(s[1..]);
    }
  }

  lemma {:induction false} TrimEndDashSeparated(s: string)
    requires DashSeparated(s)
    ensures DashSeparated(TrimEnd(s))
  {
    if s != [] && s[|s| - 1] == '-' {
      SliceDashSeparated(s, 0, |s| - 1);
      assert s[0..|s| - 1] == s[..|s| - 1];
      TrimEndDashSeparated(s[..|s| - 1]);
    }
  }

  /** The derived slug is made of `[a-z0-9-]` with no two dashes side by side. */
  lemma SlugifyDashSeparated(name: string)
    ensures DashSeparated(Slugify(name))
  {
    var collapsed := CollapseRuns(Lower(name));
    CollapseDashSeparated(Lower(name));
    TrimStartDashSeparated(collapsed);
    TrimEndDashSeparated(TrimStart(collapsed));
  }

  /** The characters of `s` that are in `[a-z0-9]`, in order. */
  function Alnums(s: string): (r: string)
    ensures |r| <= |s|
  {
    if s == [] then [] else (if IsAlnum(s[0]) then [s[0]] else []) + Alnums(s[1..])
  }

  lemma {:induction false} AlnumsAppend(a: string, b: string)
    ensures Alnums(a + b) == Alnums(a) + Alnums(b)
  {
    if a != [] {
      AlnumsAppend(a[1..], b);
      assert (a + b)[1..] == a[1..] + b;
    } else {
      assert a + b == b;
    }
  }

  lemma {:induction false} AlnumsSkipRun(s: string)
    ensures Alnums(SkipRun(s)) == Alnums(s)
  {
    if s != [] && !IsAlnum(s[0]) {
      AlnumsSkipRun(s[1..]);
    }
  }

  lemma {:induction false} AlnumsCollapse(s: string)
    ensures Alnums(CollapseRuns(s)) == Alnums(s)
    decreases |s|
  {
    if s != [] {
      if IsAlnum(s[0]) {
        AlnumsCollapse(s[1..]);
        assert ([s[0]] + CollapseRuns(s[1..]))[1..] == CollapseRuns(s[1..]);
      } else {
        AlnumsSkipRun(s[1..]);
        AlnumsCollapse(SkipRun(s[1..]));
        assert (['-'] + CollapseRuns(SkipRun(s[1..])))[1..] == CollapseRuns(SkipRun(s[1..]));
      }
    }
  }

  lemma {:induction false} AlnumsTrimStart(s: string)
    ensures Alnums(TrimStart(s)) == Alnums(s)
  {
    if s != [] && s[0] == '-' {
      AlnumsTrimStart(s[1..]);
    }
  }

  lemma {:induction false} AlnumsTrimEnd(s: string)
    ensures Alnums(TrimEnd(s)) == Alnums(s)
  {
    if s != [] && s[|s| - 1] == '-' {
      var init := s[..|s| - 1];
      AlnumsTrimEnd(init);
      AlnumsAppend(init, ['-']);
      assert s == init + ['-'];
    }
  }

  /** Deriving the slug keeps every letter and digit of the lower-cased name, in order, and
      adds none. */
  lemma SlugKeepsLettersAndDigits(name: string)
    ensures Alnums(Slugify(name)) == Alnums(Lower(name))
  {
    var collapsed := CollapseRuns(Lower(name));
    AlnumsCollapse(Lower(name));
    AlnumsTrimStart(collapsed);
    AlnumsTrimEnd(TrimStart(collapsed));
  }

  /** The derived slug passes the slug schema exactly when it has two or more characters. */
  lemma DerivedSlugValid(name: string)
    ensures ValidSlug(Slugify(name)) <==> |Slugify(name)| >= 2
  {
    SlugifyDashSeparated(name);
    ValidSlugMeaning(Slugify(name));
  }

  lemma {:induction false} LowerFixesSlugText(s: string)
    requires DashSeparated(s)
    ensures Lower(s) == s
  {
    assert forall i :: 0 <= i < |s| ==> Lower(s)[i] == s[i];
  }

  lemma {:induction false} CollapseFixesDashSeparated(s: string)
    requires DashSeparated(s)
    ensures CollapseRuns(s) == s
    decreases |s|
  {
    if s != [] {
      SliceDashSeparated(s, 1, |s|);
      if IsAlnum(s[0]) {
        CollapseFixesDashSeparated(s[1..]);
      } else {
        assert s[1..] == [] || IsAlnum(s[1]);
        CollapseFixesDashSeparated(s[1..]);
      }
    }
  }

  /** A name that already has the shape of a derived slug is its own slug. */
  lemma SlugOfSlugShaped(s: string)
    requires DashSeparated(s) && Trimmed(s)
    ensures Slugify(s) == s
  {
    LowerFixesSlugText(s);
    CollapseFixesDashSeparated(s);
  }

  /** Deriving a slug twice gives the same slug as deriving it once. */
  lemma SlugifyIdempotent(name: string)
    ensures Slugify(Slugify(name)) == Slugify(name)
  {
    SlugifyDashSeparated(name);
    SlugOfSlugShaped(Slugify(name));
  }
}
