/** The article slug of `server/server.js` (adding and editing an article):
    `title.toLowerCase().replace(/[^a-z0-9]+/g, '-').replace(/(^-|-$)/g, '')`.
    Only ASCII letters are lower-cased; any other character is a separator. */
module Slug {
  import Seqs
  import Strings

  /** The characters `[a-z0-9]` that the first pattern keeps. */
  predicate IsSlugChar(c: char)
  {
    'a' <= c <= 'z' || '0' <= c <= '9'
  }

  /** Drops the run of other characters at the front. */
  function SkipRun(s: string): (r: string)
    ensures |r| <= |s|
    ensures r == [] || IsSlugChar(r[0])
  {
    if s == [] || IsSlugChar(s[0]) then s else SkipRun(s[1..])
  }

  /** `replace(/[^a-z0-9]+/g, '-')`: each maximal run of other characters becomes one `-`. */
  function Dashed(s: string): string
    decreases |s|
  {
    if s == [] then []
    else if IsSlugChar(s[0]) then [s[0]] + Dashed(s[1..])
    else "-" + Dashed(SkipRun(s[1..]))
  }

  /** `replace(/(^-|-$)/g, '')`: one `-` at the start and one at the end are removed. */
  function StripDashes(s: string): string
  {
    var a := if s != [] && s[0] == '-' then s[1..] else s;
    if a != [] && a[|a| - 1] == '-' then a[..|a| - 1] else a
  }

  function Slug(title: string): string
  {
    StripDashes(Dashed(Strings.LowerAscii(title)))
  }

  predicate SlugAlphabet(s: string)
  {
    forall c :: c in s ==> IsSlugChar(c) || c == '-'
  }

  ghost predicate NoDoubleDash(s: string)
  {
    forall i, j :: 0 <= i < j < |s| && j == i + 1 ==> s[i] != '-' || s[j] != '-'
  }

  /** A well-formed slug: only `[a-z0-9-]`, no `--`, no `-` at either end. */
  ghost predicate Clean(s: string)
  {
    SlugAlphabet(s) && NoDoubleDash(s) && (s != [] ==> s[0] != '-' && s[|s| - 1] != '-')
  }

  lemma {:induction false} SkipRunKeeps(s: string)
    ensures Seqs.Filter(SkipRun(s), IsSlugChar) == Seqs.Filter(s, IsSlugChar)
  {
    if s != [] && !IsSlugChar(s[0]) {
      SkipRunKeeps(s[1..]);
    }
  }

  /** The first replacement leaves only `[a-z0-9-]`, never two `-` in a row, and starts
      with the input's first character when that one is kept. */
  lemma {:induction false} DashedShape(s: string)
    ensures SlugAlphabet(Dashed(s)) && NoDoubleDash(Dashed(s))
    ensures s != [] && IsSlugChar(s[0]) ==> Dashed(s) != [] && Dashed(s)[0] == s[0]
    decreases |s|
  {
    if s != [] {
      var rest := if IsSlugChar(s[0]) then s[1..] else SkipRun(s[1..]);
      DashedShape(rest);
      var d := Dashed(rest);
      var r := Dashed(s);
      assert r == [if IsSlugChar(s[0]) then s[0] else '-'] + d;
      forall i, j | 0 <= i < j < |r| && j == i + 1 ensures r[i] != '-' || r[j] != '-' {
        if i > 0 {
          assert r[i] == d[i - 1] && r[j] == d[j - 1];
        } else if !IsSlugChar(s[0]) {
          assert rest != [] && IsSlugChar(rest[0]);
        }
      }
    }
  }

  /** The first replacement keeps the letters and digits, in order. */
  lemma {:induction false} DashedKeeps(s: string)
    ensures Seqs.Filter(Dashed(s), IsSlugChar) == Seqs.Filter(s, IsSlugChar)
    decreases |s|
  {
    if s != [] {
      if IsSlugChar(s[0]) {
        DashedKeeps(s[1..]);
        assert Seqs.Filter(Dashed(s), IsSlugChar) == [s[0]] + Seqs.Filter(Dashed(s[1..]), IsSlugChar);
      } else {
        DashedKeeps(SkipRun(s[1..]));
        SkipRunKeeps(s[1..]);
        assert ("-" + Dashed(SkipRun(s[1..])))[1..] == Dashed(SkipRun(s[1..]));
      }
    }
  }

  /** Stripping the end dashes of a dashed string gives a clean one. */
  lemma StripClean(s: string)
    requires SlugAlphabet(s) && NoDoubleDash(s)
    ensures Clean(StripDashes(s))
  {
    var a := if s != [] && s[0] == '-' then s[1..] else s;
    if s != [] && s[0] == '-' && |s| >= 2 {
      assert s[1] == a[0];
    }
    if a != [] && a[|a| - 1] == '-' && |a| >= 2 {
      assert a[|a| - 2] != '-';
    }
  }

  /** Every slug is clean: only `[a-z0-9-]`, no `--`, no `-` at either end. */
  lemma SlugClean(title: string)
    ensures Clean(Slug(title))
  {
    DashedShape(Strings.LowerAscii(title));
    StripClean(Dashed(Strings.LowerAscii(title)));
  }

  /** The slug holds exactly the letters and digits of the lower-cased title, in order. */
  lemma SlugKeeps(title: string)
    ensures Seqs.Filter(Slug(title), IsSlugChar) == Seqs.Filter(Strings.LowerAscii(title), IsSlugChar)
  {
    var d := Dashed(Strings.LowerAscii(title));
    DashedKeeps(Strings.LowerAscii(title));
    var a := if d != [] && d[0] == '-' then d[1..] else d;
    if d != [] && d[0] == '-' {
      Seqs.FilterAppend([d[0]], a, IsSlugChar);
      assert d == [d[0]] + a;
    }
    if a != [] && a[|a| - 1] == '-' {
      Seqs.FilterAppend(a[..|a| - 1], [a[|a| - 1]], IsSlugChar);
      assert a == a[..|a| - 1] + [a[|a| - 1]];
    }
  }

  /** A string of `[a-z0-9-]` without `--` is its own first replacement. */
  lemma {:induction false} DashedClean(s: string)
    requires SlugAlphabet(s) && NoDoubleDash(s)
    ensures Dashed(s) == s
    decreases |s|
  {
    if s != [] {
      var rest := s[1..];
      assert SlugAlphabet(rest) && NoDoubleDash(rest) by {
        forall i, j | 0 <= i < j < |rest| && j == i + 1 ensures rest[i] != '-' || rest[j] != '-' {
          assert rest[i] == s[i + 1] && rest[j] == s[j + 1];
        }
      }
      DashedClean(rest);
      if !IsSlugChar(s[0]) && rest != [] {
        assert s[1] == rest[0];
      }
    }
  }

  /** A clean string is its own slug. */
  lemma CleanFixed(s: string)
    requires Clean(s)
    ensures Slug(s) == s
  {
    forall i | 0 <= i < |s| ensures Strings.LowerAscii(s)[i] == s[i] {
      assert s[i] in s;
    }
    assert Strings.LowerAscii(s) == s;
    DashedClean(s);
    assert Dashed(s) == s;
  }

  /** Re-slugging a slug changes nothing. */
  lemma SlugIdempotent(title: string)
    ensures Slug(Slug(title)) == Slug(title)
  {
    SlugClean(title);
    CleanFixed(Slug(title));
  }
}
