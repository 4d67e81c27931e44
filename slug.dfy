/**
 * The slug normaliser `generateSlug`. The application carries three
 * character-for-character copies of it (lib/services/categories.ts,
 * lib/services/products.ts and the exported one in
 * components/admin/products/product-form-schema.ts); all three are this one
 * function. It is a chain of five steps: lowercase, trim and three rewrites:
 *
 *   text.toLowerCase().trim()
 *       .replace(/[^\w\s-]/g, "")     -- RemoveSpecial
 *       .replace(/[\s_-]+/g, "-")     -- CollapseSeparators
 *       .replace(/^-+|-+$/g, "")      -- StripEdgeHyphens
 */
module Slug {
  import opened Text
  import opened Sequences

  /** Characters that survive `/[^\w\s-]/g`. */
  predicate IsKept(c: char) { IsWordChar(c) || IsSpace(c) || c == '-' }

  /** The class `[\s_-]` whose runs collapse into a single hyphen. */
  predicate IsSeparator(c: char) { IsSpace(c) || c == '_' || c == '-' }

  predicate IsSlugChar(c: char) { IsLowerLetter(c) || IsDigit(c) || c == '-' }

  predicate NoDoubleHyphen(s: string) {
    forall i :: 0 <= i < |s| - 1 ==> !(s[i] == '-' && s[i + 1] == '-')
  }

  /** A well-formed slug: `^[a-z0-9]+(-[a-z0-9]+)*$`, or the empty string. */
  predicate IsSlug(s: string) {
    && (forall i :: 0 <= i < |s| ==> IsSlugChar(s[i]))
    && (s != [] ==> s[0] != '-' && s[|s| - 1] != '-')
    && NoDoubleHyphen(s)
  }

  /** `.replace(/[^\w\s-]/g, "")` */
  function RemoveSpecial(s: string): (r: string)
    ensures forall c :: c in r ==> c in s && IsKept(c)
    ensures forall c :: c in s && IsKept(c) ==> c in r
  {
    if s == [] then [] else (if IsKept(s[0]) then [s[0]] else []) + RemoveSpecial(s[1..])
  }

  /**
   * `.replace(/[\s_-]+/g, "-")`: every maximal run of separators becomes one
   * hyphen. `inRun` says that the character before `s` was a separator.
   */
  function CollapseSeparators(s: string, inRun: bool): (r: string)
    ensures inRun && r != [] ==> r[0] != '-'
    ensures NoDoubleHyphen(r)
  {
    if s == [] then []
    else if IsSeparator(s[0]) then
      var rest := CollapseSeparators(s[1..], true);
      if inRun then rest else "-" + rest
    else
      [s[0]] + CollapseSeparators(s[1..], false)
  }

  /**
   * The collapse step writes only `-` and the input's non-separator
   * characters, and keeps every non-separator character.
   */
  lemma {:induction false} CollapseKeepsCharacters(s: string, inRun: bool)
    ensures forall c :: c in CollapseSeparators(s, inRun) ==> c == '-' || (c in s && !IsSeparator(c))
    ensures forall c :: c in s && !IsSeparator(c) ==> c in CollapseSeparators(s, inRun)
  {
    if s != [] {
      CollapseKeepsCharacters(s[1..], IsSeparator(s[0]));
      assert s == [s[0]] + s[1..];
    }
  }

  /** The special-character step is exactly `filter` by the kept class, so order and repeats survive. */
  lemma {:induction false} RemoveSpecialIsFilter(s: string)
    ensures RemoveSpecial(s) == Filter(s, IsKept)
  {
    if s != [] {
      RemoveSpecialIsFilter(s[1..]);
      FilterCons(s, IsKept);
    }
  }

  predicate IsHyphen(c: char) { c == '-' }
  predicate NotHyphen(c: char) { c != '-' }
  predicate NotSeparator(c: char) { !IsSeparator(c) }

  /**
   * A maximal run of separators starts at index `i`: a separator whose
   * predecessor is not one (for `i == 0`, `inRun` says what came before).
   */
  predicate RunStartsAt(s: string, inRun: bool, i: nat)
    requires i < |s|
  {
    IsSeparator(s[i]) && (if i == 0 then !inRun else !IsSeparator(s[i - 1]))
  }

  /** The number of maximal separator runs that start in `s`, counted from the back. */
  function RunCount(s: string, inRun: bool): (n: nat)
    ensures n <= |s|
  {
    if s == [] then 0
    else RunCount(s[..|s| - 1], inRun) + (if RunStartsAt(s, inRun, |s| - 1) then 1 else 0)
  }

  /** Counting runs from the front. */
  lemma {:induction false} RunCountCons(s: string, inRun: bool)
    requires s != []
    ensures RunCount(s, inRun) == (if IsSeparator(s[0]) && !inRun then 1 else 0) + RunCount(s[1..], IsSeparator(s[0]))
    decreases |s|
  {
    if |s| > 1 {
      var init := s[..|s| - 1];
      RunCountCons(init, inRun);
      assert init[1..] == s[1..][..|s| - 2];
      assert init[0] == s[0];
      forall j | 0 <= j < |init| ensures RunStartsAt(init, inRun, j) == RunStartsAt(s, inRun, j) {
      }
    }
  }

  /** What the collapse step writes for one character, given whether a run is open. */
  function CollapseHead(x: char, inRun: bool): (r: string)
    ensures |r| <= 1
  {
    if !IsSeparator(x) then [x] else if inRun then "" else "-"
  }

  /** One step of the collapse: the first character's output, then the rest. */
  lemma CollapseCons(x: char, rest: string, inRun: bool)
    ensures CollapseSeparators([x] + rest, inRun) == CollapseHead(x, inRun) + CollapseSeparators(rest, IsSeparator(x))
  {
    assert ([x] + rest)[0] == x && ([x] + rest)[1..] == rest;
  }

  /**
   * The collapse step works in place: a non-separator character splits the
   * input, and the two sides are collapsed independently around it (the
   * right side starting outside a run).
   */
  lemma {:induction false} CollapseSplitsAt(a: string, c: char, b: string, inRun: bool)
    requires !IsSeparator(c)
    ensures CollapseSeparators(a + [c] + b, inRun) == CollapseSeparators(a, inRun) + [c] + CollapseSeparators(b, false)
    decreases |a|
  {
    if a == [] {
      assert a + [c] + b == [c] + b;
      CollapseCons(c, b, inRun);
    } else {
      var x, t := a[0], a[1..];
      assert a == [x] + t;
      assert a + [c] + b == [x] + (t + [c] + b);
      CollapseCons(x, t + [c] + b, inRun);
      CollapseCons(x, t, inRun);
      CollapseSplitsAt(t, c, b, IsSeparator(x));
    }
  }

  /** A maximal run of separators becomes a single `-`, or nothing when it continues a run. */
  lemma {:induction false} CollapseRun(s: string, inRun: bool)
    requires s != [] && forall i :: 0 <= i < |s| ==> IsSeparator(s[i])
    ensures CollapseSeparators(s, inRun) == if inRun then "" else "-"
    decreases |s|
  {
    if |s| > 1 {
      CollapseRun(s[1..], true);
    }
  }

  /**
   * The collapse step keeps the non-separator characters in order and writes
   * exactly one `-` for each maximal run of separators; `CollapseSplitsAt`
   * and `CollapseRun` place each `-` where its run stood.
   */
  lemma {:induction false} CollapseSeparatorsSpec(s: string, inRun: bool)
    ensures Filter(CollapseSeparators(s, inRun), NotHyphen) == Filter(s, NotSeparator)
    ensures |Filter(CollapseSeparators(s, inRun), IsHyphen)| == RunCount(s, inRun)
  {
    if s != [] {
      var t := s[1..];
      var r := CollapseSeparators(s, inRun);
      CollapseSeparatorsSpec(t, IsSeparator(s[0]));
      RunCountCons(s, inRun);
      FilterCons(s, NotSeparator);
      var rest := CollapseSeparators(t, IsSeparator(s[0]));
      if IsSeparator(s[0]) && inRun {
        assert r == rest;
      } else {
        assert r == [r[0]] + rest;
        FilterCons(r, NotHyphen);
        FilterCons(r, IsHyphen);
        assert r[1..] == rest;
      }
    }
  }

  /** The `^-+` half of the last rewrite. */
  function DropLeadingHyphens(s: string): (r: string)
    ensures r == [] || r[0] != '-'
    ensures forall c :: c in r ==> c in s
    ensures forall c :: c in s && c != '-' ==> c in r
    ensures NoDoubleHyphen(s) ==> NoDoubleHyphen(r)
  {
    if s != [] && s[0] == '-' then DropLeadingHyphens(s[1..]) else s
  }

  /** The `-+$` half of the last rewrite; the result is a prefix of `s`. */
  function DropTrailingHyphens(s: string): (r: string)
    ensures r <= s
    ensures r == [] || r[|r| - 1] != '-'
    ensures forall c :: c in s && c != '-' ==> c in r
  {
    if s != [] && s[|s| - 1] == '-' then DropTrailingHyphens(s[..|s| - 1]) else s
  }

  /** `^-+` removes a leading run of hyphens and nothing else: the rest is a suffix of `s`. */
  lemma {:induction false} DropLeadingHyphensCutsRun(s: string)
    ensures |DropLeadingHyphens(s)| <= |s| && DropLeadingHyphens(s) == s[|s| - |DropLeadingHyphens(s)|..]
    ensures forall i :: 0 <= i < |s| - |DropLeadingHyphens(s)| ==> s[i] == '-'
  {
    if s != [] && s[0] == '-' {
      DropLeadingHyphensCutsRun(s[1..]);
      forall i | 0 < i < |s| - |DropLeadingHyphens(s)| ensures s[i] == '-' {
        assert s[i] == s[1..][i - 1];
      }
    }
  }

  /** `-+$` removes a trailing run of hyphens and nothing else: the rest is a prefix of `s`. */
  lemma {:induction false} DropTrailingHyphensCutsRun(s: string)
    ensures DropTrailingHyphens(s) <= s
    ensures forall i :: |DropTrailingHyphens(s)| <= i < |s| ==> s[i] == '-'
  {
    if s != [] && s[|s| - 1] == '-' {
      DropTrailingHyphensCutsRun(s[..|s| - 1]);
      forall i | |DropTrailingHyphens(s)| <= i < |s| - 1 ensures s[i] == '-' {
        assert s[i] == s[..|s| - 1][i];
      }
    }
  }

  /** `.replace(/^-+|-+$/g, "")` */
  function StripEdgeHyphens(s: string): (r: string)
  {
    DropTrailingHyphens(DropLeadingHyphens(s))
  }

  /** `generateSlug(text)` */
  function GenerateSlug(text: string): (slug: string)
  {
    StripEdgeHyphens(CollapseSeparators(RemoveSpecial(Trim(Lower(text))), false))
  }

  /** Every character of the slug is one that the five steps let through. */
  lemma SlugCharOrigin(text: string, c: char)
    requires c in GenerateSlug(text)
    ensures c == '-' || (IsAlnum(c) && !IsUpper(c) && exists i :: 0 <= i < |text| && LowerChar(text[i]) == c)
  {
    var lowered := Lower(text);
    var collapsed := CollapseSeparators(RemoveSpecial(Trim(lowered)), false);
    CollapseKeepsCharacters(RemoveSpecial(Trim(lowered)), false);
    var leading := DropLeadingHyphens(collapsed);
    var r := DropTrailingHyphens(leading);
    assert c in leading;
    if c != '-' {
      assert c in lowered;
      var i :| 0 <= i < |lowered| && lowered[i] == c;
      assert LowerChar(text[i]) == c;
    }
  }

  /** Every letter or digit of the input reaches the slug, lowercased. */
  lemma AlnumReachesSlug(text: string, i: int)
    requires 0 <= i < |text| && IsAlnum(text[i])
    ensures LowerChar(text[i]) in GenerateSlug(text)
  {
    var lowered := Lower(text);
    CollapseKeepsCharacters(RemoveSpecial(Trim(lowered)), false);
    assert lowered[i] in lowered;
  }

  /** The output alphabet is `a-z`, `0-9` and `-`, with no edge hyphen and no `--`. */
  lemma GenerateSlugWellFormed(text: string)
    ensures IsSlug(GenerateSlug(text))
  {
    var collapsed := CollapseSeparators(RemoveSpecial(Trim(Lower(text))), false);
    var leading := DropLeadingHyphens(collapsed);
    var r := DropTrailingHyphens(leading);
    forall i | 0 <= i < |r| ensures IsSlugChar(r[i]) {
      assert r[i] in r;
      SlugCharOrigin(text, r[i]);
    }
    assert r == leading[..|r|];
  }

  /** The normaliser is the identity on a well-formed slug. */
  lemma SlugIsFixedPoint(s: string)
    requires IsSlug(s)
    ensures GenerateSlug(s) == s
  {
    assert Lower(s) == s;
    assert Trim(s) == s;
    RemoveSpecialKeepsSlug(s);
    CollapseKeepsSlug(s, false);
  }

  lemma {:induction false} RemoveSpecialKeepsSlug(s: string)
    requires forall i :: 0 <= i < |s| ==> IsSlugChar(s[i])
    ensures RemoveSpecial(s) == s
  {
    if s != [] {
      RemoveSpecialKeepsSlug(s[1..]);
    }
  }

  lemma {:induction false} CollapseKeepsSlug(s: string, inRun: bool)
    requires forall i :: 0 <= i < |s| ==> IsSlugChar(s[i])
    requires NoDoubleHyphen(s)
    requires inRun ==> s == [] || s[0] != '-'
    ensures CollapseSeparators(s, inRun) == s
  {
    if s != [] {
      var t := s[1..];
      forall i | 0 <= i < |t| ensures IsSlugChar(t[i]) {
        assert t[i] == s[i + 1];
      }
      forall i | 0 <= i < |t| - 1 ensures !(t[i] == '-' && t[i + 1] == '-') {
        assert t[i] == s[i + 1] && t[i + 1] == s[i + 2];
      }
      CollapseKeepsSlug(t, s[0] == '-');
      assert IsSeparator(s[0]) <==> s[0] == '-';
      assert s == [s[0]] + t;
    }
  }

  /** Normalising twice is normalising once. */
  lemma GenerateSlugIdempotent(text: string)
    ensures GenerateSlug(GenerateSlug(text)) == GenerateSlug(text)
  {
    GenerateSlugWellFormed(text);
    SlugIsFixedPoint(GenerateSlug(text));
  }

  /** The slug is empty exactly when the input has no ASCII letter or digit. */
  lemma GenerateSlugEmptyIff(text: string)
    ensures GenerateSlug(text) == "" <==> forall i :: 0 <= i < |text| ==> !IsAlnum(text[i])
  {
    var r := GenerateSlug(text);
    if r != "" {
      GenerateSlugWellFormed(text);
      assert r[0] in r;
      SlugCharOrigin(text, r[0]);
    }
    if i :| 0 <= i < |text| && IsAlnum(text[i]) {
      AlnumReachesSlug(text, i);
    }
  }
}
