/**
 * `generateUniqueSlug`, again present twice with identical bodies (one probes
 * the `categories` table, the other `products`). The database read
 * `.like("slug", base + "%")` is given here as the set of slugs already in the
 * collection; since a slug from `GenerateSlug` holds neither `_` nor `%`, the
 * LIKE pattern is exactly "starts with base", which is Dafny's prefix `<=`.
 */
module SlugAllocator {
  import opened Text
  import opened Slug

  function DigitChar(d: nat): (c: char)
    requires d < 10
    ensures IsDigit(c)
  {
    ('0' as int + d) as char
  }

  /** The decimal text of `n`, as a template literal `${n}` renders it: no leading zero. */
  function Decimal(n: nat): (r: string)
    ensures r != []
    ensures forall i :: 0 <= i < |r| ==> IsDigit(r[i])
    ensures n >= 1 ==> r[0] != '0'
    ensures n == 0 ==> r == "0"
  {
    if n < 10 then [DigitChar(n)] else Decimal(n / 10) + [DigitChar(n % 10)]
  }

  /** Reads decimal text back; the inverse of `Decimal`. */
  function ParseDecimal(s: string): (n: nat)
  {
    if s == [] then 0 else 10 * ParseDecimal(s[..|s| - 1]) + (s[|s| - 1] as int - '0' as int) % 10
  }

  lemma {:induction false} DecimalRoundTrip(n: nat)
    ensures ParseDecimal(Decimal(n)) == n
  {
    if n >= 10 {
      var d := Decimal(n);
      assert d[..|d| - 1] == Decimal(n / 10);
      DecimalRoundTrip(n / 10);
    }
  }

  /** The `k`-th probe: `${baseSlug}-${counter}`. */
  function Candidate(base: string, k: nat): (probe: string)
  {
    base + "-" + Decimal(k)
  }

  /** Distinct counters give distinct probes, so the probing loop never repeats itself. */
  lemma CandidateInjective(base: string, j: nat, k: nat)
    requires Candidate(base, j) == Candidate(base, k)
    ensures j == k
  {
    assert Candidate(base, j)[|base| + 1..] == Decimal(j);
    assert Candidate(base, k)[|base| + 1..] == Decimal(k);
    DecimalRoundTrip(j);
    DecimalRoundTrip(k);
  }

  /**
   * What `generateUniqueSlug` promises for a base slug and the collection's
   * current slugs: the result is free; it is the base itself when the base is
   * free; otherwise it is `base-k` for the smallest `k >= 1` that is free.
   */
  ghost predicate IsAllocatedSlug(base: string, taken: set<string>, slug: string)
  {
    && slug !in taken
    && (base !in taken ==> slug == base)
    && (base in taken ==>
          exists k: nat :: 1 <= k && slug == Candidate(base, k) &&
            forall j: nat :: 1 <= j < k ==> Candidate(base, j) in taken)
  }

  /** `generateUniqueSlug(baseName)` against the slugs `taken` in one collection. */
  method GenerateUniqueSlug(baseName: string, taken: set<string>) returns (slug: string)
    ensures IsAllocatedSlug(GenerateSlug(baseName), taken, slug)
  {
    var base := GenerateSlug(baseName);
    // the rows the LIKE query returns
    var existing := set s | s in taken && base <= s;
    assert base <= base;
    if |existing| == 0 {
      assert base !in existing;
      return base;
    }
    if base !in existing {
      return base;
    }
    var counter: nat := 1;
    var newSlug := Candidate(base, counter);
    ghost var tried: set<string> := {};
    while newSlug in existing
      invariant 1 <= counter
      invariant newSlug == Candidate(base, counter)
      invariant tried <= existing
      invariant forall j: nat :: 1 <= j < counter ==> Candidate(base, j) in existing
      invariant forall j: nat :: counter <= j ==> Candidate(base, j) !in tried
      decreases existing - tried
    {
      forall j: nat | counter < j
        ensures Candidate(base, j) != Candidate(base, counter)
      {
        if Candidate(base, j) == Candidate(base, counter) {
          CandidateInjective(base, j, counter);
        }
      }
      tried := tried + {newSlug};
      counter := counter + 1;
      newSlug := Candidate(base, counter);
    }
    assert base <= newSlug;
    return newSlug;
  }

  /** The promise pins the slug down: two results that keep it are equal. */
  lemma AllocatedSlugIsDetermined(base: string, taken: set<string>, s1: string, s2: string)
    requires IsAllocatedSlug(base, taken, s1) && IsAllocatedSlug(base, taken, s2)
    ensures s1 == s2
  {
    if base in taken {
      var k1: nat :| 1 <= k1 && s1 == Candidate(base, k1) &&
        forall j: nat :: 1 <= j < k1 ==> Candidate(base, j) in taken;
      var k2: nat :| 1 <= k2 && s2 == Candidate(base, k2) &&
        forall j: nat :: 1 <= j < k2 ==> Candidate(base, j) in taken;
    }
  }

  /** A suffixed probe of a non-empty well-formed base is itself well-formed. */
  lemma CandidateWellFormed(base: string, k: nat)
    requires IsSlug(base) && base != []
    ensures IsSlug(Candidate(base, k))
  {
    var c := Candidate(base, k);
    var d := Decimal(k);
    assert c == base + ("-" + d);
    forall i | 0 <= i < |c| ensures IsSlugChar(c[i]) {
      if i > |base| { assert c[i] == d[i - |base| - 1]; }
    }
    forall i | 0 <= i < |c| - 1 ensures !(c[i] == '-' && c[i + 1] == '-') {
      if i + 1 > |base| + 1 { assert c[i + 1] == d[i - |base|]; }
      else if i + 1 == |base| + 1 { assert c[i + 1] == d[0]; }
      else if i + 1 == |base| { assert c[i] == base[|base| - 1]; }
    }
  }

  /** For a name with a letter or digit, the allocated slug is well-formed. */
  lemma AllocatedSlugWellFormed(baseName: string, taken: set<string>, slug: string)
    requires exists i :: 0 <= i < |baseName| && IsAlnum(baseName[i])
    requires IsAllocatedSlug(GenerateSlug(baseName), taken, slug)
    ensures IsSlug(slug) && slug != []
  {
    var base := GenerateSlug(baseName);
    GenerateSlugWellFormed(baseName);
    GenerateSlugEmptyIff(baseName);
    if base in taken {
      var k: nat :| 1 <= k && slug == Candidate(base, k);
      CandidateWellFormed(base, k);
    }
  }

  /**
   * The empty-base case: a name with no letter or digit (such as "!!!") gets
   * the empty slug, and once that is taken it gets "-1", "-2", ..., none of
   * which is a well-formed slug.
   */
  lemma EmptyBaseAllocatesMalformed(baseName: string, taken: set<string>, slug: string)
    requires forall i :: 0 <= i < |baseName| ==> !IsAlnum(baseName[i])
    requires IsAllocatedSlug(GenerateSlug(baseName), taken, slug)
    ensures "" !in taken ==> slug == ""
    ensures "" in taken ==> exists k: nat :: 1 <= k && slug == "-" + Decimal(k) && !IsSlug(slug)
  {
    GenerateSlugEmptyIff(baseName);
    if "" in taken {
      var k: nat :| 1 <= k && slug == Candidate("", k);
      assert slug == "-" + Decimal(k);
      assert slug[0] == '-';
    }
  }
}
