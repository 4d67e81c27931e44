/** The four summary cards above the category list. */
module CategoryStats {
  import opened Wrappers
  import opened Sequences
  import opened CategorySchema

  predicate IsActive(c: Category) { c.isActive == true }
  predicate IsDraft(c: Category) { c.isActive == false }

  /** `cat.product_count || 0`: a missing count adds nothing. */
  function CountOrZero(c: Category): (n: nat) {
    if c.productCount.Some? then c.productCount.value else 0
  }

  /** The `reduce` that sums the product counts, from the left. */
  function TotalProducts(categories: seq<Category>): (r: nat)
    ensures categories != [] ==> r >= CountOrZero(categories[|categories| - 1])
  {
    if categories == [] then 0
    else TotalProducts(categories[..|categories| - 1]) + CountOrZero(categories[|categories| - 1])
  }

  /** The total adds up list by list, so the order of categories does not matter to it piecewise. */
  lemma {:induction false} TotalProductsAppend(a: seq<Category>, b: seq<Category>)
    ensures TotalProducts(a + b) == TotalProducts(a) + TotalProducts(b)
    decreases |b|
  {
    if b == [] {
      assert a + b == a;
    } else {
      var init := b[..|b| - 1];
      assert (a + b)[..|a + b| - 1] == a + init;
      assert (a + b)[|a + b| - 1] == b[|b| - 1];
      TotalProductsAppend(a, init);
    }
  }

  /** The total is zero exactly when no category reports a positive count. */
  lemma {:induction false} TotalProductsZeroIff(categories: seq<Category>)
    ensures TotalProducts(categories) == 0 <==>
      forall i :: 0 <= i < |categories| ==> categories[i].productCount.None? || categories[i].productCount.value == 0
  {
    if categories != [] {
      var init := categories[..|categories| - 1];
      TotalProductsZeroIff(init);
      assert forall i :: 0 <= i < |init| ==> init[i] == categories[i];
    }
  }

  datatype Stat = Stat(caption: string, value: nat)

  /** The `stats` array, in display order. */
  function Stats(categories: seq<Category>): (r: seq<Stat>)
    ensures |r| == 4
    ensures r[0].value == |categories|
  {
    [ Stat("Total Categories", |categories|),
      Stat("Active Categories", |Filter(categories, IsActive)|),
      Stat("Draft Categories", |Filter(categories, IsDraft)|),
      Stat("Total Products", TotalProducts(categories)) ]
  }

  /**
   * The cards always come in the order Total, Active, Draft, Products, and
   * since `is_active` is a boolean every category is exactly one of active or
   * draft.
   */
  lemma StatsShape(categories: seq<Category>)
    ensures var r := Stats(categories);
      && r[0].caption == "Total Categories" && r[1].caption == "Active Categories"
      && r[2].caption == "Draft Categories" && r[3].caption == "Total Products"
      && r[1].value + r[2].value == r[0].value
      && r[3].value == TotalProducts(categories)
  {
    FilterPartition(categories, IsActive, IsDraft);
  }

  /** An empty list shows zero everywhere. */
  lemma NoCategoriesAllZero()
    ensures forall i :: 0 <= i < 4 ==> Stats([])[i].value == 0
  {
  }
}
