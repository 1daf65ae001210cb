/** The `id -> type` dictionary that the category and question listings
    build with `for category in categories: category_dict[category.id] = category.type`. */
module CategoryMaps {
  import opened Records

  /** The dictionary after the loop has run over `cats`: each category in
      turn sets its id to its label, so a later entry wins. */
  function CategoryMap(cats: seq<Category>): (m: map<int, string>)
    ensures m.Keys == CategoryIds(cats)
  {
    if cats == [] then map[]
    else
      var last := cats[|cats| - 1];
      assert cats == cats[..|cats| - 1] + [last];
      CategoryMap(cats[..|cats| - 1])[last.id := last.kind]
  }

  /** With distinct ids, every category's id maps to that category's label. */
  lemma {:induction false} CategoryMapLookup(cats: seq<Category>, c: Category)
    requires UniqueCategoryIds(cats)
    requires c in cats
    ensures c.id in CategoryMap(cats) && CategoryMap(cats)[c.id] == c.kind
  {
    var init, last := cats[..|cats| - 1], cats[|cats| - 1];
    if c != last {
      var k :| 0 <= k < |cats| && cats[k] == c;
      assert k < |cats| - 1 && init[k] == c;
      CategoryMapLookup(init, c);
    }
  }

  /** Walking the same categories in another order (by label instead of by
      id) builds the same dictionary. */
  lemma CategoryMapIgnoresOrder(a: seq<Category>, b: seq<Category>)
    requires UniqueCategoryIds(a) && UniqueCategoryIds(b)
    requires forall c :: c in a <==> c in b
    ensures CategoryMap(a) == CategoryMap(b)
  {
    var ma, mb := CategoryMap(a), CategoryMap(b);
    assert CategoryIds(a) == CategoryIds(b);
    forall k | k in ma.Keys ensures k in mb && ma[k] == mb[k] {
      assert k in CategoryIds(a);
      var c :| c in a && c.id == k;
      CategoryMapLookup(a, c);
      CategoryMapLookup(b, c);
    }
  }

  /** The loop itself. */
  method BuildCategoryMap(cats: seq<Category>) returns (m: map<int, string>)
    ensures m == CategoryMap(cats)
    ensures m.Keys == CategoryIds(cats)
  {
    m := map[];
    var i := 0;
    while i < |cats|
      invariant 0 <= i <= |cats|
      invariant m == CategoryMap(cats[..i])
    {
      assert cats[..i + 1][..i] == cats[..i];
      m := m[cats[i].id := cats[i].kind];
      i := i + 1;
    }
    assert cats[..|cats|] == cats;
  }
}
