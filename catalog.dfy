/** The product catalog and the category grouping of the products page
    (src/App.jsx, `Products`): the distinct categories in first-appearance
    order, and for each of them the products of that category. */
module Catalog {

  /** A catalog entry. Prices are whole cents so that sums are exact. */
  datatype Product = Product(id: string, name: string, category: string, price: int, img: string)

  /** One section of the products page: a category heading and its products. */
  datatype Section = Section(category: string, products: seq<Product>)

  predicate NoDuplicates<T(==)>(s: seq<T>)
  {
    forall i, j :: 0 <= i < j < |s| ==> s[i] != s[j]
  }

  /** `catalog.map(p => p.category)`. */
  function CategoryColumn(catalog: seq<Product>): seq<string>
  {
    seq(|catalog|, i requires 0 <= i < |catalog| => catalog[i].category)
  }

  /** `Array.from(new Set(s))`: a Set keeps its first insertion of each value,
      so the result lists each value of `s` once, where it first occurs. */
  function Distinct(s: seq<string>): (r: seq<string>)
    ensures NoDuplicates(r)
    ensures forall x :: x in r <==> x in s
  {
    if s == [] then []
    else
      var d := Distinct(s[..|s| - 1]);
      var x := s[|s| - 1];
      assert forall y :: y in s <==> y in s[..|s| - 1] || y == x by {
        assert s == s[..|s| - 1] + [x];
      }
      if x in d then d else d + [x]
  }

  /** The position of the first occurrence of `x` in `s`. */
  function IndexOf<T(==)>(s: seq<T>, x: T): (i: nat)
    requires x in s
    ensures i < |s| && s[i] == x
    ensures x !in s[..i]
  {
    if s[0] == x then 0
    else
      assert s == [s[0]] + s[1..];
      var k := IndexOf(s[1..], x);
      assert s[..k + 1] == [s[0]] + s[1..][..k];
      k + 1
  }

  /** The categories of the catalog, in first-appearance order (line 194). */
  function Categories(catalog: seq<Product>): (r: seq<string>)
    ensures NoDuplicates(r)
    ensures forall c :: c in r <==> exists p :: p in catalog && p.category == c
  {
    CategoryColumnMembers(catalog);
    Distinct(CategoryColumn(catalog))
  }

  lemma CategoryColumnMembers(catalog: seq<Product>)
    ensures forall c :: c in CategoryColumn(catalog) <==> exists p :: p in catalog && p.category == c
  {
    var col := CategoryColumn(catalog);
    forall c ensures c in col <==> exists p :: p in catalog && p.category == c {
      if c in col {
        var i :| 0 <= i < |col| && col[i] == c;
        assert catalog[i] in catalog;
      }
      if exists p :: p in catalog && p.category == c {
        var p :| p in catalog && p.category == c;
        var i :| 0 <= i < |catalog| && catalog[i] == p;
        assert col[i] == c;
      }
    }
  }

  /** `catalog.filter(p => p.category === cat)` (lines 201-202). */
  function InCategory(catalog: seq<Product>, cat: string): (r: seq<Product>)
    ensures forall p :: p in r <==> p in catalog && p.category == cat
    ensures forall p :: multiset(r)[p] == if p.category == cat then multiset(catalog)[p] else 0
  {
    if catalog == [] then []
    else
      assert catalog == [catalog[0]] + catalog[1..];
      assert multiset(catalog) == multiset{catalog[0]} + multiset(catalog[1..]);
      (if catalog[0].category == cat then [catalog[0]] else []) + InCategory(catalog[1..], cat)
  }

  /** One section per category of `cats`, in that order (line 197). */
  function SectionsFor(catalog: seq<Product>, cats: seq<string>): (r: seq<Section>)
    ensures |r| == |cats|
    ensures forall i :: 0 <= i < |r| ==> r[i].category == cats[i]
    ensures forall i :: 0 <= i < |r| ==> r[i].products == InCategory(catalog, cats[i])
  {
    if cats == [] then []
    else [Section(cats[0], InCategory(catalog, cats[0]))] + SectionsFor(catalog, cats[1..])
  }

  /** The sections of the products page (lines 194-202). */
  function Sections(catalog: seq<Product>): (r: seq<Section>)
    ensures |r| == |Categories(catalog)|
    ensures forall i :: 0 <= i < |r| ==> r[i].category == Categories(catalog)[i]
    ensures forall i, p :: 0 <= i < |r| && p in r[i].products ==> p in catalog && p.category == r[i].category
    ensures forall i :: 0 <= i < |r| ==> r[i].products != []
  {
    var cats := Categories(catalog);
    forall i | 0 <= i < |cats| ensures InCategory(catalog, cats[i]) != [] {
      assert cats[i] in cats;
      var p :| p in catalog && p.category == cats[i];
      assert p in InCategory(catalog, cats[i]);
    }
    SectionsFor(catalog, cats)
  }

  /** All products listed on the page, section after section. */
  function Listed(sections: seq<Section>): seq<Product>
  {
    if sections == [] then [] else sections[0].products + Listed(sections[1..])
  }

  /** `t` can be obtained from `s` by dropping elements: the relative order of
      what remains is the order in `s`. */
  ghost predicate SubsequenceOf<T>(t: seq<T>, s: seq<T>)
  {
    t == [] || (s != [] && ((t[0] == s[0] && SubsequenceOf(t[1..], s[1..])) || SubsequenceOf(t, s[1..])))
  }

  /** The products whose category is one of `cats`, in catalog order. */
  function InAnyOf(catalog: seq<Product>, cats: seq<string>): seq<Product>
  {
    if catalog == [] then []
    else (if catalog[0].category in cats then [catalog[0]] else []) + InAnyOf(catalog[1..], cats)
  }

  // ---------------------------------------------------------------------------
  // Category list

  lemma IndexOfInPrefix<T>(s: seq<T>, x: T, y: T)
    requires y in s
    ensures y in s + [x] && IndexOf(s + [x], y) == IndexOf(s, y)
  {
    var t := s + [x];
    var i, j := IndexOf(t, y), IndexOf(s, y);
    forall k | 0 <= k < j ensures t[k] != y { assert t[k] == s[..j][k]; }
    forall k | 0 <= k < i ensures t[k] != y { assert t[k] == t[..i][k]; }
    assert t[j] == y;
  }

  /** The values of `Distinct(s)` appear in the order of their first
      occurrence in `s`. */
  lemma {:induction false} DistinctKeepsFirstAppearanceOrder(s: seq<string>, i: nat, j: nat)
    requires i < j < |Distinct(s)|
    ensures IndexOf(s, Distinct(s)[i]) < IndexOf(s, Distinct(s)[j])
  {
    var s', x := s[..|s| - 1], s[|s| - 1];
    assert s == s' + [x];
    var d' := Distinct(s');
    var a, b := Distinct(s)[i], Distinct(s)[j];
    if x in d' {
      DistinctKeepsFirstAppearanceOrder(s', i, j);
      IndexOfInPrefix(s', x, a);
      IndexOfInPrefix(s', x, b);
    } else if j < |d'| {
      DistinctKeepsFirstAppearanceOrder(s', i, j);
      IndexOfInPrefix(s', x, a);
      IndexOfInPrefix(s', x, b);
    } else {
      assert b == x && x !in s';
      IndexOfInPrefix(s', x, a);
      forall m | 0 <= m < |s'| ensures s[m] != x { assert s[m] == s'[m]; }
    }
  }

  /** The category list is in first-appearance order (line 194). */
  lemma CategoriesInFirstAppearanceOrder(catalog: seq<Product>, i: nat, j: nat)
    requires i < j < |Categories(catalog)|
    ensures IndexOf(CategoryColumn(catalog), Categories(catalog)[i])
          < IndexOf(CategoryColumn(catalog), Categories(catalog)[j])
  {
    DistinctKeepsFirstAppearanceOrder(CategoryColumn(catalog), i, j);
  }

  // ---------------------------------------------------------------------------
  // Sections

  /** A catalog product appears in exactly one section: the one headed by its
      own category. */
  lemma {:induction false} EachProductInExactlyOneSection(catalog: seq<Product>, p: Product)
    requires p in catalog
    ensures exists i :: 0 <= i < |Sections(catalog)| && Sections(catalog)[i].category == p.category
                     && p in Sections(catalog)[i].products
    ensures forall i, j :: (0 <= i < |Sections(catalog)| && 0 <= j < |Sections(catalog)|
                        && p in Sections(catalog)[i].products && p in Sections(catalog)[j].products) ==> i == j
  {
    var cats := Categories(catalog);
    assert p.category in cats;
    var i :| 0 <= i < |cats| && cats[i] == p.category;
    assert p in Sections(catalog)[i].products;
  }

  lemma {:induction false} InCategoryIsSubsequence(catalog: seq<Product>, cat: string)
    ensures SubsequenceOf(InCategory(catalog, cat), catalog)
  {
    if catalog != [] {
      var t, rest := InCategory(catalog, cat), InCategory(catalog[1..], cat);
      InCategoryIsSubsequence(catalog[1..], cat);
      if catalog[0].category == cat {
        assert t == [catalog[0]] + rest;
        assert t[0] == catalog[0] && t[1..] == rest;
      } else {
        assert t == rest;
      }
    }
  }

  /** Every section keeps the relative catalog order of its products. */
  lemma SectionsKeepCatalogOrder(catalog: seq<Product>, i: nat)
    requires i < |Sections(catalog)|
    ensures SubsequenceOf(Sections(catalog)[i].products, catalog)
  {
    InCategoryIsSubsequence(catalog, Categories(catalog)[i]);
  }

  lemma {:induction false} SplitOffCategory(catalog: seq<Product>, c: string, cats: seq<string>)
    requires c !in cats
    ensures multiset(InAnyOf(catalog, [c] + cats))
         == multiset(InCategory(catalog, c)) + multiset(InAnyOf(catalog, cats))
  {
    if catalog != [] {
      SplitOffCategory(catalog[1..], c, cats);
    }
  }

  lemma {:induction false} ListedSectionsFor(catalog: seq<Product>, cats: seq<string>)
    requires NoDuplicates(cats)
    ensures multiset(Listed(SectionsFor(catalog, cats))) == multiset(InAnyOf(catalog, cats))
  {
    if cats == [] {
      InAnyOfNone(catalog);
    } else {
      var rest := SectionsFor(catalog, cats)[1..];
      assert rest == SectionsFor(catalog, cats[1..]);
      ListedSectionsFor(catalog, cats[1..]);
      forall k | 0 <= k < |cats[1..]| ensures cats[1..][k] != cats[0] {
        assert cats[1..][k] == cats[k + 1];
      }
      SplitOffCategory(catalog, cats[0], cats[1..]);
      assert [cats[0]] + cats[1..] == cats;
    }
  }

  lemma {:induction false} InAnyOfNone(catalog: seq<Product>)
    ensures InAnyOf(catalog, []) == []
  {
    if catalog != [] {
      InAnyOfNone(catalog[1..]);
    }
  }

  lemma {:induction false} InAnyOfAll(catalog: seq<Product>, cats: seq<string>)
    requires forall p :: p in catalog ==> p.category in cats
    ensures InAnyOf(catalog, cats) == catalog
  {
    if catalog != [] {
      assert catalog[0] in catalog;
      assert forall p :: p in catalog[1..] ==> p in catalog;
      InAnyOfAll(catalog[1..], cats);
      assert catalog == [catalog[0]] + catalog[1..];
    }
  }

  /** The sections partition the catalog: taken together they list every
      catalog product exactly as often as the catalog does, and nothing else. */
  lemma SectionsPartitionCatalog(catalog: seq<Product>)
    ensures multiset(Listed(Sections(catalog))) == multiset(catalog)
  {
    var cats := Categories(catalog);
    ListedSectionsFor(catalog, cats);
    forall p | p in catalog ensures p.category in cats { }
    InAnyOfAll(catalog, cats);
  }
}
