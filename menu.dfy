/**
 * Menu items: the admin form validation shared by adding and editing an
 * item, and the customer menu page, which groups the available items by
 * category and lists the categories with the preferred ones first.
 */
module Menu {
  import opened Common
  import opened Text
  import opened Seqs

  /** A menu item; the price is in cents. */
  datatype MenuItem = MenuItem(
    name: string,
    description: string,
    price: int,
    category: string,
    imageUrl: string,
    available: bool)

  const NoDescription := "No description provided"
  const NoImage := "https://via.placeholder.com/400x300?text=No+Image"

  /** The category order the menu page prefers. */
  const PreferredCategories: seq<string> := ["Sandwiches", "Meals", "Drinks", "Desserts"]

  /** The raw form fields of the add and edit item forms; a missing field is "". */
  datatype ItemForm = ItemForm(
    name: string,
    description: string,
    price: string,
    category: string,
    imageUrl: string)

  /**
   * The checks of the add and edit item forms: name, price and category are
   * required after stripping, and the price must parse as a number above
   * zero.  An accepted form gives the stored item, with the defaults for a
   * blank description and a blank image address.
   */
  function ValidateItemForm(form: ItemForm, available: bool): (r: Result<MenuItem>)
    ensures r == Err(MissingFields) <==>
      IsBlank(form.name) || IsBlank(form.price) || IsBlank(form.category)
    ensures r == Err(InvalidPrice) <==>
      !IsBlank(form.name) && !IsBlank(form.price) && !IsBlank(form.category) &&
      (ParseFloat(form.price).None? || ParseFloat(form.price).value <= 0)
    ensures r.Err? ==> r.error in {MissingFields, InvalidPrice}
    ensures r.Ok? ==> r.value.price > 0 && r.value.name != [] && r.value.category != []
    ensures r.Ok? ==> r.value.name == Strip(form.name) && r.value.category == Strip(form.category)
    ensures r.Ok? ==> Some(r.value.price) == ParseFloat(form.price)
    ensures r.Ok? ==> r.value.available == available && r.value.description != [] && r.value.imageUrl != []
    ensures r.Ok? ==> r.value.description == if IsBlank(form.description) then NoDescription else Strip(form.description)
    ensures r.Ok? ==> r.value.imageUrl == if IsBlank(form.imageUrl) then NoImage else Strip(form.imageUrl)
  {
    var name, description, price, category, imageUrl :=
      Strip(form.name), Strip(form.description), Strip(form.price), Strip(form.category), Strip(form.imageUrl);
    if name == [] || price == [] || category == [] then Err(MissingFields)
    else match ParseFloat(form.price)
      case None => Err(InvalidPrice)
      case Some(p) =>
        if p <= 0 then Err(InvalidPrice)
        else Ok(MenuItem(
          name,
          if description == [] then NoDescription else description,
          p,
          category,
          if imageUrl == [] then NoImage else imageUrl,
          available))
  }

  function CategoriesOf(items: seq<MenuItem>): (cats: seq<string>)
    ensures |cats| == |items|
    ensures forall i :: 0 <= i < |items| ==> cats[i] == items[i].category
  {
    if items == [] then []
    else CategoriesOf(items[..|items| - 1]) + [items[|items| - 1].category]
  }

  /** The items of category c, in the order given. */
  function InCategory(items: seq<MenuItem>, c: string): (r: seq<MenuItem>)
    ensures |r| <= |items|
    ensures forall i :: 0 <= i < |r| ==> r[i].category == c
  {
    if items == [] then []
    else
      var p, x := items[..|items| - 1], items[|items| - 1];
      InCategory(p, c) + (if x.category == c then [x] else [])
  }

  /** What one more item adds to the category list and to its category's items. */
  lemma AppendItem(items: seq<MenuItem>, i: nat)
    requires i < |items|
    ensures CategoriesOf(items[..i + 1]) == CategoriesOf(items[..i]) + [items[i].category]
    ensures forall c :: InCategory(items[..i + 1], c) == InCategory(items[..i], c) + (if items[i].category == c then [items[i]] else [])
  {
    assert items[..i + 1][..i] == items[..i];
  }

  /** A category that does not occur has no items. */
  lemma {:induction false} InCategoryAbsent(items: seq<MenuItem>, c: string)
    requires c !in CategoriesOf(items)
    ensures InCategory(items, c) == []
  {
    if items != [] {
      InCategoryAbsent(items[..|items| - 1], c);
    }
  }

  /**
   * The category list of the menu page: the preferred categories that occur,
   * in preferred order, then the other categories in order of first occurrence.
   */
  function OrderCategories(cats: seq<string>, preferred: seq<string>): (r: seq<string>)
    ensures forall i :: 0 <= i < |r| ==> r[i] in cats
  {
    var a, b := Keep(preferred, set c | c in cats, true), Keep(Distinct(cats), set c | c in preferred, false);
    assert forall i :: |a| <= i < |a + b| ==> (a + b)[i] == b[i - |a|];
    a + b
  }

  /** The category order of the menu page's items. */
  function CategoryOrder(items: seq<MenuItem>): seq<string> {
    OrderCategories(CategoriesOf(items), PreferredCategories)
  }

  /** Every category that occurs is listed, and nothing else is. */
  lemma OrderCategoriesMembers(cats: seq<string>, preferred: seq<string>)
    ensures forall c :: c in OrderCategories(cats, preferred) <==> c in cats
  {
    var inCats, inPreferred := set c | c in cats, set c | c in preferred;
    var a, b := Keep(preferred, inCats, true), Keep(Distinct(cats), inPreferred, false);
    var d := Distinct(cats);
    forall c | c in a + b ensures c in cats {
      if c in b {
        var k :| 0 <= k < |b| && b[k] == c;
        var m :| 0 <= m < |d| && d[m] == c;
      }
    }
    forall c | c in cats ensures c in a + b {
      var k :| 0 <= k < |cats| && cats[k] == c;
      var m :| 0 <= m < |d| && d[m] == c;
      if c in preferred {
        var n :| 0 <= n < |preferred| && preferred[n] == c;
        assert c in a;
      } else {
        assert c in b;
      }
    }
  }

  /**
   * No category is listed twice, and each preferred category comes before
   * each other one.
   */
  lemma OrderCategoriesDistinct(cats: seq<string>, preferred: seq<string>)
    requires NoDuplicates(preferred)
    ensures var r := OrderCategories(cats, preferred);
      && NoDuplicates(r)
      && (forall i, j :: 0 <= i < j < |r| && r[j] in preferred ==> r[i] in preferred)
  {
    var inCats, inPreferred := set c | c in cats, set c | c in preferred;
    var a, b := Keep(preferred, inCats, true), Keep(Distinct(cats), inPreferred, false);
    KeepOrder(preferred, inCats, true);
    KeepOrder(Distinct(cats), inPreferred, false);
    ConcatSeparated(a, b, inPreferred);
  }

  /** Two duplicate-free runs, the first inside xs and the second outside it, concatenate without duplicates. */
  lemma ConcatSeparated(a: seq<string>, b: seq<string>, xs: set<string>)
    requires NoDuplicates(a) && NoDuplicates(b)
    requires forall i :: 0 <= i < |a| ==> a[i] in xs
    requires forall i :: 0 <= i < |b| ==> b[i] !in xs
    ensures NoDuplicates(a + b)
    ensures forall i, j :: 0 <= i < j < |a + b| && (a + b)[j] in xs ==> (a + b)[i] in xs
  {
    var r := a + b;
    forall i, j | 0 <= i < j < |r| ensures r[i] != r[j] {
      if i < |a| && j >= |a| {
        assert r[i] == a[i] && r[j] == b[j - |a|];
      } else if i >= |a| {
        assert r[i] == b[i - |a|] && r[j] == b[j - |a|];
      }
    }
    assert forall k :: |a| <= k < |r| ==> r[k] == b[k - |a|] && r[k] !in xs;
    assert forall k :: 0 <= k < |a| ==> r[k] == a[k] && r[k] in xs;
  }

  /** The preferred categories that occur keep the preferred order. */
  lemma OrderCategoriesPreferredOrder(cats: seq<string>, preferred: seq<string>)
    requires NoDuplicates(preferred)
    ensures var r := OrderCategories(cats, preferred);
      forall i, j :: 0 <= i < j < |r| && r[j] in preferred ==>
        FirstIndex(preferred, r[i]) < FirstIndex(preferred, r[j])
  {
    var inCats, inPreferred := set c | c in cats, set c | c in preferred;
    var a, b := Keep(preferred, inCats, true), Keep(Distinct(cats), inPreferred, false);
    var r := a + b;
    KeepOrder(preferred, inCats, true);
    assert forall k :: |a| <= k < |r| ==> r[k] == b[k - |a|] && r[k] !in preferred;
    assert forall k :: 0 <= k < |a| ==> r[k] == a[k];
  }

  /** The other categories keep the order in which they first occur. */
  lemma OrderCategoriesFirstSeenOrder(cats: seq<string>, preferred: seq<string>)
    ensures var r := OrderCategories(cats, preferred);
      forall i, j :: 0 <= i < j < |r| && r[i] !in preferred ==>
        FirstIndex(cats, r[i]) < FirstIndex(cats, r[j])
  {
    var inCats, inPreferred := set c | c in cats, set c | c in preferred;
    var d := Distinct(cats);
    var a, b := Keep(preferred, inCats, true), Keep(d, inPreferred, false);
    var r := a + b;
    KeepDistinctOrder(cats, inPreferred, false);
    SuffixOrder(cats, preferred, a, b);
  }

  /** Behind a run of preferred categories, a run in first-seen order stays in first-seen order. */
  lemma SuffixOrder(cats: seq<string>, preferred: seq<string>, a: seq<string>, b: seq<string>)
    requires forall k :: 0 <= k < |a| ==> a[k] in preferred
    requires forall k :: 0 <= k < |b| ==> b[k] in cats
    requires forall i, j :: 0 <= i < j < |b| ==> FirstIndex(cats, b[i]) < FirstIndex(cats, b[j])
    ensures forall i, j :: 0 <= i < j < |a + b| && (a + b)[i] !in preferred ==>
      FirstIndex(cats, (a + b)[i]) < FirstIndex(cats, (a + b)[j])
  {
    var r := a + b;
    assert forall k :: 0 <= k < |a| ==> r[k] in preferred;
    forall i, j | 0 <= i < j < |r| && i >= |a|
      ensures FirstIndex(cats, r[i]) < FirstIndex(cats, r[j])
    {
      assert r[i] == b[i - |a|] && r[j] == b[j - |a|];
    }
  }

  lemma PreferredCategoriesDistinct()
    ensures NoDuplicates(PreferredCategories)
  {
  }

  /**
   * The menu page's category list: every category of the items exactly once,
   * Sandwiches, Meals, Drinks and Desserts (those that occur) first and in
   * that order, the others after them in order of first occurrence.
   */
  lemma CategoryOrderOfMenu(items: seq<MenuItem>)
    ensures var r, cats := CategoryOrder(items), CategoriesOf(items);
      && (forall c :: c in r <==> c in cats)
      && NoDuplicates(r)
      && (forall i, j :: 0 <= i < j < |r| && r[j] in PreferredCategories ==>
            r[i] in PreferredCategories && FirstIndex(PreferredCategories, r[i]) < FirstIndex(PreferredCategories, r[j]))
      && (forall i, j :: 0 <= i < j < |r| && r[i] !in PreferredCategories ==>
            FirstIndex(cats, r[i]) < FirstIndex(cats, r[j]))
  {
    var cats := CategoriesOf(items);
    PreferredCategoriesDistinct();
    OrderCategoriesMembers(cats, PreferredCategories);
    OrderCategoriesDistinct(cats, PreferredCategories);
    OrderCategoriesPreferredOrder(cats, PreferredCategories);
    OrderCategoriesFirstSeenOrder(cats, PreferredCategories);
  }

  /** One more item extends its category's list, or starts one; the other lists stay. */
  lemma GroupStep(items: seq<MenuItem>, i: nat, byCategory: map<string, seq<MenuItem>>)
    requires i < |items|
    requires forall c :: c in byCategory <==> c in CategoriesOf(items[..i])
    requires forall c :: c in byCategory ==> byCategory[c] == InCategory(items[..i], c)
    ensures var c := items[i].category;
      var grown := byCategory[c := (if c in byCategory then byCategory[c] else []) + [items[i]]];
      && (forall d :: d in grown <==> d in CategoriesOf(items[..i + 1]))
      && (forall d :: d in grown ==> grown[d] == InCategory(items[..i + 1], d))
  {
    var c, x := items[i].category, items[i];
    var sofar := if c in byCategory then byCategory[c] else [];
    var grown := byCategory[c := sofar + [x]];
    AppendItem(items, i);
    if c !in byCategory {
      InCategoryAbsent(items[..i], c);
    }
    assert sofar == InCategory(items[..i], c);
    forall d | d in grown
      ensures grown[d] == InCategory(items[..i + 1], d)
    {
      if d != c {
        assert grown[d] == byCategory[d];
      }
    }
  }

  /** Fills the per-category lists; the keys come out in order of first occurrence. */
  method GroupByCategory(items: seq<MenuItem>) returns (byCategory: map<string, seq<MenuItem>>, keys: seq<string>)
    ensures keys == Distinct(CategoriesOf(items))
    ensures forall c :: c in byCategory <==> c in keys
    ensures forall c :: c in byCategory ==> byCategory[c] == InCategory(items, c)
  {
    byCategory := map[];
    keys := [];
    for i := 0 to |items|
      invariant keys == Distinct(CategoriesOf(items[..i]))
      invariant forall c :: c in byCategory <==> c in CategoriesOf(items[..i])
      invariant forall c :: c in byCategory ==> byCategory[c] == InCategory(items[..i], c)
    {
      var c := items[i].category;
      GroupStep(items, i, byCategory);
      AppendItem(items, i);
      DistinctAppend(CategoriesOf(items[..i]), c);
      var sofar := [];
      if c in byCategory {
        sofar := byCategory[c];
      } else {
        keys := keys + [c];
      }
      byCategory := byCategory[c := sofar + [items[i]]];
    }
    assert items[..|items|] == items;
  }

  /** Behind the preferred categories that occur, a key not yet listed is exactly one not preferred. */
  lemma OthersStep(keys: seq<string>, preferred: seq<string>, k: nat)
    requires NoDuplicates(keys) && k < |keys|
    ensures var inPreferred := set c | c in preferred;
      && (keys[k] in Keep(preferred, set c | c in keys, true) + Keep(keys[..k], inPreferred, false) <==> keys[k] in preferred)
      && Keep(keys[..k + 1], inPreferred, false) == Keep(keys[..k], inPreferred, false) + (if keys[k] in preferred then [] else [keys[k]])
  {
    var inPreferred := set c | c in preferred;
    KeepStep(keys, k, inPreferred, false);
    KeepHas(preferred, (set c | c in keys), keys[k]);
    NotBefore(keys, k);
    assert keys[k] !in Keep(keys[..k], inPreferred, false);
  }

  /** Lists the preferred keys that occur, then every key not yet listed. */
  method SortCategories(keys: seq<string>, preferred: seq<string>) returns (categories: seq<string>)
    requires NoDuplicates(keys)
    ensures categories == Keep(preferred, set c | c in keys, true) + Keep(keys, set c | c in preferred, false)
  {
    var head := PreferredPresent(keys, preferred);
    categories := AppendOthers(head, keys, preferred);
  }

  /** The first loop: the preferred categories that occur, in preferred order. */
  method PreferredPresent(keys: seq<string>, preferred: seq<string>) returns (head: seq<string>)
    ensures head == Keep(preferred, set c | c in keys, true)
  {
    var inKeys := set c | c in keys;
    head := [];
    for k := 0 to |preferred|
      invariant head == Keep(preferred[..k], inKeys, true)
    {
      KeepStep(preferred, k, inKeys, true);
      if preferred[k] in keys {
        head := head + [preferred[k]];
      }
    }
    assert preferred[..|preferred|] == preferred;
  }

  /** The second loop: every key not listed yet is appended, in key order. */
  method AppendOthers(head: seq<string>, keys: seq<string>, preferred: seq<string>) returns (categories: seq<string>)
    requires NoDuplicates(keys)
    requires head == Keep(preferred, set c | c in keys, true)
    ensures categories == head + Keep(keys, set c | c in preferred, false)
  {
    var inPreferred := set c | c in preferred;
    categories := head;
    for k := 0 to |keys|
      invariant categories == head + Keep(keys[..k], inPreferred, false)
    {
      var c, others := keys[k], Keep(keys[..k], inPreferred, false);
      OthersStep(keys, preferred, k);
      if c !in categories {
        assert categories + [c] == head + (others + [c]);
        categories := categories + [c];
      }
    }
    assert keys[..|keys|] == keys;
  }

  /**
   * The menu page: the available items grouped by category, and the
   * category list with the preferred categories first.
   */
  method MenuPage(items: seq<MenuItem>) returns (byCategory: map<string, seq<MenuItem>>, categories: seq<string>)
    ensures categories == CategoryOrder(items)
    ensures forall c :: c in byCategory <==> c in CategoriesOf(items)
    ensures forall c :: c in byCategory ==> byCategory[c] == InCategory(items, c)
  {
    var keys;
    byCategory, keys := GroupByCategory(items);
    categories := SortCategories(keys, PreferredCategories);
    var cats := CategoriesOf(items);
    assert (set c | c in keys) == (set c | c in cats);
  }
}
