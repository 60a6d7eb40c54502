/**
 * The session cart is a flat list of menu item ids, one entry per unit.  The
 * cart page and order placement both group it into (id, count) pairs in
 * order of first occurrence, resolve each id against the menu (skipping ids
 * that are no longer there) and add up a subtotal.
 */
module Cart {
  import opened Seqs
  import opened Menu

  /** One entry of the item_counts dict: a menu item id and how often the cart holds it. */
  datatype ItemCount = ItemCount(id: int, quantity: nat)

  /** A resolved cart line: the id, the menu item it names and its quantity. */
  datatype CartLine = CartLine(id: int, item: MenuItem, quantity: nat)

  /** The stored snapshot of an ordered line, independent of later menu edits. */
  datatype OrderItem = OrderItem(name: string, quantity: nat, price: int)

  /** The counts in cart of each of the keys, in key order. */
  function Tally(keys: seq<int>, cart: seq<int>): (g: seq<ItemCount>)
    ensures |g| == |keys|
  {
    if keys == [] then []
    else
      var k := keys[|keys| - 1];
      Tally(keys[..|keys| - 1], cart) + [ItemCount(k, Count(cart, k))]
  }

  /** The i-th entry of a tally counts the i-th key. */
  lemma {:induction false} TallyAt(keys: seq<int>, cart: seq<int>)
    ensures forall i :: 0 <= i < |keys| ==> Tally(keys, cart)[i] == ItemCount(keys[i], Count(cart, keys[i]))
  {
    if keys != [] {
      TallyAt(keys[..|keys| - 1], cart);
    }
  }

  /** The item_counts dict of a cart: its distinct ids in order of first occurrence, with their counts. */
  function Grouped(cart: seq<int>): (g: seq<ItemCount>)
    ensures |g| <= |cart| && (g == [] <==> cart == [])
  {
    Tally(Distinct(cart), cart)
  }

  /** The sum over the groups of w(id) * quantity. */
  function Weighted(groups: seq<ItemCount>, w: int -> int): int {
    if groups == [] then 0
    else
      var g := groups[|groups| - 1];
      Weighted(groups[..|groups| - 1], w) + w(g.id) * g.quantity
  }

  /** The sum of w over the cart's entries, one by one. */
  function FlatSum(cart: seq<int>, w: int -> int): int {
    if cart == [] then 0 else FlatSum(cart[..|cart| - 1], w) + w(cart[|cart| - 1])
  }

  /** The price of an id, 0 for an id the menu no longer has. */
  function PriceIn(menu: map<int, MenuItem>): int -> int {
    id => if id in menu then menu[id].price else 0
  }

  /** 1 for an id the menu has, 0 otherwise. */
  function Known(menu: map<int, MenuItem>): int -> int {
    id => if id in menu then 1 else 0
  }

  function One(): int -> int {
    _ => 1
  }

  /** Counting an unfilled cart gives only zeros. */
  lemma {:induction false} TallyOfEmpty(keys: seq<int>, w: int -> int)
    ensures Weighted(Tally(keys, []), w) == 0
  {
    if keys != [] {
      TallyOfEmpty(keys[..|keys| - 1], w);
    }
  }

  /** Multiplying by one more. */
  lemma MulSucc(a: int, n: int)
    ensures a * (n + 1) == a * n + a && (n + 1) * a == n * a + a
  {
  }

  /** Weighted unfolded at the last key of a tally. */
  lemma TallyLast(keys: seq<int>, cart: seq<int>, w: int -> int)
    requires keys != []
    ensures var k := keys[|keys| - 1];
      Weighted(Tally(keys, cart), w) == Weighted(Tally(keys[..|keys| - 1], cart), w) + w(k) * Count(cart, k)
  {
    var t := Tally(keys, cart);
    assert t[..|t| - 1] == Tally(keys[..|keys| - 1], cart);
  }

  /** One more entry x adds w(x) once for every key equal to x. */
  lemma {:induction false} TallyAppend(keys: seq<int>, cart: seq<int>, x: int, w: int -> int)
    requires NoDuplicates(keys)
    ensures Weighted(Tally(keys, cart + [x]), w) == Weighted(Tally(keys, cart), w) + (if x in keys then w(x) else 0)
  {
    if keys != [] {
      var p, k := keys[..|keys| - 1], keys[|keys| - 1];
      TallyAppend(p, cart, x, w);
      var c, a := Count(cart, k), w(k);
      assert Weighted(Tally(keys, cart), w) == Weighted(Tally(p, cart), w) + a * c by {
        TallyLast(keys, cart, w);
      }
      assert Weighted(Tally(keys, cart + [x]), w) == Weighted(Tally(p, cart + [x]), w) + a * Count(cart + [x], k) by {
        TallyLast(keys, cart + [x], w);
      }
      assert Count(cart + [x], k) == c + (if k == x then 1 else 0) by {
        assert (cart + [x])[..|cart|] == cart;
      }
      assert (x in keys) == (k == x || x in p) by {
        assert keys == p + [k];
      }
      if k == x {
        assert x !in p by {
          assert keys == p + [k];
        }
        MulSucc(a, c);
      }
    }
  }

  /**
   * Counting by distinct keys and weighting each count gives the same sum as
   * weighting the cart entry by entry.
   */
  lemma {:induction false} TallyWeighted(keys: seq<int>, cart: seq<int>, w: int -> int)
    requires NoDuplicates(keys)
    requires forall i :: 0 <= i < |cart| ==> cart[i] in keys
    ensures Weighted(Tally(keys, cart), w) == FlatSum(cart, w)
  {
    if cart == [] {
      TallyOfEmpty(keys, w);
    } else {
      var p, x := cart[..|cart| - 1], cart[|cart| - 1];
      assert cart == p + [x];
      TallyWeighted(keys, p, w);
      TallyAppend(keys, p, x, w);
    }
  }

  lemma GroupedWeighted(cart: seq<int>, w: int -> int)
    ensures Weighted(Grouped(cart), w) == FlatSum(cart, w)
  {
    TallyWeighted(Distinct(cart), cart, w);
  }

  lemma {:induction false} FlatSumOne(cart: seq<int>)
    ensures FlatSum(cart, One()) == |cart|
  {
    if cart != [] {
      FlatSumOne(cart[..|cart| - 1]);
    }
  }

  /**
   * The grouping of a cart: each distinct id once, in order of first
   * occurrence, each with its number of occurrences (at least one), and the
   * quantities add up to the length of the cart.
   */
  lemma GroupedSpec(cart: seq<int>)
    ensures var g := Grouped(cart);
      && (forall i, j :: 0 <= i < j < |g| ==> g[i].id != g[j].id)
      && (forall id :: id in cart <==> exists i :: 0 <= i < |g| && g[i].id == id)
      && (forall i :: 0 <= i < |g| ==> g[i].quantity == Count(cart, g[i].id) >= 1)
      && (forall i, j :: 0 <= i < j < |g| ==> FirstIndex(cart, g[i].id) < FirstIndex(cart, g[j].id))
      && Weighted(g, One()) == |cart|
  {
    var d, g := Distinct(cart), Grouped(cart);
    TallyAt(d, cart);
    forall id | id in cart ensures exists i :: 0 <= i < |g| && g[i].id == id {
      var i :| 0 <= i < |d| && d[i] == id;
      assert g[i].id == id;
    }
    forall i, j | 0 <= i < j < |g| ensures FirstIndex(cart, g[i].id) < FirstIndex(cart, g[j].id) {
      DistinctFirstOccurrenceOrder(cart, i, j);
    }
    GroupedWeighted(cart, One());
    FlatSumOne(cart);
  }

  /** Resolves each group against the menu; a group whose id is gone is skipped. */
  function Resolve(groups: seq<ItemCount>, menu: map<int, MenuItem>): (lines: seq<CartLine>)
    ensures |lines| <= |groups|
    ensures forall i :: 0 <= i < |lines| ==>
      lines[i].id in menu && lines[i].item == menu[lines[i].id] &&
      ItemCount(lines[i].id, lines[i].quantity) in groups
  {
    if groups == [] then []
    else
      var p, g := groups[..|groups| - 1], groups[|groups| - 1];
      var rest := Resolve(p, menu);
      assert forall c :: c in p ==> c in groups;
      if g.id in menu then rest + [CartLine(g.id, menu[g.id], g.quantity)] else rest
  }

  function LineIds(lines: seq<CartLine>): (ids: seq<int>)
    ensures |ids| == |lines| && forall i :: 0 <= i < |lines| ==> ids[i] == lines[i].id
  {
    seq(|lines|, i requires 0 <= i < |lines| => lines[i].id)
  }

  /** price * quantity of every line, added up: the subtotal. */
  function LinesTotal(lines: seq<CartLine>): int {
    if lines == [] then 0
    else
      var l := lines[|lines| - 1];
      LinesTotal(lines[..|lines| - 1]) + l.item.price * l.quantity
  }

  /** The quantities of the lines, added up. */
  function LinesQuantity(lines: seq<CartLine>): int {
    if lines == [] then 0 else LinesQuantity(lines[..|lines| - 1]) + lines[|lines| - 1].quantity
  }

  /** The snapshot stored with an order: name, quantity and price of each line. */
  function Snapshot(lines: seq<CartLine>): (items: seq<OrderItem>)
    ensures |items| == |lines|
    ensures forall i :: 0 <= i < |lines| ==>
      items[i] == OrderItem(lines[i].item.name, lines[i].quantity, lines[i].item.price)
  {
    seq(|lines|, i requires 0 <= i < |lines| => OrderItem(lines[i].item.name, lines[i].quantity, lines[i].item.price))
  }

  /** The resolved lines add up to the weighted sums of the groups. */
  lemma {:induction false} ResolveSums(groups: seq<ItemCount>, menu: map<int, MenuItem>)
    ensures LinesTotal(Resolve(groups, menu)) == Weighted(groups, PriceIn(menu))
    ensures LinesQuantity(Resolve(groups, menu)) == Weighted(groups, Known(menu))
  {
    if groups != [] {
      var p, g := groups[..|groups| - 1], groups[|groups| - 1];
      ResolveSums(p, menu);
      var rest := Resolve(p, menu);
      if g.id in menu {
        var lines := rest + [CartLine(g.id, menu[g.id], g.quantity)];
        assert lines[..|lines| - 1] == rest;
      }
    }
  }

  /**
   * The resolved lines name exactly the keys the menu still has, in key
   * order, each with its count in the cart.
   */
  lemma {:induction false} ResolveIds(keys: seq<int>, cart: seq<int>, menu: map<int, MenuItem>)
    ensures LineIds(Resolve(Tally(keys, cart), menu)) == Keep(keys, menu.Keys, true)
    ensures var lines := Resolve(Tally(keys, cart), menu);
      forall i :: 0 <= i < |lines| ==> lines[i].quantity == Count(cart, lines[i].id)
  {
    if keys != [] {
      var p := keys[..|keys| - 1];
      ResolveIds(p, cart, menu);
      var t := Tally(keys, cart);
      assert t[..|t| - 1] == Tally(p, cart);
    }
  }

  /**
   * The lines the cart page and order placement build from a cart: one per
   * distinct id still on the menu, in order of first occurrence, carrying
   * that id's count.
   */
  lemma CartLines(cart: seq<int>, menu: map<int, MenuItem>)
    ensures var lines := Resolve(Grouped(cart), menu);
      && LineIds(lines) == Keep(Distinct(cart), menu.Keys, true)
      && (forall i :: 0 <= i < |lines| ==> lines[i].quantity == Count(cart, lines[i].id))
  {
    ResolveIds(Distinct(cart), cart, menu);
  }

  /**
   * The subtotal is the sum of the prices of the cart's entries, entry by
   * entry, with vanished items counting nothing; the quantities of the lines
   * add up to the number of entries still on the menu.
   */
  lemma CartSums(cart: seq<int>, menu: map<int, MenuItem>)
    ensures var lines := Resolve(Grouped(cart), menu);
      && LinesTotal(lines) == FlatSum(cart, PriceIn(menu))
      && LinesQuantity(lines) == FlatSum(cart, Known(menu))
  {
    ResolveSums(Grouped(cart), menu);
    GroupedWeighted(cart, PriceIn(menu));
    GroupedWeighted(cart, Known(menu));
  }

  /**
   * The counting loop of the cart page and of order placement: item_counts
   * is filled entry by entry; its keys, in insertion order, are the
   * distinct ids in order of first occurrence.
   */
  method CountItems(cart: seq<int>) returns (keys: seq<int>, counts: map<int, nat>)
    ensures keys == Distinct(cart)
    ensures forall id :: id in counts <==> id in cart
    ensures forall id :: id in counts ==> counts[id] == Count(cart, id)
  {
    keys, counts := [], map[];
    for i := 0 to |cart|
      invariant keys == Distinct(cart[..i])
      invariant forall id :: id in counts <==> id in keys
      invariant forall id :: id in counts ==> counts[id] == Count(cart[..i], id)
    {
      var id := cart[i];
      assert cart[..i + 1] == cart[..i] + [id];
      assert cart[..i + 1][..i] == cart[..i];
      assert id !in counts ==> Count(cart[..i], id) == 0;
      if id !in counts {
        keys := keys + [id];
      }
      counts := counts[id := (if id in counts then counts[id] else 0) + 1];
    }
    assert cart[..|cart|] == cart;
  }

  /**
   * Walks item_counts in insertion order, resolves each id against the menu
   * and accumulates the subtotal, skipping ids the menu no longer has.
   */
  /** Resolving one more key of a tally adds that key's line, if the menu still has it. */
  lemma ResolveStep(keys: seq<int>, k: int, cart: seq<int>, menu: map<int, MenuItem>)
    requires 0 <= k < |keys|
    ensures var id := keys[k];
      Resolve(Tally(keys[..k + 1], cart), menu) ==
        Resolve(Tally(keys[..k], cart), menu) + (if id in menu then [CartLine(id, menu[id], Count(cart, id))] else [])
  {
    var t := Tally(keys[..k + 1], cart);
    assert keys[..k + 1][..k] == keys[..k];
    assert t[..|t| - 1] == Tally(keys[..k], cart);
  }

  method ResolveCart(cart: seq<int>, menu: map<int, MenuItem>) returns (lines: seq<CartLine>, subtotal: int)
    ensures lines == Resolve(Grouped(cart), menu)
    ensures subtotal == LinesTotal(lines) == FlatSum(cart, PriceIn(menu))
  {
    var keys, counts := CountItems(cart);
    lines, subtotal := [], 0;
    for k := 0 to |keys|
      invariant lines == Resolve(Tally(keys[..k], cart), menu)
      invariant subtotal == LinesTotal(lines)
    {
      var id := keys[k];
      assert id in cart;
      var quantity := counts[id];
      ResolveStep(keys, k, cart, menu);
      if id in menu {
        var item := menu[id];
        var next := lines + [CartLine(id, item, quantity)];
        assert next[..|next| - 1] == lines;
        lines := next;
        subtotal := subtotal + item.price * quantity;
      }
    }
    assert keys[..|keys|] == keys;
    CartSums(cart, menu);
  }

  /**
   * Adding an item and then decreasing it again restores every item's
   * quantity (the display order of the groups may change, since the first
   * occurrence is the one removed).
   */
  lemma AddThenDecrease(cart: seq<int>, id: int)
    ensures forall x :: Count(RemoveFirst(cart + [id], id), x) == Count(cart, x)
  {
    assert id in cart + [id] by {
      assert (cart + [id])[|cart|] == id;
    }
    forall x ensures Count(RemoveFirst(cart + [id], id), x) == Count(cart, x) {
      RemoveFirstCount(cart + [id], id, x);
      assert (cart + [id])[..|cart|] == cart;
    }
  }
}
