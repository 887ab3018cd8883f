/// The aggregates of components/Dashboard.tsx: the low-stock list, the stock
/// valuation, stock per category in order of first appearance, the headline
/// figures and the critical panel.
module Dashboard {
  import opened Types
  import opened Collections

  // ---------------------------------------------------------------------------
  // Low stock
  // ---------------------------------------------------------------------------

  predicate IsLow(p: Product)
  {
    p.stock <= p.minStock
  }

  /// `products.filter(p => p.stock <= p.minStock)`
  function LowStock(products: seq<Product>): (r: seq<Product>)
    ensures |r| <= |products|
    ensures forall p :: p in r <==> p in products && p.stock <= p.minStock
  {
    Filter(products, IsLow)
  }

  /// The low-stock list keeps catalogue order.
  lemma LowStockKeepsOrder(a: seq<Product>, b: seq<Product>)
    ensures LowStock(a + b) == LowStock(a) + LowStock(b)
  {
    FilterAppend(a, b, IsLow);
  }

  // ---------------------------------------------------------------------------
  // Sums
  // ---------------------------------------------------------------------------

  /// `products.reduce((a, b) => a + b.stock, 0)`
  function TotalStock(products: seq<Product>): int
  {
    if |products| == 0 then 0 else TotalStock(products[..|products| - 1]) + products[|products| - 1].stock
  }

  /// `products.reduce((acc, p) => acc + p.stock * p.price, 0)`
  function TotalValue(products: seq<Product>): real
  {
    if |products| == 0 then 0.0
    else TotalValue(products[..|products| - 1]) + products[|products| - 1].stock as real * products[|products| - 1].price
  }

  lemma {:induction false} TotalValueAppend(a: seq<Product>, b: seq<Product>)
    ensures TotalValue(a + b) == TotalValue(a) + TotalValue(b)
    decreases |b|
  {
    if |b| == 0 {
      assert a + b == a;
    } else {
      assert (a + b)[..|a + b| - 1] == a + b[..|b| - 1];
      TotalValueAppend(a, b[..|b| - 1]);
    }
  }

  /// A catalogue with no negative stock or price has a non-negative value.
  lemma {:induction false} TotalValueNonNegative(products: seq<Product>)
    requires forall p :: p in products ==> p.stock >= 0 && p.price >= 0.0
    ensures TotalValue(products) >= 0.0
    decreases |products|
  {
    if |products| > 0 {
      var n := |products| - 1;
      assert forall p :: p in products[..n] ==> p in products;
      TotalValueNonNegative(products[..n]);
      assert products[n] in products;
    }
  }

  /// Stock summed over the products of one category.
  function StockIn(products: seq<Product>, category: string): int
  {
    if |products| == 0 then 0
    else StockIn(products[..|products| - 1], category) +
         (if products[|products| - 1].category == category then products[|products| - 1].stock else 0)
  }

  lemma {:induction false} StockInAbsent(products: seq<Product>, category: string)
    requires forall k :: 0 <= k < |products| ==> products[k].category != category
    ensures StockIn(products, category) == 0
    decreases |products|
  {
    if |products| > 0 {
      StockInAbsent(products[..|products| - 1], category);
    }
  }

  // ---------------------------------------------------------------------------
  // Stock per category (`categoryData`)
  // ---------------------------------------------------------------------------

  datatype CategoryEntry = CategoryEntry(name: string, value: int)

  /// `acc.find(item => item.name === category)`, as an index.
  function IndexOfName(acc: seq<CategoryEntry>, name: string): (r: Option<nat>)
    ensures r.Some? ==> r.value < |acc| && acc[r.value].name == name
    ensures r.Some? ==> forall i :: 0 <= i < r.value ==> acc[i].name != name
    ensures r.None? ==> forall i :: 0 <= i < |acc| ==> acc[i].name != name
  {
    if |acc| == 0 then None
    else if acc[0].name == name then Some(0)
    else match IndexOfName(acc[1..], name)
      case None => None
      case Some(k) => Some(k + 1)
  }

  /// One step of the reduce: add to the entry of the product's category,
  /// or push a new entry for it.
  function CategoryStep(acc: seq<CategoryEntry>, p: Product): seq<CategoryEntry>
  {
    match IndexOfName(acc, p.category)
    case Some(k) => acc[k := acc[k].(value := acc[k].value + p.stock)]
    case None => acc + [CategoryEntry(p.category, p.stock)]
  }

  /// The reduce over the whole list.
  function CategoryData(products: seq<Product>): seq<CategoryEntry>
  {
    if |products| == 0 then [] else CategoryStep(CategoryData(products[..|products| - 1]), products[|products| - 1])
  }

  /// The reduce as the component runs it: one pass, growing the accumulator
  /// and adding to an existing entry in place.
  method ComputeCategoryData(products: seq<Product>) returns (acc: seq<CategoryEntry>)
    ensures acc == CategoryData(products)
    ensures forall i, j :: 0 <= i < j < |acc| ==> acc[i].name != acc[j].name
    ensures forall i :: 0 <= i < |acc| ==> acc[i].value == StockIn(products, acc[i].name)
  {
    acc := [];
    var n := 0;
    while n < |products|
      invariant n <= |products|
      invariant acc == CategoryData(products[..n])
    {
      var p := products[n];
      match IndexOfName(acc, p.category) {
        case Some(k) =>
          acc := acc[k := acc[k].(value := acc[k].value + p.stock)];
        case None =>
          acc := acc + [CategoryEntry(p.category, p.stock)];
      }
      assert products[..n + 1][..n] == products[..n];
      n := n + 1;
    }
    assert products[..n] == products;
    CategoryDataSums(products);
  }

  /// Whether some product of the list is in `category`.
  ghost predicate HasCategory(products: seq<Product>, category: string)
  {
    exists k :: 0 <= k < |products| && products[k].category == category
  }

  /// Whether an entry is named `name`.
  ghost predicate HasEntry(entries: seq<CategoryEntry>, name: string)
  {
    exists i :: 0 <= i < |entries| && entries[i].name == name
  }

  /// What the reduce keeps true of its accumulator: one entry per distinct
  /// category of `products`, each holding that category's stock.
  ghost predicate Summarises(products: seq<Product>, r: seq<CategoryEntry>)
  {
    && (forall i, j :: 0 <= i < j < |r| ==> r[i].name != r[j].name)
    && (forall i :: 0 <= i < |r| ==> r[i].value == StockIn(products, r[i].name))
    && (forall c :: HasEntry(r, c) <==> HasCategory(products, c))
  }

  lemma HasCategorySnoc(prefix: seq<Product>, q: Product)
    ensures forall c :: HasCategory(prefix + [q], c) <==> HasCategory(prefix, c) || q.category == c
  {
    var products := prefix + [q];
    forall c ensures HasCategory(products, c) <==> HasCategory(prefix, c) || q.category == c {
      if HasCategory(prefix, c) {
        var k :| 0 <= k < |prefix| && prefix[k].category == c;
        assert products[k].category == c;
      }
      if q.category == c {
        assert products[|prefix|].category == c;
      }
      if HasCategory(products, c) && q.category != c {
        var k :| 0 <= k < |products| && products[k].category == c;
        assert prefix[k].category == c;
      }
    }
  }

  lemma StockInSnoc(prefix: seq<Product>, q: Product)
    ensures forall c :: StockIn(prefix + [q], c) == StockIn(prefix, c) + (if q.category == c then q.stock else 0)
  {
    assert (prefix + [q])[..|prefix|] == prefix;
  }

  /// Adding a product to its existing entry keeps the summary.
  lemma MergeKeepsSummary(prefix: seq<Product>, q: Product, before: seq<CategoryEntry>, k: nat)
    requires Summarises(prefix, before)
    requires k < |before| && before[k].name == q.category
    ensures Summarises(prefix + [q], before[k := before[k].(value := before[k].value + q.stock)])
  {
    var products := prefix + [q];
    var r := before[k := before[k].(value := before[k].value + q.stock)];
    HasCategorySnoc(prefix, q);
    StockInSnoc(prefix, q);
    assert forall i :: 0 <= i < |r| ==> r[i].name == before[i].name;
    forall i | 0 <= i < |r| ensures r[i].value == StockIn(products, r[i].name) {
      if i != k {
        assert before[i].name != before[k].name;
      }
    }
    forall c ensures HasEntry(r, c) <==> HasEntry(before, c) {
      if HasEntry(r, c) {
        var i :| 0 <= i < |r| && r[i].name == c;
        assert before[i].name == c;
      }
      if HasEntry(before, c) {
        var i :| 0 <= i < |before| && before[i].name == c;
        assert r[i].name == c;
      }
    }
    assert HasEntry(before, q.category);
  }

  /// Pushing an entry for a new category keeps the summary.
  lemma PushKeepsSummary(prefix: seq<Product>, q: Product, before: seq<CategoryEntry>)
    requires Summarises(prefix, before)
    requires forall i :: 0 <= i < |before| ==> before[i].name != q.category
    ensures Summarises(prefix + [q], before + [CategoryEntry(q.category, q.stock)])
  {
    var products := prefix + [q];
    var r := before + [CategoryEntry(q.category, q.stock)];
    HasCategorySnoc(prefix, q);
    StockInSnoc(prefix, q);
    assert !HasEntry(before, q.category);
    assert !HasCategory(prefix, q.category);
    forall k | 0 <= k < |prefix| ensures prefix[k].category != q.category {
      assert HasCategory(prefix, prefix[k].category);
    }
    StockInAbsent(prefix, q.category);
    forall i | 0 <= i < |r| ensures r[i].value == StockIn(products, r[i].name) {
      if i < |before| {
        assert r[i] == before[i];
      }
    }
    forall c ensures HasEntry(r, c) <==> HasEntry(before, c) || c == q.category {
      if HasEntry(r, c) && c != q.category {
        var i :| 0 <= i < |r| && r[i].name == c;
        assert before[i].name == c;
      }
      if HasEntry(before, c) {
        var i :| 0 <= i < |before| && before[i].name == c;
        assert r[i].name == c;
      }
      if c == q.category {
        assert r[|before|].name == c;
      }
    }
  }

  /// One entry per distinct category, and each entry holds the stock of
  /// exactly the products of its category.
  lemma {:induction false} CategoryDataSums(products: seq<Product>)
    ensures var r := CategoryData(products);
            && (forall i, j :: 0 <= i < j < |r| ==> r[i].name != r[j].name)
            && (forall i :: 0 <= i < |r| ==> r[i].value == StockIn(products, r[i].name))
            && (forall c :: HasEntry(r, c) <==> HasCategory(products, c))
    decreases |products|
  {
    if |products| > 0 {
      var n := |products| - 1;
      var prefix := products[..n];
      var q := products[n];
      var before := CategoryData(prefix);
      CategoryDataSums(prefix);
      assert products == prefix + [q];
      match IndexOfName(before, q.category) {
        case Some(k) =>
          MergeKeepsSummary(prefix, q, before, k);
        case None =>
          PushKeepsSummary(prefix, q, before);
      }
    }
  }

  function SumValues(entries: seq<CategoryEntry>): int
  {
    if |entries| == 0 then 0 else SumValues(entries[..|entries| - 1]) + entries[|entries| - 1].value
  }

  lemma {:induction false} SumValuesUpdate(entries: seq<CategoryEntry>, k: nat, delta: int)
    requires k < |entries|
    ensures SumValues(entries[k := entries[k].(value := entries[k].value + delta)]) == SumValues(entries) + delta
    decreases |entries|
  {
    var n := |entries| - 1;
    var updated := entries[k := entries[k].(value := entries[k].value + delta)];
    assert updated[..n] == if k < n then entries[..n][k := entries[k].(value := entries[k].value + delta)] else entries[..n];
    if k < n {
      SumValuesUpdate(entries[..n], k, delta);
    }
  }

  /// The category entries add up to the "Total Stock" figure.
  lemma {:induction false} CategoryDataAddsUpToTotal(products: seq<Product>)
    ensures SumValues(CategoryData(products)) == TotalStock(products)
    decreases |products|
  {
    if |products| > 0 {
      var n := |products| - 1;
      var before := CategoryData(products[..n]);
      var q := products[n];
      var r := CategoryData(products);
      assert r == CategoryStep(before, q);
      assert TotalStock(products) == TotalStock(products[..n]) + q.stock;
      CategoryDataAddsUpToTotal(products[..n]);
      var found := IndexOfName(before, q.category);
      if found.Some? {
        var k := found.value;
        assert r == before[k := before[k].(value := before[k].value + q.stock)];
        SumValuesUpdate(before, k, q.stock);
      } else {
        var added := before + [CategoryEntry(q.category, q.stock)];
        assert r == added;
        assert added[..|added| - 1] == before;
      }
    }
  }

  /// Position of the first product of a category.
  function FirstIndex(products: seq<Product>, category: string): (r: nat)
    requires HasCategory(products, category)
    ensures r < |products| && products[r].category == category
    ensures forall j :: 0 <= j < r ==> products[j].category != category
  {
    if products[0].category == category then 0
    else
      assert HasCategory(products[1..], category) by {
        var k :| 0 <= k < |products| && products[k].category == category;
        assert products[1..][k - 1].category == category;
      }
      1 + FirstIndex(products[1..], category)
  }

  lemma FirstIndexIsLeast(products: seq<Product>, category: string, k: nat)
    requires k < |products| && products[k].category == category
    requires forall j :: 0 <= j < k ==> products[j].category != category
    ensures HasCategory(products, category) && FirstIndex(products, category) == k
  {
    assert HasCategory(products, category);
    var f := FirstIndex(products, category);
    assert !(f < k) && !(k < f);
  }

  /// A category present in a prefix keeps its first position in the longer list.
  lemma FirstIndexInPrefix(products: seq<Product>, n: nat, c: string)
    requires n <= |products| && HasCategory(products[..n], c)
    ensures HasCategory(products, c)
    ensures FirstIndex(products, c) == FirstIndex(products[..n], c) < n
  {
    var prefix := products[..n];
    var f := FirstIndex(prefix, c);
    assert products[f] == prefix[f];
    forall j | 0 <= j < f ensures products[j].category != c {
      assert products[j] == prefix[j];
    }
    FirstIndexIsLeast(products, c, f);
  }

  /// Every entry names a category of `products`, and the entries are sorted
  /// by the position where their category first occurs.
  ghost predicate InFirstAppearanceOrder(products: seq<Product>, r: seq<CategoryEntry>)
  {
    && (forall i :: 0 <= i < |r| ==> HasCategory(products, r[i].name))
    && (forall i, j :: 0 <= i < j < |r| ==> FirstIndex(products, r[i].name) < FirstIndex(products, r[j].name))
  }

  /// The entries come in the order in which their categories first appear
  /// in the product list.
  lemma {:induction false} CategoryDataInFirstAppearanceOrder(products: seq<Product>)
    ensures InFirstAppearanceOrder(products, CategoryData(products))
    decreases |products|
  {
    if |products| > 0 {
      var n := |products| - 1;
      var prefix := products[..n];
      var q := products[n];
      CategoryDataInFirstAppearanceOrder(prefix);
      var before := CategoryData(prefix);
      assert products == prefix + [q];
      CategoryDataSums(prefix);
      StepKeepsOrder(prefix, q, before);
    }
  }

  /// One step of the reduce keeps first-appearance order, given that every
  /// category of the prefix already has an entry.
  lemma StepKeepsOrder(prefix: seq<Product>, q: Product, before: seq<CategoryEntry>)
    requires InFirstAppearanceOrder(prefix, before)
    requires HasCategory(prefix, q.category) ==> HasEntry(before, q.category)
    ensures InFirstAppearanceOrder(prefix + [q], CategoryStep(before, q))
  {
    PrefixEntriesKeepPositions(prefix, q, before);
    match IndexOfName(before, q.category) {
      case Some(k) =>
        OrderAfterMerge(prefix, q, before, k);
      case None =>
        assert !HasEntry(before, q.category);
        OrderAfterPush(prefix, q, before);
    }
  }

  /// Entries found in the prefix keep their first positions.
  lemma PrefixEntriesKeepPositions(prefix: seq<Product>, q: Product, before: seq<CategoryEntry>)
    requires InFirstAppearanceOrder(prefix, before)
    ensures forall i :: 0 <= i < |before| ==>
              HasCategory(prefix + [q], before[i].name) &&
              FirstIndex(prefix + [q], before[i].name) == FirstIndex(prefix, before[i].name) < |prefix|
  {
    var products := prefix + [q];
    assert products[..|prefix|] == prefix;
    forall i | 0 <= i < |before|
      ensures HasCategory(products, before[i].name)
      ensures FirstIndex(products, before[i].name) == FirstIndex(prefix, before[i].name) < |prefix|
    {
      FirstIndexInPrefix(products, |prefix|, before[i].name);
    }
  }

  /// Adding to an existing entry keeps first-appearance order.
  lemma OrderAfterMerge(prefix: seq<Product>, q: Product, before: seq<CategoryEntry>, k: nat)
    requires InFirstAppearanceOrder(prefix, before)
    requires k < |before| && before[k].name == q.category
    requires forall i :: 0 <= i < |before| ==>
               HasCategory(prefix + [q], before[i].name) &&
               FirstIndex(prefix + [q], before[i].name) == FirstIndex(prefix, before[i].name)
    ensures InFirstAppearanceOrder(prefix + [q], before[k := before[k].(value := before[k].value + q.stock)])
  {
    var r := before[k := before[k].(value := before[k].value + q.stock)];
    assert forall i :: 0 <= i < |r| ==> r[i].name == before[i].name;
  }

  /// Pushing a category the prefix lacks keeps first-appearance order: its
  /// first position is the new last one.
  lemma OrderAfterPush(prefix: seq<Product>, q: Product, before: seq<CategoryEntry>)
    requires InFirstAppearanceOrder(prefix, before)
    requires !HasCategory(prefix, q.category)
    requires forall i :: 0 <= i < |before| ==>
               HasCategory(prefix + [q], before[i].name) &&
               FirstIndex(prefix + [q], before[i].name) == FirstIndex(prefix, before[i].name) < |prefix|
    ensures InFirstAppearanceOrder(prefix + [q], before + [CategoryEntry(q.category, q.stock)])
  {
    var products := prefix + [q];
    var n := |prefix|;
    var r := before + [CategoryEntry(q.category, q.stock)];
    forall j | 0 <= j < n ensures products[j].category != q.category {
      assert products[j] == prefix[j];
    }
    FirstIndexIsLeast(products, q.category, n);
    forall i | 0 <= i < |r| ensures HasCategory(products, r[i].name) {
      if i < |before| {
        assert r[i] == before[i];
      }
    }
    forall i, j | 0 <= i < j < |r|
      ensures FirstIndex(products, r[i].name) < FirstIndex(products, r[j].name)
    {
      assert r[i] == before[i];
      if j < |before| {
        assert r[j] == before[j];
      }
    }
  }

  // ---------------------------------------------------------------------------
  // Headline figures and the critical panel
  // ---------------------------------------------------------------------------

  /// "Ubicaciones": `new Set(products.map(p => p.location)).size`
  function LocationCount(products: seq<Product>): nat
  {
    |set p | p in products :: p.location|
  }

  /// There are never more locations than products, and at least one when
  /// there is a product.
  lemma {:induction false} LocationCountBounds(products: seq<Product>)
    ensures LocationCount(products) <= |products|
    ensures |products| > 0 ==> LocationCount(products) >= 1
    decreases |products|
  {
    if |products| > 0 {
      var tail := products[1..];
      LocationCountBounds(tail);
      var all := set p | p in products :: p.location;
      var rest := set p | p in tail :: p.location;
      assert all == rest + {products[0].location} by {
        assert forall p :: p in products <==> p in tail || p == products[0];
      }
      assert products[0].location in all;
    }
  }

  datatype Stats = Stats(totalStock: int, totalValue: real, critical: nat, locations: nat)

  /// The four headline figures.
  function DashboardStats(products: seq<Product>): (s: Stats)
    ensures s.critical == |LowStock(products)| && s.critical <= |products|
    ensures s.totalStock == SumValues(CategoryData(products))
    ensures s.locations <= |products|
  {
    CategoryDataAddsUpToTotal(products);
    LocationCountBounds(products);
    Stats(TotalStock(products), TotalValue(products), |LowStock(products)|, LocationCount(products))
  }

  /// The critical panel: the first five low-stock products, or the
  /// "all in order" message when there are none.
  datatype CriticalPanel = AllClear | Critical(rows: seq<Product>)

  function CriticalPanelView(products: seq<Product>): (v: CriticalPanel)
    ensures v.AllClear? <==> forall p :: p in products ==> p.stock > p.minStock
    ensures v.Critical? ==> 1 <= |v.rows| <= 5 && |v.rows| == (if |LowStock(products)| < 5 then |LowStock(products)| else 5)
    ensures v.Critical? ==> v.rows == LowStock(products)[..|v.rows|]
  {
    var low := LowStock(products);
    if |low| > 0 then
      assert low[0] in low;
      Critical(low[..if |low| < 5 then |low| else 5])
    else
      AllClear
  }
}
