/// The inventory-count part of App.tsx: resolving a scanned code to a product,
/// the count session (none -> active(type, progress) -> none) and the
/// role-gated navigation.
module App {
  import opened Types
  import opened Collections

  /// The signed-in user is hard-coded in the application.
  const CurrentUser: User := User("u1", "Carlos Admin", Admin)

  // ---------------------------------------------------------------------------
  // Scan resolution: `products.find(p => p.sku === code || p.rfidTag === code)`
  // ---------------------------------------------------------------------------

  /// Exact, case-sensitive match on the SKU or on the RFID tag. A product
  /// without a tag matches by SKU only.
  predicate Matches(p: Product, code: string)
  {
    p.sku == code || p.rfidTag == Some(code)
  }

  /// Index of the first product that matches `code`, if any.
  function FindIndex(products: seq<Product>, code: string): (r: Option<nat>)
    ensures r.Some? ==> r.value < |products| && Matches(products[r.value], code)
    ensures r.Some? ==> forall j :: 0 <= j < r.value ==> !Matches(products[j], code)
    ensures r.None? ==> forall j :: 0 <= j < |products| ==> !Matches(products[j], code)
  {
    if |products| == 0 then None
    else if Matches(products[0], code) then Some(0)
    else match FindIndex(products[1..], code)
      case None => None
      case Some(k) => Some(k + 1)
  }

  /// The product a scanned code stands for: the first one, in list order,
  /// whose SKU or RFID tag equals the code; None when no product matches.
  function Resolve(products: seq<Product>, code: string): (r: Option<Product>)
    ensures r.None? <==> forall p :: p in products ==> !Matches(p, code)
    ensures r.Some? ==> exists i :: 0 <= i < |products| && products[i] == r.value && Matches(r.value, code) &&
                                   forall j :: 0 <= j < i ==> !Matches(products[j], code)
  {
    match FindIndex(products, code)
    case None => None
    case Some(i) => Some(products[i])
  }

  /// No two products share a SKU.
  ghost predicate UniqueSkus(products: seq<Product>)
  {
    forall i, j :: 0 <= i < j < |products| ==> products[i].sku != products[j].sku
  }

  /// No product's RFID tag equals another product's SKU.
  ghost predicate NoTagShadowsSku(products: seq<Product>)
  {
    forall i, j :: 0 <= i < |products| && 0 <= j < |products| && i != j ==>
      products[i].rfidTag != Some(products[j].sku)
  }

  /// Sending a product's own SKU through resolution (the manual-capture
  /// button) finds that same product when SKUs are unique and no tag
  /// shadows another product's SKU.
  lemma ManualCodeResolvesToItself(products: seq<Product>, k: nat)
    requires k < |products|
    requires UniqueSkus(products) && NoTagShadowsSku(products)
    ensures Resolve(products, products[k].sku) == Some(products[k])
  {
    var code := products[k].sku;
    assert Matches(products[k], code);
    var i := FindIndex(products, code).value;
    assert i <= k;
    assert products[i].sku == code || products[i].rfidTag == Some(products[k].sku);
  }

  /// Without those conditions the manual capture can count another product:
  /// an earlier product whose tag equals this product's SKU wins the lookup.
  lemma ManualCodeCanBeShadowed()
    ensures var a := Product("1", "NX-001", "Laptop", "Electronica", 15, 5, 1200.0, "A-1", None, Some("NX-002"));
            var b := Product("2", "NX-002", "Monitor", "Electronica", 3, 10, 450.0, "A-2", None, None);
            Resolve([a, b], b.sku) == Some(a)
  {
    var a := Product("1", "NX-001", "Laptop", "Electronica", 15, 5, 1200.0, "A-1", None, Some("NX-002"));
    var b := Product("2", "NX-002", "Monitor", "Electronica", 3, 10, 450.0, "A-2", None, None);
    assert Matches(a, b.sku);
  }

  // ---------------------------------------------------------------------------
  // Count progress: product id -> units scanned in the current session
  // ---------------------------------------------------------------------------

  /// `{ ...progress, [id]: (progress[id] || 0) + 1 }`
  function Bump(progress: map<string, int>, id: string): (r: map<string, int>)
    ensures r.Keys == progress.Keys + {id}
    ensures r[id] == (if id in progress then progress[id] else 0) + 1
    ensures forall other :: other in progress && other != id ==> r[other] == progress[other]
  {
    progress[id := (if id in progress then progress[id] else 0) + 1]
  }

  /// The progress map reached from the empty one by scanning `codes` in
  /// order; codes that resolve to no product leave it as it is.
  function Tally(products: seq<Product>, codes: seq<string>): map<string, int>
    decreases |codes|
  {
    if |codes| == 0 then map[]
    else
      var before := Tally(products, codes[..|codes| - 1]);
      match Resolve(products, codes[|codes| - 1])
      case None => before
      case Some(p) => Bump(before, p.id)
  }

  /// Whether `code` resolves to a product with identifier `id`.
  predicate ResolvesTo(products: seq<Product>, code: string, id: string)
  {
    var r := Resolve(products, code);
    r.Some? && r.value.id == id
  }

  /// How many of `codes` resolve to the product with identifier `id`.
  function ScansOf(products: seq<Product>, codes: seq<string>, id: string): nat
  {
    if |codes| == 0 then 0
    else (if ResolvesTo(products, codes[0], id) then 1 else 0) + ScansOf(products, codes[1..], id)
  }

  lemma {:induction false} ScansOfSnoc(products: seq<Product>, codes: seq<string>, code: string, id: string)
    ensures ScansOf(products, codes + [code], id) ==
            ScansOf(products, codes, id) + (if ResolvesTo(products, code, id) then 1 else 0)
  {
    if |codes| == 0 {
      assert codes + [code] == [code];
      assert [code][1..] == [];
    } else {
      assert (codes + [code])[0] == codes[0];
      assert (codes + [code])[1..] == codes[1..] + [code];
      ScansOfSnoc(products, codes[1..], code, id);
    }
  }

  /// The progress built by a session is exactly a per-product scan count:
  /// a product id is a key iff at least one scan resolved to it, and its
  /// value is the number of such scans.
  lemma {:induction false} TallyCountsScans(products: seq<Product>, codes: seq<string>)
    ensures forall id :: id in Tally(products, codes) <==> ScansOf(products, codes, id) > 0
    ensures forall id :: id in Tally(products, codes) ==> Tally(products, codes)[id] == ScansOf(products, codes, id)
    decreases |codes|
  {
    if |codes| > 0 {
      var n := |codes| - 1;
      var prefix := codes[..n];
      assert codes == prefix + [codes[n]];
      TallyCountsScans(products, prefix);
      forall id
        ensures ScansOf(products, codes, id) ==
                ScansOf(products, prefix, id) + (if ResolvesTo(products, codes[n], id) then 1 else 0)
      {
        ScansOfSnoc(products, prefix, codes[n], id);
      }
    }
  }

  /// Every stored count is at least one and belongs to a catalogue product.
  ghost predicate ProgressWellFormed(products: seq<Product>, progress: map<string, int>)
  {
    forall id :: id in progress ==> progress[id] >= 1 && exists p :: p in products && p.id == id
  }

  lemma {:induction false} TallyWellFormed(products: seq<Product>, codes: seq<string>)
    ensures ProgressWellFormed(products, Tally(products, codes))
    decreases |codes|
  {
    if |codes| > 0 {
      TallyWellFormed(products, codes[..|codes| - 1]);
    }
  }

  // ---------------------------------------------------------------------------
  // The count session (`countSession` state of App)
  // ---------------------------------------------------------------------------

  datatype Session = Session(active: bool, kind: InventoryType, progress: map<string, int>)

  /// What a scan leads to: a counted unit, the product's details shown
  /// outside a session, or the "code not registered" notice.
  datatype ScanOutcome = Counted(product: Product) | Detected(product: Product) | NotRegistered(code: string)

  /// The payload handed to the stock synchronisation.
  datatype SyncRequest = SyncRequest(userId: string, counts: map<string, int>)

  class CountController {
    /// The product list loaded at start-up.
    const products: seq<Product>
    /// `null` is None.
    var session: Option<Session>
    /// The codes scanned since the current session started.
    ghost var scans: seq<string>

    ghost predicate Valid()
      reads this
    {
      session.Some? ==>
        session.value.active &&
        session.value.progress == Tally(products, scans) &&
        ProgressWellFormed(products, session.value.progress)
    }

    constructor (products: seq<Product>)
      ensures Valid()
      ensures this.products == products && session == None && scans == []
    {
      this.products := products;
      session := None;
      scans := [];
    }

    /// `startCount(type)`: a fresh active session with empty progress.
    method StartCount(kind: InventoryType)
      modifies this
      ensures Valid()
      ensures session == Some(Session(true, kind, map[])) && scans == []
    {
      session := Some(Session(true, kind, map[]));
      scans := [];
    }

    /// `handleScanResult(code)`.
    method HandleScanResult(code: string) returns (outcome: ScanOutcome)
      requires Valid()
      modifies this
      ensures Valid()
      ensures Resolve(products, code).None? ==> outcome == NotRegistered(code) && session == old(session)
      ensures Resolve(products, code).Some? && old(session).None? ==>
                outcome == Detected(Resolve(products, code).value) && session == None
      ensures Resolve(products, code).Some? && old(session).Some? ==>
                var p := Resolve(products, code).value;
                outcome == Counted(p) &&
                session == Some(old(session).value.(progress := Bump(old(session).value.progress, p.id)))
      ensures scans == if old(session).Some? then old(scans) + [code] else old(scans)
    {
      var product := Resolve(products, code);
      if session.Some? && session.value.active && product.Some? {
        var s := session.value;
        session := Some(s.(progress := Bump(s.progress, product.value.id)));
        outcome := Counted(product.value);
      } else if product.Some? {
        outcome := Detected(product.value);
      } else {
        outcome := NotRegistered(code);
      }
      if old(session).Some? {
        scans := scans + [code];
        assert (scans)[..|scans| - 1] == old(scans);
        TallyWellFormed(products, scans);
      }
    }

    /// The "Capturar Manual" button: sends the product's SKU through
    /// resolution rather than counting the product directly.
    method ManualCapture(p: Product) returns (outcome: ScanOutcome)
      requires Valid()
      modifies this
      ensures Valid()
      ensures Resolve(products, p.sku).None? ==> outcome == NotRegistered(p.sku) && session == old(session)
      ensures Resolve(products, p.sku).Some? && old(session).None? ==>
                outcome == Detected(Resolve(products, p.sku).value) && session == None
      ensures Resolve(products, p.sku).Some? && old(session).Some? ==>
                var q := Resolve(products, p.sku).value;
                outcome == Counted(q) &&
                session == Some(old(session).value.(progress := Bump(old(session).value.progress, q.id)))
      ensures scans == if old(session).Some? then old(scans) + [p.sku] else old(scans)
      ensures old(session).Some? && p in products && UniqueSkus(products) && NoTagShadowsSku(products) ==>
                outcome == Counted(p) &&
                session == Some(old(session).value.(progress := Bump(old(session).value.progress, p.id)))
    {
      if p in products && UniqueSkus(products) && NoTagShadowsSku(products) {
        var k :| 0 <= k < |products| && products[k] == p;
        ManualCodeResolvesToItself(products, k);
      }
      outcome := HandleScanResult(p.sku);
    }

    /// `finishCount`: without a session nothing happens. Otherwise the whole
    /// progress map and the current user's id go to the synchronisation, and
    /// the session is cleared whatever the synchronisation answered.
    method FinishCount(syncSucceeded: bool) returns (request: Option<SyncRequest>)
      requires Valid()
      modifies this
      ensures Valid()
      ensures session == None
      ensures request == if old(session).Some?
                         then Some(SyncRequest(CurrentUser.id, old(session).value.progress))
                         else None
    {
      if session.None? {
        return None;
      }
      request := Some(SyncRequest(CurrentUser.id, session.value.progress));
      // the answer of the synchronisation is awaited but not inspected
      session := None;
    }

    /// The "Cancelar" button: discards the session without synchronising.
    method Cancel()
      modifies this
      ensures Valid()
      ensures session == None && scans == old(scans)
    {
      session := None;
    }
  }

  // ---------------------------------------------------------------------------
  // Navigation gating
  // ---------------------------------------------------------------------------

  datatype Tab = DashboardTab | InventoryTab | QuotationsTab | CountsTab | AdminTab

  /// A sidebar entry; `roles == None` means visible to everyone.
  datatype NavItem = NavItem(tab: Tab, roles: Option<seq<UserRole>>)

  const NavItems: seq<NavItem> := [
    NavItem(DashboardTab, None),
    NavItem(InventoryTab, None),
    NavItem(QuotationsTab, Some([Admin, Manager, Seller])),
    NavItem(CountsTab, Some([Admin, Warehouse, Manager])),
    NavItem(AdminTab, Some([Admin]))
  ]

  /// `!(item.roles && !item.roles.includes(role))`
  predicate VisibleTo(item: NavItem, role: UserRole)
  {
    item.roles.None? || role in item.roles.value
  }

  /// The sidebar entries rendered for `role`, in sidebar order.
  function VisibleTabs(role: UserRole): (r: seq<NavItem>)
    ensures forall item :: item in r <==> item in NavItems && VisibleTo(item, role)
  {
    Filter(NavItems, item => VisibleTo(item, role))
  }

  /// Entry `k` of the sidebar as `role` sees it: itself or nothing.
  function Entry(role: UserRole, k: nat): seq<NavItem>
    requires k < |NavItems|
  {
    if VisibleTo(NavItems[k], role) then [NavItems[k]] else []
  }

  /// The entries of `NavItems[k..]` shown to `role`, written out entry by entry.
  function Shown(role: UserRole, k: nat): seq<NavItem>
    requires k <= |NavItems|
    decreases |NavItems| - k
  {
    if k == |NavItems| then [] else Entry(role, k) + Shown(role, k + 1)
  }

  lemma {:induction false} VisibleTabsIsShown(role: UserRole, k: nat)
    requires k <= |NavItems|
    ensures Filter(NavItems[k..], item => VisibleTo(item, role)) == Shown(role, k)
    decreases |NavItems| - k
  {
    if k < |NavItems| {
      VisibleTabsIsShown(role, k + 1);
      assert NavItems[k..][1..] == NavItems[k + 1..];
    }
  }

  /// The sidebar of `role` is the five entries in order, each kept or dropped.
  lemma VisibleTabsEntries(role: UserRole)
    ensures VisibleTabs(role) == Entry(role, 0) + Entry(role, 1) + Entry(role, 2) + Entry(role, 3) + Entry(role, 4)
  {
    ShownFromStart(role);
    assert NavItems[0..] == NavItems;
    VisibleTabsIsShown(role, 0);
  }

  /// `Shown` from the first entry, unfolded.
  lemma ShownFromStart(role: UserRole)
    ensures Shown(role, 0) == Entry(role, 0) + Entry(role, 1) + Entry(role, 2) + Entry(role, 3) + Entry(role, 4)
  {
    ShownFromThird(role);
    var e0, e1, rest := Entry(role, 0), Entry(role, 1), Shown(role, 2);
    assert Shown(role, 0) == e0 + (e1 + rest);
    assert e0 + (e1 + rest) == e0 + e1 + rest;
  }

  /// `Shown` from the third entry, unfolded.
  lemma ShownFromThird(role: UserRole)
    ensures Shown(role, 2) == Entry(role, 2) + Entry(role, 3) + Entry(role, 4)
  {
    var e2, e3, e4 := Entry(role, 2), Entry(role, 3), Entry(role, 4);
    assert Shown(role, 5) == [];
    assert Shown(role, 4) == e4 + [];
    assert Shown(role, 2) == e2 + (e3 + (e4 + []));
    assert e2 + (e3 + (e4 + [])) == e2 + e3 + e4;
  }

  /// The sidebar each role gets, entry by entry in sidebar order.
  lemma SidebarPerRole()
    ensures VisibleTabs(Admin) == NavItems
    ensures VisibleTabs(Manager) == [NavItems[0], NavItems[1], NavItems[2], NavItems[3]]
    ensures VisibleTabs(Seller) == [NavItems[0], NavItems[1], NavItems[2]]
    ensures VisibleTabs(Warehouse) == [NavItems[0], NavItems[1], NavItems[3]]
    ensures VisibleTabs(Supplier) == [NavItems[0], NavItems[1]]
  {
    SidebarOfAdmin();
    SidebarOfManager();
    SidebarOfSeller();
    SidebarOfWarehouse();
    SidebarOfSupplier();
  }

  lemma SidebarOfAdmin()
    ensures VisibleTabs(Admin) == NavItems
  {
    VisibleTabsEntries(Admin);
    NavTable(Admin);
  }

  lemma SidebarOfManager()
    ensures VisibleTabs(Manager) == [NavItems[0], NavItems[1], NavItems[2], NavItems[3]]
  {
    VisibleTabsEntries(Manager);
    NavTable(Manager);
  }

  lemma SidebarOfSeller()
    ensures VisibleTabs(Seller) == [NavItems[0], NavItems[1], NavItems[2]]
  {
    VisibleTabsEntries(Seller);
    NavTable(Seller);
  }

  lemma SidebarOfWarehouse()
    ensures VisibleTabs(Warehouse) == [NavItems[0], NavItems[1], NavItems[3]]
  {
    VisibleTabsEntries(Warehouse);
    NavTable(Warehouse);
  }

  lemma SidebarOfSupplier()
    ensures VisibleTabs(Supplier) == [NavItems[0], NavItems[1]]
  {
    VisibleTabsEntries(Supplier);
    NavTable(Supplier);
  }

  /// Which tabs each role sees: dashboard and inventory always, quotations
  /// for ADMIN, MANAGER and SELLER, counts for ADMIN, WAREHOUSE and MANAGER,
  /// user administration for ADMIN only.
  lemma NavTable(role: UserRole)
    ensures VisibleTo(NavItems[0], role) && VisibleTo(NavItems[1], role)
    ensures VisibleTo(NavItems[2], role) <==> role == Admin || role == Manager || role == Seller
    ensures VisibleTo(NavItems[3], role) <==> role == Admin || role == Warehouse || role == Manager
    ensures VisibleTo(NavItems[4], role) <==> role == Admin
  {
  }
}
