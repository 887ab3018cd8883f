/// How the client's two writes reach the server: the count session's
/// progress map becomes the `counts` of `update_stock`, and the saved
/// quotation body becomes the request of `create_quotation`.
module Sync {
  import opened Types
  import App
  import QuotationManager
  import Api

  // ---------------------------------------------------------------------------
  // Finishing a count
  // ---------------------------------------------------------------------------

  /// Committing the progress of a session that scanned `scans` touches only
  /// the products some scan resolved to: each of those gets the number of
  /// such scans as its stock and today as its count date, and every other
  /// row is left exactly as it was.
  lemma FinishedCountChangesOnlyCountedProducts(products: seq<Product>, scans: seq<string>,
                                                table: map<string, Product>, today: string)
    ensures ApplyCountsOf(products, scans, table, today).Keys == table.Keys
    ensures forall id :: id in table && App.ScansOf(products, scans, id) == 0 ==>
              ApplyCountsOf(products, scans, table, today)[id] == table[id]
    ensures forall id :: id in table && App.ScansOf(products, scans, id) > 0 ==>
              ApplyCountsOf(products, scans, table, today)[id].stock == App.ScansOf(products, scans, id) &&
              ApplyCountsOf(products, scans, table, today)[id].lastCounted == Some(today)
  {
    App.TallyCountsScans(products, scans);
    Api.ApplyCountsEffect(table, App.Tally(products, scans), today);
  }

  /// The products table after `update_stock` receives the progress of a
  /// session that scanned `scans`.
  function ApplyCountsOf(products: seq<Product>, scans: seq<string>, table: map<string, Product>, today: string)
    : map<string, Product>
  {
    Api.ApplyCounts(table, App.Tally(products, scans), today)
  }

  /// `finishCount` followed by the server's `update_stock`: the session is
  /// gone, and when there was one the table holds its tally; without a
  /// session nothing is sent and nothing changes.
  method FinishAndCommit(app: App.CountController, db: Api.Database, today: string)
    requires app.Valid() && db.Valid()
    modifies app, db`products
    ensures app.Valid() && db.Valid()
    ensures app.session == None
    ensures db.products == if old(app.session).Some?
                           then ApplyCountsOf(app.products, old(app.scans), old(db.products), today)
                           else old(db.products)
  {
    var request := app.FinishCount(true);
    if request.Some? {
      var _ := db.UpdateStock(request.value.counts, today);
    }
  }

  // ---------------------------------------------------------------------------
  // Saving a quotation
  // ---------------------------------------------------------------------------

  /// An item as the server reads it: its product id and figures; the line
  /// id and product name are sent but not read.
  function ServerItem(line: QuotationManager.QuotationItem): Api.ItemInput
  {
    Api.ItemInput(line.productId, line.quantity, line.unitPrice, line.subtotal)
  }

  /// The body of `createQuotation` as the server decodes it: the spread
  /// customer fields keep the keys the client gave them.
  function ServerRequest(body: QuotationManager.QuotationBody): (r: Api.QuotationRequest)
    ensures r.fields == body.customer && r.total == body.total && r.userId == body.userId
    ensures |r.items| == |body.items|
    ensures forall k :: 0 <= k < |r.items| ==>
              r.items[k].productId == body.items[k].productId &&
              r.items[k].quantity == body.items[k].quantity &&
              r.items[k].unitPrice == body.items[k].unitPrice &&
              r.items[k].subtotal == body.items[k].subtotal
  {
    Api.QuotationRequest(body.customer, body.total, body.userId, seq(|body.items|, k requires 0 <= k < |body.items| => ServerItem(body.items[k])))
  }

  /// A quotation the draft saves reaches the table with the draft's total,
  /// its user and one row per line, but with no customer: the client sends
  /// the name and phone under `name` and `phone`, and the server reads
  /// `customerName` and `customerPhone`, finds neither and stores null. That
  /// row is stored when the columns accept NULL; otherwise the database refuses
  /// the header insert (a `Fault`) and nothing is saved.
  lemma SavedQuotationLosesCustomer(name: string, phone: string, items: seq<QuotationManager.QuotationItem>, userId: string)
    requires QuotationManager.SaveRequest(name, phone, items, userId).Success?
    ensures var header := Api.HeaderRow(ServerRequest(QuotationManager.SaveRequest(name, phone, items, userId).value));
            header.customerName == None && header.customerPhone == None &&
            header.total == QuotationManager.Total(items) && header.userId == userId
    ensures |ServerRequest(QuotationManager.SaveRequest(name, phone, items, userId).value).items| == |items|
  {
    var body := QuotationManager.SaveRequest(name, phone, items, userId).value;
    assert "customerName" != "name" && "customerName" != "phone";
    assert "customerPhone" != "name" && "customerPhone" != "phone";
  }
}
