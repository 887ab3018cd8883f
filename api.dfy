/// The two writing handlers of the PHP endpoint: `update_stock`, which
/// overwrites counted stock, and `create_quotation`, which inserts a
/// quotation header and its lines inside one transaction. The three tables
/// are maps from primary key to row, held by a `Database` object that the
/// handlers update statement by statement.
module Api {
  import opened Types

  // ---------------------------------------------------------------------------
  // Rows, requests and answers
  // ---------------------------------------------------------------------------

  /// A row of `quotations`. The customer columns receive whatever the request
  /// carried under `customerName` / `customerPhone`, which is `null` (None)
  /// when the key is absent.
  datatype QuotationRow = QuotationRow(
    customerName: Option<string>,
    customerPhone: Option<string>,
    total: real,
    userId: string)

  /// A row of `quotation_items`.
  datatype ItemRow = ItemRow(
    quotationId: string,
    productId: string,
    quantity: int,
    unitPrice: real,
    subtotal: real)

  /// One element of the request's `items` array, as the handler reads it.
  datatype ItemInput = ItemInput(productId: string, quantity: int, unitPrice: real, subtotal: real)

  /// The decoded body of `create_quotation`. The customer's fields are kept
  /// under the keys the client chose, since the handler looks them up by name.
  datatype QuotationRequest = QuotationRequest(
    fields: map<string, string>,
    total: real,
    userId: string,
    items: seq<ItemInput>)

  /// The JSON answer: `success`, and `id` or `error` when present.
  datatype ApiResponse = ApiResponse(success: bool, id: Option<string>, error: Option<string>)

  /// A refusal by the database that the model does not derive itself (a
  /// constraint of the schema, a lost connection): the statement that raises
  /// it, 0 for the header insert and k + 1 for the insert of item k, and the
  /// exception's message.
  datatype Fault = Fault(statement: nat, message: string)

  /// Stands for PDO's message on a primary-key collision, which goes on with
  /// "Duplicate entry '<id>' for key 'PRIMARY'"; only its presence matters.
  const DuplicateKey := "SQLSTATE[23000]: Integrity constraint violation: 1062 Duplicate entry"

  // ---------------------------------------------------------------------------
  // update_stock: the specification of the whole loop
  // ---------------------------------------------------------------------------

  /// `UPDATE products SET stock = ?, last_counted = CURRENT_DATE` on one row.
  function Recount(p: Product, quantity: int, today: string): Product
  {
    p.(stock := quantity, lastCounted := Some(today))
  }

  /// The products table once every entry of `counts` has been applied: a row
  /// whose id is counted is recounted, every other row stays as it was, and a
  /// counted id without a row adds nothing.
  function ApplyCounts(table: map<string, Product>, counts: map<string, int>, today: string): (r: map<string, Product>)
    ensures r.Keys == table.Keys
  {
    map id | id in table :: if id in counts then Recount(table[id], counts[id], today) else table[id]
  }

  /// The entries of `counts` whose keys lie in `keys`.
  function Restrict(counts: map<string, int>, keys: set<string>): map<string, int>
  {
    map id | id in counts && id in keys :: counts[id]
  }

  /// Every counted product gets the submitted quantity and today's date and
  /// keeps its other columns; every product not counted keeps its row.
  lemma ApplyCountsEffect(table: map<string, Product>, counts: map<string, int>, today: string)
    ensures forall id :: id in table && id in counts ==>
              ApplyCounts(table, counts, today)[id].stock == counts[id] &&
              ApplyCounts(table, counts, today)[id].lastCounted == Some(today) &&
              ApplyCounts(table, counts, today)[id] == Recount(table[id], counts[id], today)
    ensures forall id :: id in table && id !in counts ==> ApplyCounts(table, counts, today)[id] == table[id]
  {
  }

  /// Counts for ids that have no row change nothing at all.
  lemma UnknownIdsChangeNothing(table: map<string, Product>, counts: map<string, int>, today: string)
    requires forall id :: id in counts ==> id !in table
    ensures ApplyCounts(table, counts, today) == table
  {
  }

  /// Two submissions in a row leave the table as one submission of both, the
  /// later count winning for an id present in both.
  lemma ApplyCountsCompose(table: map<string, Product>, first: map<string, int>, second: map<string, int>, today: string)
    ensures ApplyCounts(ApplyCounts(table, first, today), second, today) == ApplyCounts(table, first + second, today)
  {
    var lhs := ApplyCounts(ApplyCounts(table, first, today), second, today);
    var rhs := ApplyCounts(table, first + second, today);
    forall id | id in table ensures lhs[id] == rhs[id] {
      if id in second {
        assert (first + second)[id] == second[id];
      } else if id in first {
        assert (first + second)[id] == first[id];
      }
    }
  }

  /// Submitting the same counts twice is the same as submitting them once.
  lemma ApplyCountsIdempotent(table: map<string, Product>, counts: map<string, int>, today: string)
    ensures ApplyCounts(ApplyCounts(table, counts, today), counts, today) == ApplyCounts(table, counts, today)
  {
    ApplyCountsCompose(table, counts, counts, today);
    assert counts + counts == counts;
  }

  /// One more entry applied after a batch is the batch grown by that entry.
  lemma ApplyOneMore(table: map<string, Product>, counts: map<string, int>, done: set<string>, id: string, today: string)
    requires id in counts
    ensures var before := ApplyCounts(table, Restrict(counts, done), today);
            (if id in before then before[id := Recount(before[id], counts[id], today)] else before)
            == ApplyCounts(table, Restrict(counts, done + {id}), today)
  {
    var before := ApplyCounts(table, Restrict(counts, done), today);
    ApplyCountsCompose(table, Restrict(counts, done), map[id := counts[id]], today);
    assert Restrict(counts, done) + map[id := counts[id]] == Restrict(counts, done + {id});
  }

  // ---------------------------------------------------------------------------
  // create_quotation: the specification of the transaction
  // ---------------------------------------------------------------------------

  /// `$data[key]`, which is `null` when the key is absent.
  function Field(fields: map<string, string>, key: string): Option<string>
  {
    if key in fields then Some(fields[key]) else None
  }

  /// The header row: the customer columns are read from the keys
  /// `customerName` and `customerPhone`; the total is the one the client sent.
  function HeaderRow(req: QuotationRequest): QuotationRow
  {
    QuotationRow(Field(req.fields, "customerName"), Field(req.fields, "customerPhone"), req.total, req.userId)
  }

  /// The row inserted for one item of quotation `qId`.
  function LineRow(qId: string, item: ItemInput): ItemRow
  {
    ItemRow(qId, item.productId, item.quantity, item.unitPrice, item.subtotal)
  }

  /// The message of the database's own refusal at `statement`, if any.
  function Injected(failAt: Option<Fault>, statement: nat): Option<string>
  {
    if failAt.Some? && failAt.value.statement == statement then Some(failAt.value.message) else None
  }

  /// The exception of the header insert: a taken id, or the database's refusal.
  function HeaderFault(quotations: map<string, QuotationRow>, qId: string, failAt: Option<Fault>): Option<string>
  {
    if qId in quotations then Some(DuplicateKey) else Injected(failAt, 0)
  }

  /// The exception of one item insert into `table`.
  function LineFault(table: map<string, ItemRow>, id: string, failAt: Option<Fault>, statement: nat): Option<string>
  {
    if id in table then Some(DuplicateKey) else Injected(failAt, statement)
  }

  /// The first exception among the item inserts from `k` on, starting from
  /// `table`; None when they all go through.
  function LinesFault(table: map<string, ItemRow>, qId: string, ids: seq<string>, items: seq<ItemInput>,
                      failAt: Option<Fault>, k: nat): Option<string>
    requires |ids| == |items| && k <= |ids|
    decreases |ids| - k
  {
    if k == |ids| then None
    else match LineFault(table, ids[k], failAt, k + 1)
      case Some(m) => Some(m)
      case None => LinesFault(table[ids[k] := LineRow(qId, items[k])], qId, ids, items, failAt, k + 1)
  }

  /// The items table after the inserts from `k` on.
  function StoredLines(table: map<string, ItemRow>, qId: string, ids: seq<string>, items: seq<ItemInput>, k: nat)
    : map<string, ItemRow>
    requires |ids| == |items| && k <= |ids|
    decreases |ids| - k
  {
    if k == |ids| then table
    else StoredLines(table[ids[k] := LineRow(qId, items[k])], qId, ids, items, k + 1)
  }

  /// The exception that aborts the whole transaction, if any.
  function InsertFault(quotations: map<string, QuotationRow>, table: map<string, ItemRow>, req: QuotationRequest,
                       qId: string, ids: seq<string>, failAt: Option<Fault>): Option<string>
    requires |ids| == |req.items|
  {
    match HeaderFault(quotations, qId, failAt)
    case Some(m) => Some(m)
    case None => LinesFault(table, qId, ids, req.items, failAt, 0)
  }

  /// The answer for a transaction that ends with `fault`.
  function Answer(fault: Option<string>, qId: string): (r: ApiResponse)
    ensures r.success <==> fault.None?
    ensures r.success ==> r.id == Some(qId) && r.error.None?
    ensures !r.success ==> r.id.None? && r.error == fault
  {
    match fault
    case None => ApiResponse(true, Some(qId), None)
    case Some(m) => ApiResponse(false, None, Some(m))
  }

  /// Item ids from `k` on that are pairwise different and not yet in `table`.
  ghost predicate FreshFrom(table: map<string, ItemRow>, ids: seq<string>, k: nat)
  {
    && (forall j :: k <= j < |ids| ==> ids[j] !in table)
    && (forall i, j :: k <= i < j < |ids| ==> ids[i] != ids[j])
  }

  /// The item inserts all go through exactly when no two of the new ids
  /// collide, none is taken already, and the database refuses none of them.
  lemma {:induction false} LinesFaultExactly(table: map<string, ItemRow>, qId: string, ids: seq<string>,
                                             items: seq<ItemInput>, failAt: Option<Fault>, k: nat)
    requires |ids| == |items| && k <= |ids|
    ensures LinesFault(table, qId, ids, items, failAt, k).None? <==>
            FreshFrom(table, ids, k) && !(failAt.Some? && k + 1 <= failAt.value.statement <= |ids|)
    decreases |ids| - k
  {
    if k < |ids| {
      var next := table[ids[k] := LineRow(qId, items[k])];
      LinesFaultExactly(next, qId, ids, items, failAt, k + 1);
      if FreshFrom(table, ids, k) {
        assert FreshFrom(next, ids, k + 1);
      }
      if ids[k] !in table && FreshFrom(next, ids, k + 1) {
        forall j | k <= j < |ids| ensures ids[j] !in table {
          if j > k {
            assert ids[j] !in next;
          }
        }
        forall i, j | k <= i < j < |ids| ensures ids[i] != ids[j] {
          if i == k {
            assert ids[j] !in next;
          }
        }
      }
    }
  }

  /// With fresh ids, the inserts from `k` on add exactly one row per item,
  /// under that item's id, carrying the quotation id and the item's figures,
  /// and leave every existing row alone.
  lemma {:induction false} StoredLinesContents(table: map<string, ItemRow>, qId: string, ids: seq<string>,
                                               items: seq<ItemInput>, k: nat)
    requires |ids| == |items| && k <= |ids|
    requires FreshFrom(table, ids, k)
    ensures StoredLines(table, qId, ids, items, k).Keys == table.Keys + set j | k <= j < |ids| :: ids[j]
    ensures forall j :: k <= j < |ids| ==> StoredLines(table, qId, ids, items, k)[ids[j]] == LineRow(qId, items[j])
    ensures forall id :: id in table ==> StoredLines(table, qId, ids, items, k)[id] == table[id]
    decreases |ids| - k
  {
    if k < |ids| {
      var next := table[ids[k] := LineRow(qId, items[k])];
      assert FreshFrom(next, ids, k + 1);
      StoredLinesContents(next, qId, ids, items, k + 1);
      var r := StoredLines(table, qId, ids, items, k);
      assert r == StoredLines(next, qId, ids, items, k + 1);
      assert (set j | k <= j < |ids| :: ids[j]) == {ids[k]} + set j | k + 1 <= j < |ids| :: ids[j];
      forall j | k <= j < |ids| ensures r[ids[j]] == LineRow(qId, items[j]) {
        if j == k {
          assert ids[k] in next;
          assert ids[k] !in set j' | k + 1 <= j' < |ids| :: ids[j'];
        }
      }
    }
  }

  /// Pairwise different ids make a set of as many elements.
  lemma {:induction false} DistinctIdsCount(ids: seq<string>, k: nat)
    requires k <= |ids|
    requires forall i, j :: k <= i < j < |ids| ==> ids[i] != ids[j]
    ensures |set j | k <= j < |ids| :: ids[j]| == |ids| - k
    decreases |ids| - k
  {
    if k < |ids| {
      DistinctIdsCount(ids, k + 1);
      var rest := set j | k + 1 <= j < |ids| :: ids[j];
      assert (set j | k <= j < |ids| :: ids[j]) == rest + {ids[k]};
      assert ids[k] !in rest;
    }
  }

  /// The ids of the item rows that belong to quotation `qId`.
  function LinesOf(table: map<string, ItemRow>, qId: string): set<string>
  {
    set id | id in table && table[id].quotationId == qId
  }

  /// The rows of `qId` in a table grown from one that had none: exactly the
  /// added rows, when each of them carries `qId` and the old rows are kept.
  lemma LinesOfGrownTable(table: map<string, ItemRow>, r: map<string, ItemRow>, qId: string,
                          ids: seq<string>, items: seq<ItemInput>)
    requires |ids| == |items|
    requires LinesOf(table, qId) == {}
    requires r.Keys == table.Keys + set j | 0 <= j < |ids| :: ids[j]
    requires forall j :: 0 <= j < |ids| ==> r[ids[j]] == LineRow(qId, items[j])
    requires forall id :: id in table ==> r[id] == table[id]
    ensures LinesOf(r, qId) == set j | 0 <= j < |ids| :: ids[j]
  {
    var added := set j | 0 <= j < |ids| :: ids[j];
    forall id | id in LinesOf(r, qId) ensures id in added {
      assert id !in LinesOf(table, qId);
    }
    forall id | id in added ensures id in LinesOf(r, qId) {
      var j :| 0 <= j < |ids| && ids[j] == id;
      assert r[ids[j]] == LineRow(qId, items[j]);
    }
  }

  /// A committed quotation owns exactly one item row per input item, when no
  /// row referred to its id before.
  lemma CommittedLinesCount(table: map<string, ItemRow>, qId: string, ids: seq<string>, items: seq<ItemInput>)
    requires |ids| == |items|
    requires LinesOf(table, qId) == {}
    requires FreshFrom(table, ids, 0)
    ensures LinesOf(StoredLines(table, qId, ids, items, 0), qId) == set j | 0 <= j < |ids| :: ids[j]
    ensures |LinesOf(StoredLines(table, qId, ids, items, 0), qId)| == |items|
  {
    StoredLinesContents(table, qId, ids, items, 0);
    LinesOfGrownTable(table, StoredLines(table, qId, ids, items, 0), qId, ids, items);
    DistinctIdsCount(ids, 0);
  }

  /// The transaction commits exactly when the header id is free, the item
  /// ids are fresh, and the database refuses no statement that runs.
  lemma InsertSucceedsExactly(quotations: map<string, QuotationRow>, table: map<string, ItemRow>, req: QuotationRequest,
                              qId: string, ids: seq<string>, failAt: Option<Fault>)
    requires |ids| == |req.items|
    ensures InsertFault(quotations, table, req, qId, ids, failAt).None? <==>
            qId !in quotations && FreshFrom(table, ids, 0) &&
            !(failAt.Some? && failAt.value.statement <= |ids|)
  {
    LinesFaultExactly(table, qId, ids, req.items, failAt, 0);
  }

  /// After a commit over a table whose rows all belong to existing
  /// quotations, the new quotation owns exactly one item row per item.
  lemma CommitOwnsOneRowPerItem(quotations: map<string, QuotationRow>, table: map<string, ItemRow>,
                                req: QuotationRequest, qId: string, ids: seq<string>, failAt: Option<Fault>)
    requires |ids| == |req.items|
    requires forall id :: id in table ==> table[id].quotationId in quotations
    requires InsertFault(quotations, table, req, qId, ids, failAt).None?
    ensures qId !in quotations
    ensures |LinesOf(StoredLines(table, qId, ids, req.items, 0), qId)| == |req.items|
  {
    InsertSucceedsExactly(quotations, table, req, qId, ids, failAt);
    CommittedLinesCount(table, qId, ids, req.items);
  }

  // ---------------------------------------------------------------------------
  // The tables and the two handlers
  // ---------------------------------------------------------------------------

  class Database {
    var products: map<string, Product>
    var quotations: map<string, QuotationRow>
    var quotationItems: map<string, ItemRow>

    /// Rows sit under their own id, and every item row belongs to a quotation.
    ghost predicate Valid()
      reads this
    {
      && (forall id :: id in products ==> products[id].id == id)
      && (forall id :: id in quotationItems ==> quotationItems[id].quotationId in quotations)
    }

    constructor (products: map<string, Product>)
      requires forall id :: id in products ==> products[id].id == id
      ensures Valid()
      ensures this.products == products && quotations == map[] && quotationItems == map[]
    {
      this.products := products;
      quotations := map[];
      quotationItems := map[];
    }

    /// `update_stock` on the path where every UPDATE succeeds: one UPDATE
    /// per entry of `counts`, inside a transaction that is then committed;
    /// the entries are taken in any order. An UPDATE whose id has no row
    /// affects nothing.
    method UpdateStock(counts: map<string, int>, today: string) returns (resp: ApiResponse)
      requires Valid()
      modifies this`products
      ensures Valid()
      ensures products == ApplyCounts(old(products), counts, today)
      ensures resp == ApiResponse(true, None, None)
    {
      var pending := counts.Keys;
      while pending != {}
        invariant pending <= counts.Keys
        invariant products == ApplyCounts(old(products), Restrict(counts, counts.Keys - pending), today)
        decreases pending
      {
        var id :| id in pending;
        ApplyOneMore(old(products), counts, counts.Keys - pending, id, today);
        if id in products {
          products := products[id := Recount(products[id], counts[id], today)];
        }
        assert counts.Keys - (pending - {id}) == (counts.Keys - pending) + {id};
        pending := pending - {id};
      }
      assert Restrict(counts, counts.Keys) == counts;
      resp := ApiResponse(true, None, None);
    }

    /// `create_quotation`: insert the header under the fresh id `qId`, then
    /// one row per item under the fresh ids `itemIds`; the first exception
    /// rolls both tables back to where they were and answers with its message.
    method CreateQuotation(req: QuotationRequest, qId: string, itemIds: seq<string>, failAt: Option<Fault>)
      returns (resp: ApiResponse)
      requires Valid()
      requires |itemIds| == |req.items|
      modifies this`quotations, this`quotationItems
      ensures Valid()
      ensures resp == Answer(InsertFault(old(quotations), old(quotationItems), req, qId, itemIds, failAt), qId)
      ensures resp.success ==> quotations == old(quotations)[qId := HeaderRow(req)] &&
                               quotationItems == StoredLines(old(quotationItems), qId, itemIds, req.items, 0)
      ensures !resp.success ==> quotations == old(quotations) && quotationItems == old(quotationItems)
    {
      var savedQuotations, savedItems := quotations, quotationItems;
      var fault := HeaderFault(quotations, qId, failAt);
      if fault.Some? {
        return ApiResponse(false, None, fault);
      }
      quotations := quotations[qId := HeaderRow(req)];
      var k := 0;
      while k < |req.items|
        invariant k <= |req.items|
        invariant quotations == savedQuotations[qId := HeaderRow(req)]
        invariant LinesFault(quotationItems, qId, itemIds, req.items, failAt, k) ==
                  LinesFault(savedItems, qId, itemIds, req.items, failAt, 0)
        invariant StoredLines(quotationItems, qId, itemIds, req.items, k) ==
                  StoredLines(savedItems, qId, itemIds, req.items, 0)
        invariant forall id :: id in quotationItems ==> quotationItems[id].quotationId in quotations
      {
        fault := LineFault(quotationItems, itemIds[k], failAt, k + 1);
        if fault.Some? {
          quotations, quotationItems := savedQuotations, savedItems;
          return ApiResponse(false, None, fault);
        }
        quotationItems := quotationItems[itemIds[k] := LineRow(qId, req.items[k])];
        k := k + 1;
      }
      resp := ApiResponse(true, Some(qId), None);
    }
  }
}
