/// The quotation draft of components/QuotationManager.tsx: an
/// insertion-ordered list of lines, its totals with the fixed 16% tax, the
/// save-time validation, the catalogue search and the WhatsApp message.
module QuotationManager {
  import opened Types
  import opened Collections

  /// One line of the draft; `unitPrice` and `productName` are copied from the
  /// product when the line is created.
  datatype QuotationItem = QuotationItem(
    id: string,
    productId: string,
    productName: string,
    quantity: int,
    unitPrice: real,
    subtotal: real)

  /// The tax rate is hard-coded (16% IVA); no configuration is read.
  const TaxRate: real := 0.16

  // ---------------------------------------------------------------------------
  // Totals
  // ---------------------------------------------------------------------------

  /// `items.reduce((acc, item) => acc + item.subtotal, 0)`
  function Subtotal(items: seq<QuotationItem>): real
  {
    if |items| == 0 then 0.0 else Subtotal(items[..|items| - 1]) + items[|items| - 1].subtotal
  }

  function Tax(items: seq<QuotationItem>): real
  {
    Subtotal(items) * TaxRate
  }

  function Total(items: seq<QuotationItem>): real
  {
    Subtotal(items) + Tax(items)
  }

  lemma {:induction false} SubtotalAppend(a: seq<QuotationItem>, b: seq<QuotationItem>)
    ensures Subtotal(a + b) == Subtotal(a) + Subtotal(b)
    decreases |b|
  {
    if |b| == 0 {
      assert a + b == a;
    } else {
      var n := |b| - 1;
      assert (a + b)[..|a + b| - 1] == a + b[..n];
      SubtotalAppend(a, b[..n]);
    }
  }

  /// Replacing one line changes the subtotal by exactly the change of that
  /// line's subtotal.
  lemma {:induction false} SubtotalReplace(items: seq<QuotationItem>, k: nat, line: QuotationItem)
    requires k < |items|
    ensures Subtotal(items[k := line]) == Subtotal(items) - items[k].subtotal + line.subtotal
  {
    assert items == items[..k] + [items[k]] + items[k + 1..];
    assert items[k := line] == items[..k] + [line] + items[k + 1..];
    SubtotalAppend(items[..k] + [items[k]], items[k + 1..]);
    SubtotalAppend(items[..k] + [line], items[k + 1..]);
    SubtotalAppend(items[..k], [items[k]]);
    SubtotalAppend(items[..k], [line]);
    assert Subtotal([items[k]]) == items[k].subtotal by {
      assert [items[k]][..0] == [];
    }
    assert Subtotal([line]) == line.subtotal by {
      assert [line][..0] == [];
    }
  }

  /// Lines of 100 and 200 give a subtotal of 300, a tax of 48 and a total of 348.
  lemma TotalsExample(a: QuotationItem, b: QuotationItem)
    requires a.subtotal == 100.0 && b.subtotal == 200.0
    ensures Subtotal([a, b]) == 300.0 && Tax([a, b]) == 48.0 && Total([a, b]) == 348.0
  {
    assert [a, b][..1] == [a];
    assert [a][..0] == [];
    assert Subtotal([a]) == 100.0;
    assert Subtotal([a, b]) == 300.0;
  }

  /// The total is the subtotal plus 16%.
  lemma TotalIsSubtotalWithTax(items: seq<QuotationItem>)
    ensures Total(items) == Subtotal(items) * 116.0 / 100.0
  {
  }

  // ---------------------------------------------------------------------------
  // The draft's invariant
  // ---------------------------------------------------------------------------

  /// At most one line per product.
  ghost predicate OneLinePerProduct(items: seq<QuotationItem>)
  {
    forall i, j :: 0 <= i < j < |items| ==> items[i].productId != items[j].productId
  }

  /// Every quantity is at least one and every line's subtotal is its
  /// quantity times its unit price.
  ghost predicate LinePriced(line: QuotationItem)
  {
    line.quantity >= 1 && line.subtotal == line.quantity as real * line.unitPrice
  }

  /// The draft's invariant.
  ghost predicate WellFormed(items: seq<QuotationItem>)
  {
    OneLinePerProduct(items) && forall line :: line in items ==> LinePriced(line)
  }

  // ---------------------------------------------------------------------------
  // addItem, removeItem, updateQuantity
  // ---------------------------------------------------------------------------

  /// `items.find(i => i.productId === product.id)` is truthy.
  predicate HasProduct(items: seq<QuotationItem>, productId: string)
  {
    exists i :: 0 <= i < |items| && items[i].productId == productId
  }

  /// The line a product gets when it is first added.
  function NewLine(p: Product, lineId: string): QuotationItem
  {
    QuotationItem(lineId, p.id, p.name, 1, p.price, p.price)
  }

  /// One more unit, priced at the line's stored unit price.
  function OneMore(line: QuotationItem): QuotationItem
  {
    line.(quantity := line.quantity + 1, subtotal := (line.quantity + 1) as real * line.unitPrice)
  }

  /// `addItem(product)`: an existing line for the product gets one more unit;
  /// otherwise a new line is appended. `lineId` stands for the random id.
  function AddLine(items: seq<QuotationItem>, p: Product, lineId: string): (r: seq<QuotationItem>)
    ensures HasProduct(items, p.id) ==> |r| == |items|
    ensures HasProduct(items, p.id) ==>
              forall i :: 0 <= i < |items| ==>
                r[i] == if items[i].productId == p.id then OneMore(items[i]) else items[i]
    ensures !HasProduct(items, p.id) ==> |r| == |items| + 1 && r[..|items|] == items
    ensures !HasProduct(items, p.id) ==>
              r[|items|] == NewLine(p, lineId)
  {
    if HasProduct(items, p.id) then
      seq(|items|, i requires 0 <= i < |items| => if items[i].productId == p.id then OneMore(items[i]) else items[i])
    else
      items + [NewLine(p, lineId)]
  }

  /// `removeItem(id)`: drops the line(s) with that line id.
  function RemoveLines(items: seq<QuotationItem>, lineId: string): (r: seq<QuotationItem>)
    ensures |r| <= |items|
    ensures forall line :: line in r <==> line in items && line.id != lineId
  {
    Filter(items, (i: QuotationItem) => i.id != lineId)
  }

  /// `updateQuantity(id, qty)`: rejected when `qty < 1`; otherwise the line(s)
  /// with that line id get the new quantity and a recomputed subtotal.
  function SetQuantity(items: seq<QuotationItem>, lineId: string, qty: int): (r: seq<QuotationItem>)
    ensures qty < 1 ==> r == items
    ensures |r| == |items|
    ensures qty >= 1 ==> forall i :: 0 <= i < |items| ==>
              r[i] == if items[i].id == lineId
                      then items[i].(quantity := qty, subtotal := qty as real * items[i].unitPrice)
                      else items[i]
  {
    if qty < 1 then items
    else seq(|items|, i requires 0 <= i < |items| =>
           if items[i].id == lineId then items[i].(quantity := qty, subtotal := qty as real * items[i].unitPrice)
           else items[i])
  }

  /// One more unit costs the line's unit price.
  lemma OneMoreAddsUnitPrice(line: QuotationItem)
    requires LinePriced(line)
    ensures LinePriced(OneMore(line))
    ensures OneMore(line).subtotal == line.subtotal + line.unitPrice
  {
    var q, u := line.quantity as real, line.unitPrice;
    assert (q + 1.0) * u == q * u + u;
  }

  lemma AddLinePreservesWellFormed(items: seq<QuotationItem>, p: Product, lineId: string)
    requires WellFormed(items)
    ensures WellFormed(AddLine(items, p, lineId))
  {
    var r := AddLine(items, p, lineId);
    if HasProduct(items, p.id) {
      forall line | line in r ensures LinePriced(line) {
        var i :| 0 <= i < |r| && r[i] == line;
        assert items[i] in items;
        if items[i].productId == p.id {
          OneMoreAddsUnitPrice(items[i]);
        }
      }
    } else {
      assert r == items + [NewLine(p, lineId)];
    }
  }

  /// Adding a product that already has a line keeps the list's length and
  /// order: only that line changes, to one more unit, and the subtotal grows
  /// by its stored unit price.
  lemma AddExistingLine(items: seq<QuotationItem>, p: Product, lineId: string, k: nat)
    requires WellFormed(items)
    requires k < |items| && items[k].productId == p.id
    ensures AddLine(items, p, lineId) == items[k := OneMore(items[k])]
    ensures Subtotal(AddLine(items, p, lineId)) == Subtotal(items) + items[k].unitPrice
  {
    AddExistingIsUpdate(items, p, lineId, k);
    SubtotalReplace(items, k, OneMore(items[k]));
    assert items[k] in items;
    OneMoreAddsUnitPrice(items[k]);
  }

  lemma AddExistingIsUpdate(items: seq<QuotationItem>, p: Product, lineId: string, k: nat)
    requires OneLinePerProduct(items)
    requires k < |items| && items[k].productId == p.id
    ensures AddLine(items, p, lineId) == items[k := OneMore(items[k])]
  {
    var r := AddLine(items, p, lineId);
    assert HasProduct(items, p.id);
    forall i | 0 <= i < |items| ensures r[i] == items[k := OneMore(items[k])][i] {
      if i < k {
        assert items[i].productId != items[k].productId;
      } else if k < i {
        assert items[k].productId != items[i].productId;
      }
    }
  }

  /// Adding a product without a line appends one line and raises the
  /// subtotal by the product's price.
  lemma AddNewLine(items: seq<QuotationItem>, p: Product, lineId: string)
    requires !HasProduct(items, p.id)
    ensures AddLine(items, p, lineId) == items + [NewLine(p, lineId)]
    ensures Subtotal(AddLine(items, p, lineId)) == Subtotal(items) + p.price
  {
    SubtotalAppend(items, [NewLine(p, lineId)]);
    assert [NewLine(p, lineId)][..0] == [];
  }

  /// Adding the same product `|lineIds|` times to an empty draft.
  function AddRepeatedly(p: Product, lineIds: seq<string>): seq<QuotationItem>
    decreases |lineIds|
  {
    if |lineIds| == 0 then []
    else AddLine(AddRepeatedly(p, lineIds[..|lineIds| - 1]), p, lineIds[|lineIds| - 1])
  }

  /// N additions of one product give one line with quantity N and subtotal
  /// N times the price, carrying the id chosen at the first addition.
  lemma {:induction false} AddRepeatedlyMerges(p: Product, lineIds: seq<string>)
    requires |lineIds| > 0
    ensures AddRepeatedly(p, lineIds) ==
            [QuotationItem(lineIds[0], p.id, p.name, |lineIds|, p.price, |lineIds| as real * p.price)]
    decreases |lineIds|
  {
    var n := |lineIds| - 1;
    if n > 0 {
      var prefix := lineIds[..n];
      AddRepeatedlyMerges(p, prefix);
      var before := AddRepeatedly(p, prefix);
      assert before[0].productId == p.id;
      assert HasProduct(before, p.id);
    }
  }

  lemma OneLinePerProductTail(items: seq<QuotationItem>)
    requires |items| > 0 && OneLinePerProduct(items)
    ensures OneLinePerProduct(items[1..])
    ensures forall x :: x in items[1..] ==> x.productId != items[0].productId
  {
    var tail := items[1..];
    forall i, j | 0 <= i < j < |tail| ensures tail[i].productId != tail[j].productId {
      assert tail[i] == items[i + 1] && tail[j] == items[j + 1];
    }
    forall x | x in tail ensures x.productId != items[0].productId {
      var j :| 0 <= j < |tail| && tail[j] == x;
      assert items[j + 1] == x;
    }
  }

  lemma OneLinePerProductCons(x: QuotationItem, rest: seq<QuotationItem>)
    requires OneLinePerProduct(rest)
    requires forall y :: y in rest ==> y.productId != x.productId
    ensures OneLinePerProduct([x] + rest)
  {
    var r := [x] + rest;
    forall i, j | 0 <= i < j < |r| ensures r[i].productId != r[j].productId {
      assert r[j] == rest[j - 1];
      if i > 0 {
        assert r[i] == rest[i - 1];
      }
    }
  }

  lemma {:induction false} RemoveLinesPreservesWellFormed(items: seq<QuotationItem>, lineId: string)
    requires WellFormed(items)
    ensures WellFormed(RemoveLines(items, lineId))
  {
    if |items| > 0 {
      var tail := items[1..];
      OneLinePerProductTail(items);
      RemoveLinesPreservesWellFormed(tail, lineId);
      var rest := RemoveLines(tail, lineId);
      if items[0].id != lineId {
        assert RemoveLines(items, lineId) == [items[0]] + rest;
        OneLinePerProductCons(items[0], rest);
      }
    }
  }

  /// Removal keeps the remaining lines in their original order.
  lemma RemoveLinesKeepsOrder(a: seq<QuotationItem>, b: seq<QuotationItem>, lineId: string)
    ensures RemoveLines(a + b, lineId) == RemoveLines(a, lineId) + RemoveLines(b, lineId)
  {
    FilterAppend(a, b, (i: QuotationItem) => i.id != lineId);
  }

  lemma SetQuantityPreservesWellFormed(items: seq<QuotationItem>, lineId: string, qty: int)
    requires WellFormed(items)
    ensures WellFormed(SetQuantity(items, lineId, qty))
  {
  }

  // ---------------------------------------------------------------------------
  // handleSave
  // ---------------------------------------------------------------------------

  /// The body sent to the store: the spread of `customer` (keys `name` and
  /// `phone`), the total, the user id and the lines.
  datatype QuotationBody = QuotationBody(
    customer: map<string, string>,
    total: real,
    userId: string,
    items: seq<QuotationItem>)

  datatype SaveRejection = MissingCustomerOrItems

  /// What `handleSave` sends, or why it stops before calling the store.
  function SaveRequest(name: string, phone: string, items: seq<QuotationItem>, userId: string)
    : (r: Result<QuotationBody, SaveRejection>)
    ensures r.Failure? <==> name == "" || |items| == 0
    ensures r.Success? ==> r.value.total == Total(items) && r.value.items == items && r.value.userId == userId
    ensures r.Success? ==> r.value.customer.Keys == {"name", "phone"} &&
                           r.value.customer["name"] == name && r.value.customer["phone"] == phone
  {
    if name == "" || |items| == 0 then Failure(MissingCustomerOrItems)
    else Success(QuotationBody(map["name" := name, "phone" := phone], Total(items), userId, items))
  }

  // ---------------------------------------------------------------------------
  // Catalogue search: `filteredProducts`
  // ---------------------------------------------------------------------------

  /// `toLowerCase` on the Basic Latin and Latin-1 letters.
  function LowerChar(c: char): char
  {
    if 'A' <= c <= 'Z' || ('\U{C0}' <= c <= '\U{DE}' && c != '\U{D7}') then (c as int + 32) as char else c
  }

  function Lower(s: string): (r: string)
    ensures |r| == |s| && forall i :: 0 <= i < |s| ==> r[i] == LowerChar(s[i])
  {
    seq(|s|, i requires 0 <= i < |s| => LowerChar(s[i]))
  }

  lemma LowerIdempotent(s: string)
    ensures Lower(Lower(s)) == Lower(s)
  {
  }

  /// `s.includes(t)`: `t` occurs in `s` as a contiguous piece.
  predicate Includes(s: string, t: string)
  {
    t <= s || (|s| > 0 && Includes(s[1..], t))
  }

  /// The search term matches a product's name or SKU, ignoring case.
  predicate SearchMatches(p: Product, term: string)
  {
    Includes(Lower(p.name), Lower(term)) || Includes(Lower(p.sku), Lower(term))
  }

  function FilteredProducts(products: seq<Product>, term: string): (r: seq<Product>)
    ensures forall p :: p in r <==> p in products && SearchMatches(p, term)
  {
    Filter(products, (p: Product) => SearchMatches(p, term))
  }

  /// The empty search term lists the whole catalogue, in order.
  lemma EmptySearchKeepsAll(products: seq<Product>)
    ensures FilteredProducts(products, "") == products
  {
    forall i | 0 <= i < |products| ensures SearchMatches(products[i], "") {
      assert Lower("") == "";
    }
    FilterKeepsAll(products, (p: Product) => SearchMatches(p, ""));
  }

  /// The search ignores the case of the term.
  lemma SearchIgnoresTermCase(products: seq<Product>, term: string)
    ensures FilteredProducts(products, Lower(term)) == FilteredProducts(products, term)
  {
    LowerIdempotent(term);
    FilterAgrees(products, (p: Product) => SearchMatches(p, Lower(term)), (p: Product) => SearchMatches(p, term));
  }

  // ---------------------------------------------------------------------------
  // sendWhatsApp
  // ---------------------------------------------------------------------------

  /// The JavaScript whitespace class `\s`.
  predicate IsSpace(c: char)
  {
    c == ' ' || c == '\t' || c == '\n' || c == '\r' || c == '\U{0B}' || c == '\U{0C}' ||
    c == '\U{A0}' || c == '\U{1680}' || ('\U{2000}' <= c <= '\U{200A}') ||
    c == '\U{2028}' || c == '\U{2029}' || c == '\U{202F}' || c == '\U{205F}' ||
    c == '\U{3000}' || c == '\U{FEFF}'
  }

  /// `phone.replace(/\s+/g, '')`
  function StripSpaces(phone: string): (r: string)
    ensures forall c :: c in r <==> c in phone && !IsSpace(c)
  {
    Filter(phone, (c: char) => !IsSpace(c))
  }

  /// Stripping works piece by piece, so the kept characters stay in their
  /// order and each appears as often as it did.
  lemma StripSpacesAppend(a: string, b: string)
    ensures StripSpaces(a + b) == StripSpaces(a) + StripSpaces(b)
  {
    FilterAppend(a, b, (c: char) => !IsSpace(c));
  }

  /// A phone without whitespace is kept exactly as entered.
  lemma StripSpacesKeepsPlainPhone(phone: string)
    requires forall i :: 0 <= i < |phone| ==> !IsSpace(phone[i])
    ensures StripSpaces(phone) == phone
  {
    FilterKeepsAll(phone, (c: char) => !IsSpace(c));
  }

  /// How a number is written into the message (JavaScript's default
  /// number-to-text and `toLocaleString`) is a parameter of the model.
  type Render = real -> string

  /// `- name (quantity x $unitPrice) = $subtotal`
  function ItemText(i: QuotationItem, num: Render): string
  {
    "- " + i.productName + " (" + num(i.quantity as real) + " x $" + num(i.unitPrice) + ") = $" + num(i.subtotal)
  }

  function ItemTexts(items: seq<QuotationItem>, num: Render): (r: seq<string>)
    ensures |r| == |items| && forall k :: 0 <= k < |items| ==> r[k] == ItemText(items[k], num)
  {
    seq(|items|, k requires 0 <= k < |items| => ItemText(items[k], num))
  }

  /// Line break, URL-encoded.
  const Break: string := "%0A"

  function Greeting(name: string): string
  {
    "Hola " + name + ", te envío la cotización de Nexus AI:" + Break + Break
  }

  function Closing(total: real, locale: Render): string
  {
    Break + Break + "*Total con IVA: $" + locale(total) + "*" + Break + Break + "Gracias por tu preferencia."
  }

  function Message(name: string, items: seq<QuotationItem>, num: Render, locale: Render): string
  {
    Greeting(name) + Join(ItemTexts(items, num), Break) + Closing(Total(items), locale)
  }

  /// `https://wa.me/<phone without whitespace>?text=<message>`
  function WhatsAppUrl(name: string, phone: string, items: seq<QuotationItem>, num: Render, locale: Render): string
  {
    "https://wa.me/" + StripSpaces(phone) + "?text=" + Message(name, items, num, locale)
  }

  /// A slice of the middle part of a three-part text.
  lemma SliceOfMiddle(a: string, b: string, c: string, i: nat, j: nat)
    requires i <= j <= |b|
    ensures (a + b + c)[|a| + i..|a| + j] == b[i..j]
  {
    assert (a + b + c)[|a|..] == b + c;
    assert (b + c)[i..j] == b[i..j];
  }

  /// Item `k`'s line appears whole in the message, right after the greeting
  /// and the lines before it.
  lemma MessageShowsItem(name: string, items: seq<QuotationItem>, num: Render, locale: Render, k: nat)
    requires k < |items|
    ensures var m := Message(name, items, num, locale);
            var at := |Greeting(name)| + Offset(ItemTexts(items, num), Break, k);
            at + |ItemText(items[k], num)| <= |m| && m[at..at + |ItemText(items[k], num)|] == ItemText(items[k], num)
  {
    var texts := ItemTexts(items, num);
    var g := Greeting(name);
    var body := Join(texts, Break);
    var c := Closing(Total(items), locale);
    JoinPlacesPart(texts, Break, k);
    var o := Offset(texts, Break, k);
    SliceOfMiddle(g, body, c, o, o + |texts[k]|);
  }

  /// The item lines come in item order: each one ends, and a line break
  /// follows, before any later one starts; what stands between two
  /// consecutive item lines is exactly one line break.
  lemma MessageItemsInOrder(name: string, items: seq<QuotationItem>, num: Render, locale: Render, k: nat)
    requires k < |items|
    ensures forall j :: k < j <= |items| ==>
              Offset(ItemTexts(items, num), Break, k) + |ItemText(items[k], num)| + |Break| <=
              Offset(ItemTexts(items, num), Break, j)
    ensures k + 1 < |items| ==>
              var m := Message(name, items, num, locale);
              var g := |Greeting(name)|;
              var texts := ItemTexts(items, num);
              g + Offset(texts, Break, k + 1) <= |m| &&
              m[g + Offset(texts, Break, k) + |texts[k]|..g + Offset(texts, Break, k + 1)] == Break
  {
    var texts := ItemTexts(items, num);
    forall j | k < j <= |items|
      ensures Offset(texts, Break, k) + |texts[k]| + |Break| <= Offset(texts, Break, j)
    {
      OffsetsIncrease(texts, Break, k, j);
    }
    if k + 1 < |items| {
      JoinPlacesSeparator(texts, Break, k);
      var o := Offset(texts, Break, k) + |texts[k]|;
      SliceOfMiddle(Greeting(name), Join(texts, Break), Closing(Total(items), locale), o, Offset(texts, Break, k + 1));
    }
  }

  /// The message opens with the greeting.
  lemma MessageStartsWithGreeting(name: string, items: seq<QuotationItem>, num: Render, locale: Render)
    ensures var m := Message(name, items, num, locale);
            |Greeting(name)| <= |m| && m[..|Greeting(name)|] == Greeting(name)
  {
    var g := Greeting(name);
    var rest := Join(ItemTexts(items, num), Break) + Closing(Total(items), locale);
    assert Message(name, items, num, locale) == g + rest;
    assert (g + rest)[..|g|] == g;
  }

  /// The closing comes straight after the last item line, or straight after
  /// the greeting when there are no items.
  lemma ClosingFollowsLastItem(name: string, items: seq<QuotationItem>, num: Render, locale: Render)
    ensures |items| == 0 ==> Message(name, items, num, locale) == Greeting(name) + Closing(Total(items), locale)
    ensures |items| > 0 ==>
              var m := Message(name, items, num, locale);
              var texts := ItemTexts(items, num);
              var end := |Greeting(name)| + Offset(texts, Break, |items| - 1) + |texts[|items| - 1]|;
              end <= |m| && m[end..] == Closing(Total(items), locale)
  {
    var texts := ItemTexts(items, num);
    var g := Greeting(name);
    var body := Join(texts, Break);
    var c := Closing(Total(items), locale);
    if |items| == 0 {
      assert body == "";
      assert g + body + c == g + c;
    } else {
      JoinEndsWithLast(texts, Break);
      assert (g + body + c)[|g| + |body|..] == c;
    }
  }

  /// The message ends with `Closing`: the total line followed by the thanks line.
  lemma MessageEndsWithTotal(name: string, items: seq<QuotationItem>, num: Render, locale: Render)
    ensures var m := Message(name, items, num, locale);
            var c := Closing(Total(items), locale);
            |c| <= |m| && m[|m| - |c|..] == c
  {
    var c := Closing(Total(items), locale);
    var front := Greeting(name) + Join(ItemTexts(items, num), Break);
    assert (front + c)[|front|..] == c;
  }

  /// The phone in the link carries no whitespace and keeps every other
  /// character of the entered phone.
  lemma UrlPhoneHasNoSpaces(name: string, phone: string, items: seq<QuotationItem>, num: Render, locale: Render)
    ensures var url := WhatsAppUrl(name, phone, items, num, locale);
            url[..14] == "https://wa.me/" &&
            url[14..14 + |StripSpaces(phone)|] == StripSpaces(phone) &&
            (forall c :: c in url[14..14 + |StripSpaces(phone)|] ==> !IsSpace(c))
  {
    var s := StripSpaces(phone);
    var url := WhatsAppUrl(name, phone, items, num, locale);
    assert url == "https://wa.me/" + s + ("?text=" + Message(name, items, num, locale));
    assert url[14..14 + |s|] == s;
  }

  // ---------------------------------------------------------------------------
  // The component's state
  // ---------------------------------------------------------------------------

  class QuotationDraft {
    var customerName: string
    var customerPhone: string
    var items: seq<QuotationItem>
    var isProcessing: bool

    ghost predicate Valid()
      reads this
    {
      WellFormed(items)
    }

    constructor ()
      ensures Valid()
      ensures customerName == "" && customerPhone == "" && items == [] && !isProcessing
    {
      customerName, customerPhone, items, isProcessing := "", "", [], false;
    }

    /// The customer form's two inputs.
    method SetCustomer(name: string, phone: string)
      modifies this`customerName, this`customerPhone
      ensures customerName == name && customerPhone == phone
    {
      customerName, customerPhone := name, phone;
    }

    method AddItem(p: Product, lineId: string)
      requires Valid()
      modifies this`items
      ensures Valid()
      ensures items == AddLine(old(items), p, lineId)
    {
      AddLinePreservesWellFormed(items, p, lineId);
      items := AddLine(items, p, lineId);
    }

    method RemoveItem(lineId: string)
      requires Valid()
      modifies this`items
      ensures Valid()
      ensures items == RemoveLines(old(items), lineId)
    {
      RemoveLinesPreservesWellFormed(items, lineId);
      items := RemoveLines(items, lineId);
    }

    method UpdateQuantity(lineId: string, qty: int)
      requires Valid()
      modifies this`items
      ensures Valid()
      ensures qty < 1 ==> items == old(items)
      ensures items == SetQuantity(old(items), lineId, qty)
    {
      if qty < 1 {
        return;
      }
      items := SetQuantity(items, lineId, qty);
    }

    /// The first half of `handleSave`: validation, then the body for the
    /// single `createQuotation` call, with the processing flag raised. On a
    /// rejection no call is made and nothing changes.
    method BeginSave(userId: string) returns (r: Result<QuotationBody, SaveRejection>)
      modifies this`isProcessing
      ensures r == SaveRequest(customerName, customerPhone, items, userId)
      ensures isProcessing == if r.Success? then true else old(isProcessing)
    {
      r := SaveRequest(customerName, customerPhone, items, userId);
      if r.Success? {
        isProcessing := true;
      }
    }

    /// The second half of `handleSave`, once the store has answered: the
    /// success notice is shown only when the answer says so.
    method FinishSave(success: bool) returns (notify: bool)
      modifies this`isProcessing
      ensures !isProcessing && notify == success
    {
      notify := success;
      isProcessing := false;
    }
  }
}
