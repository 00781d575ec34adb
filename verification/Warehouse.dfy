/** The warehouse ledger: entries and exits, revisions, and folio numbers. */
module Warehouse {
  import opened HubTables
  import opened Decimal

  datatype Item = Item(sku: string, name: string, category: string, price: int, stock: int)
  datatype Direction = In | Out
  datatype Entry = Entry(folio: string, day: string, sku: string, direction: Direction, quantity: int)
  datatype Store = Store(items: seq<Item>, entries: seq<Entry>)

  datatype Problem = UnknownItem | BadQuantity | NotEnoughStock
  datatype Posting = Posted(store: Store, entry: Entry) | Refused(problem: Problem)

  // ---------------------------------------------------------------- folios

  /** text.replace(/\D/g, ''). */
  function DigitsOf(text: string): (digits: string)
    ensures AllDigits(digits)
  {
    if text == "" then "" else (if IsDigit(text[0]) then [text[0]] else "") + DigitsOf(text[1..])
  }

  /** parseInt of the digits, or zero without any. */
  function FolioNumber(folio: string): nat {
    Parse(DigitsOf(folio))
  }

  function Highest(entries: seq<Entry>): (n: nat)
    ensures forall i :: 0 <= i < |entries| ==> FolioNumber(entries[i].folio) <= n
    ensures n == 0 || exists i :: 0 <= i < |entries| && FolioNumber(entries[i].folio) == n
  {
    if entries == [] then 0
    else
      var rest, last := Highest(entries[..|entries| - 1]), FolioNumber(entries[|entries| - 1].folio);
      if rest < last then last else rest
  }

  function NextFolio(entries: seq<Entry>): string {
    "MV-" + Pad(Print(Highest(entries) + 1), 3)
  }

  lemma {:induction false} DigitsOfDigits(text: string)
    requires AllDigits(text)
    ensures DigitsOf(text) == text
  {
    if text != "" {
      DigitsOfDigits(text[1..]);
      assert [text[0]] + text[1..] == text;
    }
  }

  lemma SkipLetter(c: char, text: string)
    requires !IsDigit(c)
    ensures DigitsOf([c] + text) == DigitsOf(text)
  {
    assert ([c] + text)[1..] == text;
    assert "" + DigitsOf(text) == DigitsOf(text);
  }

  lemma FolioDigits(text: string)
    requires AllDigits(text)
    ensures DigitsOf("MV-" + text) == text
  {
    SkipLetter('M', "V-" + text);
    SkipLetter('V', "-" + text);
    SkipLetter('-', text);
    assert "MV-" + text == ['M'] + ("V-" + text) && "V-" + text == ['V'] + ("-" + text) && "-" + text == ['-'] + text;
    DigitsOfDigits(text);
  }

  /** The number printed into a folio is the number read out of it. */
  lemma {:induction false} FolioRoundTrip(entries: seq<Entry>)
    ensures FolioNumber(NextFolio(entries)) == Highest(entries) + 1
  {
    FolioDigits(Pad(Print(Highest(entries) + 1), 3));
    ParsePad(Highest(entries) + 1, 3);
  }

  // ------------------------------------------------------------ operations

  /** items.find: the first item of the SKU, or the length of the list. */
  function Find(items: seq<Item>, sku: string): (k: nat)
    ensures k <= |items|
    ensures k < |items| ==> items[k].sku == sku
    ensures forall i :: 0 <= i < k ==> items[i].sku != sku
  {
    if items == [] then 0 else if items[0].sku == sku then 0 else 1 + Find(items[1..], sku)
  }

  function Signed(direction: Direction, quantity: int): int {
    if direction.In? then quantity else -quantity
  }

  /** quantity is None when it is not an integer. */
  function Post(w: Store, sku: string, direction: Direction, quantity: Option<int>, day: string): Posting {
    if quantity.None? || quantity.value < 1 then Refused(BadQuantity)
    else
      var k := Find(w.items, sku);
      if k == |w.items| then Refused(UnknownItem)
      else
        var stock := w.items[k].stock + Signed(direction, quantity.value);
        if stock < 0 then Refused(NotEnoughStock)
        else
          var entry := Entry(NextFolio(w.entries), day, sku, direction, quantity.value);
          Posted(Store(w.items[k := w.items[k].(stock := stock)], w.entries + [entry]), entry)
  }

  function Revise(w: Store, sku: string, name: string, price: int): Store {
    w.(items := seq(|w.items|, i requires 0 <= i < |w.items| =>
      if w.items[i].sku == sku then w.items[i].(name := name, price := price) else w.items[i]))
  }

  // --------------------------------------------------------------- whole runs

  datatype Operation =
    | Posting(sku: string, direction: Direction, quantity: Option<int>, day: string)
    | Revision(sku: string, name: string, price: int)

  function Apply(w: Store, op: Operation): Store {
    match op
    case Posting(sku, direction, quantity, day) =>
      var posting := Post(w, sku, direction, quantity, day);
      if posting.Posted? then posting.store else w
    case Revision(sku, name, price) => Revise(w, sku, name, price)
  }

  function After(w: Store, ops: seq<Operation>): Store
    decreases |ops|
  {
    if ops == [] then w else Apply(After(w, ops[..|ops| - 1]), ops[|ops| - 1])
  }

  predicate NoDebt(items: seq<Item>) {
    forall i :: 0 <= i < |items| ==> 0 <= items[i].stock
  }

  /** All units under a SKU. */
  function StockOf(items: seq<Item>, sku: string): int {
    if items == [] then 0
    else StockOf(items[..|items| - 1], sku) + if items[|items| - 1].sku == sku then items[|items| - 1].stock else 0
  }

  /** Units recorded in, minus units recorded out. */
  function Net(entries: seq<Entry>, sku: string): int {
    if entries == [] then 0
    else
      var e := entries[|entries| - 1];
      Net(entries[..|entries| - 1], sku) + if e.sku == sku then Signed(e.direction, e.quantity) else 0
  }

  lemma {:induction false} StockOfUpdate(items: seq<Item>, k: nat, stock: int, sku: string)
    requires k < |items|
    ensures StockOf(items[k := items[k].(stock := stock)], sku)
      == StockOf(items, sku) + if items[k].sku == sku then stock - items[k].stock else 0
  {
    var n := |items| - 1;
    var updated := items[k := items[k].(stock := stock)];
    if k < n {
      StockOfUpdate(items[..n], k, stock, sku);
      assert updated[..n] == items[..n][k := items[k].(stock := stock)];
    } else {
      assert updated[..n] == items[..n];
    }
  }

  lemma {:induction false} StockOfSame(items: seq<Item>, other: seq<Item>, sku: string)
    requires |items| == |other| && forall i :: 0 <= i < |items| ==> items[i].sku == other[i].sku && items[i].stock == other[i].stock
    ensures StockOf(items, sku) == StockOf(other, sku)
  {
    if items != [] {
      StockOfSame(items[..|items| - 1], other[..|items| - 1], sku);
    }
  }

  lemma NetAppend(entries: seq<Entry>, e: Entry, sku: string)
    ensures Net(entries + [e], sku) == Net(entries, sku) + if e.sku == sku then Signed(e.direction, e.quantity) else 0
  {
    assert (entries + [e])[..|entries|] == entries;
  }

  /** Both sides of the ledger move together. */
  lemma StepBalances(w: Store, op: Operation, sku: string)
    requires NoDebt(w.items)
    ensures var after := Apply(w, op);
      NoDebt(after.items) && StockOf(after.items, sku) - Net(after.entries, sku) == StockOf(w.items, sku) - Net(w.entries, sku)
  {
    var after := Apply(w, op);
    match op
    case Posting(s, direction, quantity, day) =>
      var posting := Post(w, s, direction, quantity, day);
      if posting.Posted? {
        var k := Find(w.items, s);
        StockOfUpdate(w.items, k, after.items[k].stock, sku);
        NetAppend(w.entries, posting.entry, sku);
      }
    case Revision(_, _, _) => StockOfSame(w.items, after.items, sku);
  }

  /** Over every run the stock of no item is negative, and for every SKU the
      stock is the initial stock plus the recorded entries minus the exits. */
  lemma {:induction false} StockIsConserved(w: Store, ops: seq<Operation>, sku: string)
    requires NoDebt(w.items)
    ensures var after := After(w, ops);
      NoDebt(after.items) && StockOf(after.items, sku) == StockOf(w.items, sku) + Net(after.entries, sku) - Net(w.entries, sku)
  {
    if ops != [] {
      StockIsConserved(w, ops[..|ops| - 1], sku);
      StepBalances(After(w, ops[..|ops| - 1]), ops[|ops| - 1], sku);
    }
  }

  /** From some entry on, every folio number is above all earlier ones. */
  ghost predicate Increasing(entries: seq<Entry>, from: nat) {
    forall i, j :: 0 <= i < j < |entries| && from <= j ==> FolioNumber(entries[i].folio) < FolioNumber(entries[j].folio)
  }

  lemma NextFolioIncreases(entries: seq<Entry>, from: nat, e: Entry)
    requires Increasing(entries, from) && e.folio == NextFolio(entries)
    ensures Increasing(entries + [e], from)
  {
    FolioRoundTrip(entries);
  }

  /** Every folio issued in a run has a higher number than all before it, so no folio repeats. */
  lemma {:induction false} FoliosIncrease(w: Store, ops: seq<Operation>)
    ensures var entries := After(w, ops).entries;
      && w.entries <= entries && Increasing(entries, |w.entries|)
      && forall i, j :: 0 <= i < j < |entries| && |w.entries| <= j ==> entries[i].folio != entries[j].folio
  {
    if ops != [] {
      var before, op := After(w, ops[..|ops| - 1]), ops[|ops| - 1];
      FoliosIncrease(w, ops[..|ops| - 1]);
      if Apply(before, op).entries != before.entries {
        NextFolioIncreases(before.entries, |w.entries|, Post(before, op.sku, op.direction, op.quantity, op.day).entry);
      }
    }
  }

  ghost predicate DistinctSkus(items: seq<Item>) {
    forall i, j :: 0 <= i < j < |items| ==> items[i].sku != items[j].sku
  }

  lemma {:induction false} StockOfAbsent(items: seq<Item>, sku: string)
    requires forall i :: 0 <= i < |items| ==> items[i].sku != sku
    ensures StockOf(items, sku) == 0
  {
    if items != [] {
      StockOfAbsent(items[..|items| - 1], sku);
    }
  }

  lemma {:induction false} StockOfItem(items: seq<Item>, k: nat)
    requires DistinctSkus(items) && k < |items|
    ensures StockOf(items, items[k].sku) == items[k].stock
  {
    var n := |items| - 1;
    if k < n {
      StockOfItem(items[..n], k);
    } else {
      StockOfAbsent(items[..n], items[k].sku);
    }
  }

  /** With distinct SKUs a posting is accepted exactly when the quantity is a
      positive integer, the SKU exists and its stock would not fall below zero;
      it then moves that stock by the quantity, and no other. */
  lemma PostingIsExact(w: Store, sku: string, direction: Direction, quantity: Option<int>, day: string, other: string)
    requires DistinctSkus(w.items) && other != sku
    ensures var posting := Post(w, sku, direction, quantity, day);
      && (posting.Posted? <==>
            && quantity.Some? && 1 <= quantity.value && (exists i :: 0 <= i < |w.items| && w.items[i].sku == sku)
            && 0 <= StockOf(w.items, sku) + Signed(direction, quantity.value))
      && (posting.Posted? ==>
            && DistinctSkus(posting.store.items)
            && StockOf(posting.store.items, sku) == StockOf(w.items, sku) + Signed(direction, quantity.value)
            && StockOf(posting.store.items, other) == StockOf(w.items, other)
            && posting.store.entries == w.entries + [posting.entry])
  {
    var k := Find(w.items, sku);
    if k < |w.items| {
      StockOfItem(w.items, k);
      var posting := Post(w, sku, direction, quantity, day);
      if posting.Posted? {
        StockOfUpdate(w.items, k, posting.store.items[k].stock, sku);
        StockOfUpdate(w.items, k, posting.store.items[k].stock, other);
      }
    }
  }
}
