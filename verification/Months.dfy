/** Ledger totals by status, by category and by month, and the walk over months
    that works on the text of its keys. */
module Months {
  import opened Decimal
  import opened RoleLists

  datatype Status = Approved | Pending | Rejected
  datatype Movement = Movement(date: string, category: string, amount: int, status: Status)
  datatype GroupTotal<K> = GroupTotal(key: K, count: nat, total: int)
  datatype Labelled<K> = Labelled(caption: string, group: GroupTotal<K>)

  // ------------------------------------------------------ groups of movements

  type Belongs<!K> = (Movement, K) -> bool

  function Matching<K>(movements: seq<Movement>, belongs: Belongs<K>, key: K): seq<Movement> {
    if movements == [] then []
    else (if belongs(movements[0], key) then [movements[0]] else []) + Matching(movements[1..], belongs, key)
  }

  /** The reduce over amounts. */
  function Sum(movements: seq<Movement>): int {
    if movements == [] then 0 else movements[0].amount + Sum(movements[1..])
  }

  function TotalFor<K>(movements: seq<Movement>, belongs: Belongs<K>, key: K): GroupTotal<K> {
    var matching := Matching(movements, belongs, key);
    GroupTotal(key, |matching|, Sum(matching))
  }

  function TotalsFor<K>(movements: seq<Movement>, belongs: Belongs<K>, keys: seq<K>): (r: seq<GroupTotal<K>>)
    ensures |r| == |keys| && forall i :: 0 <= i < |keys| ==> r[i] == TotalFor(movements, belongs, keys[i])
  {
    seq(|keys|, i requires 0 <= i < |keys| => TotalFor(movements, belongs, keys[i]))
  }

  function WithLabels<K>(totals: seq<GroupTotal<K>>, caption: K -> string): (r: seq<Labelled<K>>)
    ensures |r| == |totals| && forall i :: 0 <= i < |r| ==> r[i] == Labelled(caption(totals[i].key), totals[i])
  {
    seq(|totals|, i requires 0 <= i < |totals| => Labelled(caption(totals[i].key), totals[i]))
  }

  function GrandCount<K>(totals: seq<GroupTotal<K>>): nat {
    if totals == [] then 0 else totals[0].count + GrandCount(totals[1..])
  }

  function GrandTotal<K>(totals: seq<GroupTotal<K>>): int {
    if totals == [] then 0 else totals[0].total + GrandTotal(totals[1..])
  }

  /** Every movement kept belongs to exactly one key, every other to none. */
  ghost predicate Partitions<K>(movements: seq<Movement>, belongs: Belongs<K>, keys: seq<K>, kept: Movement -> bool) {
    && (forall m, i, j :: m in movements && 0 <= i < j < |keys| ==> !(belongs(m, keys[i]) && belongs(m, keys[j])))
    && (forall m, i :: m in movements && 0 <= i < |keys| && belongs(m, keys[i]) ==> kept(m))
    && (forall m :: m in movements && kept(m) ==> exists i :: 0 <= i < |keys| && belongs(m, keys[i]))
  }

  function Kept(movements: seq<Movement>, kept: Movement -> bool): seq<Movement> {
    Matching(movements, OneGroup(kept), ())
  }

  function OneGroup(kept: Movement -> bool): Belongs<()> {
    (m: Movement, _: ()) => kept(m)
  }

  lemma {:induction false} NoMovements<K>(belongs: Belongs<K>, keys: seq<K>)
    ensures GrandCount(TotalsFor([], belongs, keys)) == 0 && GrandTotal(TotalsFor([], belongs, keys)) == 0
  {
    if keys != [] {
      NoMovements(belongs, keys[1..]);
      assert TotalsFor([], belongs, keys)[1..] == TotalsFor([], belongs, keys[1..]);
    }
  }

  /** What one movement adds to the grand count and the grand total. */
  function Hits<K>(m: Movement, belongs: Belongs<K>, keys: seq<K>): (nat, int) {
    if keys == [] then (0, 0)
    else
      var (count, total) := Hits(m, belongs, keys[1..]);
      if belongs(m, keys[0]) then (count + 1, total + m.amount) else (count, total)
  }

  lemma OneMoreForKey<K>(m: Movement, rest: seq<Movement>, belongs: Belongs<K>, key: K)
    ensures var before, after := TotalFor(rest, belongs, key), TotalFor([m] + rest, belongs, key);
      after == if belongs(m, key) then GroupTotal(key, before.count + 1, before.total + m.amount) else before
  {
    assert ([m] + rest)[1..] == rest;
    var matching := Matching(rest, belongs, key);
    if belongs(m, key) {
      assert ([m] + matching)[1..] == matching;
    } else {
      assert [] + matching == matching;
    }
  }

  lemma {:induction false} OneMoreMovement<K>(m: Movement, rest: seq<Movement>, belongs: Belongs<K>, keys: seq<K>)
    ensures var (count, total) := Hits(m, belongs, keys);
      && GrandCount(TotalsFor([m] + rest, belongs, keys)) == count + GrandCount(TotalsFor(rest, belongs, keys))
      && GrandTotal(TotalsFor([m] + rest, belongs, keys)) == total + GrandTotal(TotalsFor(rest, belongs, keys))
  {
    if keys != [] {
      OneMoreMovement(m, rest, belongs, keys[1..]);
      OneMoreForKey(m, rest, belongs, keys[0]);
      assert TotalsFor([m] + rest, belongs, keys)[1..] == TotalsFor([m] + rest, belongs, keys[1..]);
      assert TotalsFor(rest, belongs, keys)[1..] == TotalsFor(rest, belongs, keys[1..]);
    }
  }

  lemma {:induction false} NoHits<K>(m: Movement, belongs: Belongs<K>, keys: seq<K>)
    requires forall i :: 0 <= i < |keys| ==> !belongs(m, keys[i])
    ensures Hits(m, belongs, keys) == (0, 0)
  {
    if keys != [] {
      NoHits(m, belongs, keys[1..]);
    }
  }

  lemma {:induction false} OneHit<K>(m: Movement, belongs: Belongs<K>, keys: seq<K>, at: nat)
    requires at < |keys| && belongs(m, keys[at])
    requires forall i :: 0 <= i < |keys| && i != at ==> !belongs(m, keys[i])
    ensures Hits(m, belongs, keys) == (1, m.amount)
  {
    if at == 0 {
      NoHits(m, belongs, keys[1..]);
    } else {
      OneHit(m, belongs, keys[1..], at - 1);
    }
  }

  lemma HitsOfPartition<K>(movements: seq<Movement>, m: Movement, belongs: Belongs<K>, keys: seq<K>, kept: Movement -> bool)
    requires Partitions(movements, belongs, keys, kept) && m in movements
    ensures Hits(m, belongs, keys) == if kept(m) then (1, m.amount) else (0, 0)
  {
    if kept(m) {
      var at :| 0 <= at < |keys| && belongs(m, keys[at]);
      OneHit(m, belongs, keys, at);
    } else {
      NoHits(m, belongs, keys);
    }
  }

  /** A grouping conserves the count and the total of the movements it keeps. */
  lemma {:induction false} GroupingConserves<K>(movements: seq<Movement>, belongs: Belongs<K>, keys: seq<K>, kept: Movement -> bool)
    requires Partitions(movements, belongs, keys, kept)
    ensures GrandCount(TotalsFor(movements, belongs, keys)) == |Kept(movements, kept)|
    ensures GrandTotal(TotalsFor(movements, belongs, keys)) == Sum(Kept(movements, kept))
  {
    if movements == [] {
      NoMovements(belongs, keys);
    } else {
      var m, rest := movements[0], movements[1..];
      assert movements == [m] + rest;
      assert forall x :: x in rest ==> x in movements;
      GroupingConserves(rest, belongs, keys, kept);
      OneMoreMovement(m, rest, belongs, keys);
      OneMoreForKey(m, rest, OneGroup(kept), ());
      HitsOfPartition(movements, m, belongs, keys, kept);
    }
  }

  // ----------------------------------------------------------------- by status

  const STATUS_ORDER: seq<Status> := [Approved, Pending, Rejected]

  function StatusLabel(status: Status): string {
    match status
    case Approved => "Aprobado"
    case Pending => "Pendiente"
    case Rejected => "Rechazado"
  }

  function HasStatus(): Belongs<Status> {
    (m: Movement, status: Status) => m.status == status
  }

  function TotalsByStatus(movements: seq<Movement>): seq<Labelled<Status>> {
    WithLabels(TotalsFor(movements, HasStatus(), STATUS_ORDER), StatusLabel)
  }

  function Everything(): Movement -> bool {
    _ => true
  }

  lemma {:induction false} KeptEverything(movements: seq<Movement>)
    ensures Kept(movements, Everything()) == movements
  {
    if movements != [] {
      KeptEverything(movements[1..]);
    }
  }

  /** One group for each status, in their order, and together all movements. */
  lemma {:induction false} StatusTotalsConserve(movements: seq<Movement>)
    ensures var totals := TotalsFor(movements, HasStatus(), STATUS_ORDER);
      && |TotalsByStatus(movements)| == 3
      && (forall i :: 0 <= i < 3 ==>
            TotalsByStatus(movements)[i] == Labelled(["Aprobado", "Pendiente", "Rechazado"][i], totals[i]))
      && GrandCount(totals) == |movements| && GrandTotal(totals) == Sum(movements)
  {
    var belongs := HasStatus();
    forall m | m in movements ensures exists i :: 0 <= i < |STATUS_ORDER| && belongs(m, STATUS_ORDER[i]) {
      assert belongs(m, STATUS_ORDER[if m.status.Approved? then 0 else if m.status.Pending? then 1 else 2]);
    }
    GroupingConserves(movements, belongs, STATUS_ORDER, Everything());
    KeptEverything(movements);
  }

  // --------------------------------------------------------------- by category

  function Categories(movements: seq<Movement>): (r: seq<string>)
    ensures |r| == |movements| && forall i :: 0 <= i < |r| ==> r[i] == movements[i].category
  {
    seq(|movements|, i requires 0 <= i < |movements| => movements[i].category)
  }

  function InCategory(): Belongs<string> {
    (m: Movement, category: string) => m.category == category
  }

  lemma {:induction false} MatchingAppend<K>(movements: seq<Movement>, m: Movement, belongs: Belongs<K>, key: K)
    ensures Matching(movements + [m], belongs, key) == Matching(movements, belongs, key) + if belongs(m, key) then [m] else []
  {
    if movements != [] {
      MatchingAppend(movements[1..], m, belongs, key);
      assert (movements + [m])[1..] == movements[1..] + [m];
    }
  }

  lemma {:induction false} SumAppend(movements: seq<Movement>, m: Movement)
    ensures Sum(movements + [m]) == Sum(movements) + m.amount
  {
    if movements != [] {
      SumAppend(movements[1..], m);
      assert (movements + [m])[1..] == movements[1..] + [m];
    }
  }

  lemma TotalAppend<K>(movements: seq<Movement>, m: Movement, belongs: Belongs<K>, key: K)
    ensures var before, after := TotalFor(movements, belongs, key), TotalFor(movements + [m], belongs, key);
      after == if belongs(m, key) then GroupTotal(key, before.count + 1, before.total + m.amount) else before
  {
    MatchingAppend(movements, m, belongs, key);
    if belongs(m, key) {
      SumAppend(Matching(movements, belongs, key), m);
    } else {
      assert Matching(movements, belongs, key) + [] == Matching(movements, belongs, key);
    }
  }

  lemma {:induction false} NothingOfNewCategory(movements: seq<Movement>, category: string)
    requires category !in Categories(movements)
    ensures TotalFor(movements, InCategory(), category) == GroupTotal(category, 0, 0)
  {
    if movements != [] {
      assert Categories(movements)[1..] == Categories(movements[1..]);
      assert Categories(movements)[0] == movements[0].category;
      NothingOfNewCategory(movements[1..], category);
    }
  }

  ghost predicate InsertionOrder(seen: seq<Movement>, byCategory: map<string, GroupTotal<string>>, order: seq<string>) {
    order == Deduplicated(Categories(seen)) && byCategory.Keys == Elements(order)
  }

  ghost predicate HoldsTotals(seen: seq<Movement>, byCategory: map<string, GroupTotal<string>>) {
    forall c :: c in byCategory ==> byCategory[c] == TotalFor(seen, InCategory(), c)
  }

  function Entry(byCategory: map<string, GroupTotal<string>>, m: Movement): GroupTotal<string> {
    var entry := if m.category in byCategory then byCategory[m.category] else GroupTotal(m.category, 0, 0);
    entry.(count := entry.count + 1, total := entry.total + m.amount)
  }

  lemma OrderGrows(seen: seq<Movement>, m: Movement)
    ensures var order := Deduplicated(Categories(seen));
      && (m.category in order <==> m.category in Categories(seen))
      && Deduplicated(Categories(seen + [m])) == if m.category in order then order else order + [m.category]
  {
    assert Categories(seen + [m]) == Categories(seen) + [m.category];
    assert (Categories(seen) + [m.category])[..|seen|] == Categories(seen);
    DeduplicatedMembers(Categories(seen), m.category);
  }

  lemma EntryIsTotal(seen: seq<Movement>, byCategory: map<string, GroupTotal<string>>, m: Movement)
    requires m.category in byCategory ==> byCategory[m.category] == TotalFor(seen, InCategory(), m.category)
    requires m.category !in byCategory ==> m.category !in Categories(seen)
    ensures Entry(byCategory, m) == TotalFor(seen + [m], InCategory(), m.category)
  {
    TotalAppend(seen, m, InCategory(), m.category);
    if m.category !in byCategory {
      NothingOfNewCategory(seen, m.category);
    }
  }

  lemma OthersKeepTheirTotal(seen: seq<Movement>, m: Movement, category: string)
    requires category != m.category
    ensures TotalFor(seen + [m], InCategory(), category) == TotalFor(seen, InCategory(), category)
  {
    TotalAppend(seen, m, InCategory(), category);
  }

  lemma TotalsGrow(seen: seq<Movement>, byCategory: map<string, GroupTotal<string>>, m: Movement)
    requires HoldsTotals(seen, byCategory)
    requires m.category !in byCategory ==> m.category !in Categories(seen)
    ensures HoldsTotals(seen + [m], byCategory[m.category := Entry(byCategory, m)])
  {
    EntryIsTotal(seen, byCategory, m);
    forall c | c in byCategory && c != m.category ensures TotalFor(seen + [m], InCategory(), c) == byCategory[c] {
      OthersKeepTheirTotal(seen, m, c);
    }
  }

  lemma InsertionOrderGrows(seen: seq<Movement>, byCategory: map<string, GroupTotal<string>>, order: seq<string>, m: Movement)
    requires InsertionOrder(seen, byCategory, order)
    ensures InsertionOrder(seen + [m], byCategory[m.category := Entry(byCategory, m)], if m.category in byCategory then order else order + [m.category])
    ensures m.category in byCategory <==> m.category in Categories(seen)
  {
    OrderGrows(seen, m);
    assert m.category in byCategory.Keys <==> m.category in order;
    assert Elements(order + [m.category]) == Elements(order) + {m.category};
  }

  method TallyCategories(movements: seq<Movement>) returns (byCategory: map<string, GroupTotal<string>>, order: seq<string>)
    ensures InsertionOrder(movements, byCategory, order) && HoldsTotals(movements, byCategory)
  {
    byCategory, order := map[], [];
    for k := 0 to |movements|
      invariant InsertionOrder(movements[..k], byCategory, order) && HoldsTotals(movements[..k], byCategory)
    {
      var m := movements[k];
      InsertionOrderGrows(movements[..k], byCategory, order, m);
      TotalsGrow(movements[..k], byCategory, m);
      assert movements[..k + 1] == movements[..k] + [m];
      if m.category !in byCategory {
        order := order + [m.category];
      }
      byCategory := byCategory[m.category := Entry(byCategory, m)];
    }
    assert movements[..|movements|] == movements;
  }

  /** The values of the map, in the order the first movement of each category appears. */
  method ValuesByCategory(movements: seq<Movement>) returns (totals: seq<GroupTotal<string>>)
    ensures totals == TotalsFor(movements, InCategory(), Deduplicated(Categories(movements)))
  {
    var byCategory, order := TallyCategories(movements);
    totals := [];
    for i := 0 to |order|
      invariant |totals| == i && forall j :: 0 <= j < i ==> totals[j] == TotalFor(movements, InCategory(), order[j])
    {
      assert order[i] in Elements(order);
      totals := totals + [byCategory[order[i]]];
    }
  }

  /** Largest total first; equal totals in the order of their names, as the locale collates them. */
  predicate Precedes(a: GroupTotal<string>, b: GroupTotal<string>, collates: (string, string) -> bool) {
    b.total < a.total || (a.total == b.total && collates(a.key, b.key))
  }

  function Insert(e: GroupTotal<string>, s: seq<GroupTotal<string>>, collates: (string, string) -> bool): seq<GroupTotal<string>> {
    if s == [] || Precedes(e, s[0], collates) then [e] + s else [s[0]] + Insert(e, s[1..], collates)
  }

  /** The stable sort of the result. */
  function Sorted(s: seq<GroupTotal<string>>, collates: (string, string) -> bool): seq<GroupTotal<string>> {
    if s == [] then [] else Insert(s[0], Sorted(s[1..], collates), collates)
  }

  method TotalsByCategory(movements: seq<Movement>, collates: (string, string) -> bool) returns (totals: seq<GroupTotal<string>>)
    ensures totals == Sorted(TotalsFor(movements, InCategory(), Deduplicated(Categories(movements))), collates)
  {
    var values := ValuesByCategory(movements);
    totals := Sorted(values, collates);
  }

  /** A locale's order of names: any two compare, and comparison is transitive. */
  ghost predicate Collation(collates: (string, string) -> bool) {
    && (forall x, y :: collates(x, y) || collates(y, x))
    && (forall x, y, z :: collates(x, y) && collates(y, z) ==> collates(x, z))
  }

  ghost predicate Ranked(s: seq<GroupTotal<string>>, collates: (string, string) -> bool) {
    forall i, j :: 0 <= i < j < |s| ==> Precedes(s[i], s[j], collates)
  }

  lemma {:induction false} InsertKeeps(e: GroupTotal<string>, s: seq<GroupTotal<string>>, collates: (string, string) -> bool)
    ensures multiset(Insert(e, s, collates)) == multiset([e] + s)
    ensures GrandCount(Insert(e, s, collates)) == e.count + GrandCount(s)
    ensures GrandTotal(Insert(e, s, collates)) == e.total + GrandTotal(s)
  {
    if s == [] || Precedes(e, s[0], collates) {
      assert ([e] + s)[1..] == s;
    } else {
      InsertKeeps(e, s[1..], collates);
      assert s == [s[0]] + s[1..];
      assert ([s[0]] + Insert(e, s[1..], collates))[1..] == Insert(e, s[1..], collates);
    }
  }

  lemma RankedPrepend(x: GroupTotal<string>, rest: seq<GroupTotal<string>>, collates: (string, string) -> bool)
    requires Ranked(rest, collates) && forall y :: y in rest ==> Precedes(x, y, collates)
    ensures Ranked([x] + rest, collates)
  {
    var all := [x] + rest;
    forall i, j | 0 <= i < j < |all| ensures Precedes(all[i], all[j], collates) {
      assert all[j] == rest[j - 1];
      if 0 < i {
        assert all[i] == rest[i - 1];
      }
    }
  }

  lemma PrecedesIsTransitive(a: GroupTotal<string>, b: GroupTotal<string>, c: GroupTotal<string>, collates: (string, string) -> bool)
    requires Collation(collates) && Precedes(a, b, collates) && Precedes(b, c, collates)
    ensures Precedes(a, c, collates)
  {}

  lemma PrecedesIsTotal(a: GroupTotal<string>, b: GroupTotal<string>, collates: (string, string) -> bool)
    requires Collation(collates)
    ensures Precedes(a, b, collates) || Precedes(b, a, collates)
  {}

  lemma MembersOfInsert(e: GroupTotal<string>, s: seq<GroupTotal<string>>, collates: (string, string) -> bool, x: GroupTotal<string>)
    requires x in Insert(e, s, collates)
    ensures x == e || x in s
  {
    InsertKeeps(e, s, collates);
    assert x in multiset(Insert(e, s, collates));
    assert x in [e] + s;
  }

  lemma {:induction false} InsertRanks(e: GroupTotal<string>, s: seq<GroupTotal<string>>, collates: (string, string) -> bool)
    requires Collation(collates) && Ranked(s, collates)
    ensures Ranked(Insert(e, s, collates), collates)
  {
    if s == [] {
      RankedPrepend(e, s, collates);
    } else if Precedes(e, s[0], collates) {
      forall y | y in s ensures Precedes(e, y, collates) {
        var i :| 0 <= i < |s| && s[i] == y;
        if 0 < i {
          PrecedesIsTransitive(e, s[0], y, collates);
        }
      }
      RankedPrepend(e, s, collates);
    } else {
      InsertRanks(e, s[1..], collates);
      PrecedesIsTotal(e, s[0], collates);
      forall y | y in Insert(e, s[1..], collates) ensures Precedes(s[0], y, collates) {
        MembersOfInsert(e, s[1..], collates, y);
      }
      RankedPrepend(s[0], Insert(e, s[1..], collates), collates);
    }
  }

  lemma {:induction false} SortedKeeps(s: seq<GroupTotal<string>>, collates: (string, string) -> bool)
    ensures multiset(Sorted(s, collates)) == multiset(s)
    ensures GrandCount(Sorted(s, collates)) == GrandCount(s) && GrandTotal(Sorted(s, collates)) == GrandTotal(s)
  {
    if s != [] {
      SortedKeeps(s[1..], collates);
      InsertKeeps(s[0], Sorted(s[1..], collates), collates);
      assert s == [s[0]] + s[1..];
    }
  }

  lemma {:induction false} SortedRanks(s: seq<GroupTotal<string>>, collates: (string, string) -> bool)
    requires Collation(collates)
    ensures Ranked(Sorted(s, collates), collates)
  {
    if s != [] {
      SortedRanks(s[1..], collates);
      InsertRanks(s[0], Sorted(s[1..], collates), collates);
    }
  }

  /** The result has the total of every category once, largest total first and
      equal totals by name, and adds up to all movements. */
  lemma {:induction false} CategoryTotalsAreRanked(movements: seq<Movement>, collates: (string, string) -> bool)
    requires Collation(collates)
    ensures var totals := TotalsFor(movements, InCategory(), Deduplicated(Categories(movements)));
      var ranked := Sorted(totals, collates);
      && multiset(ranked) == multiset(totals) && Ranked(ranked, collates)
      && GrandCount(ranked) == |movements| && GrandTotal(ranked) == Sum(movements)
  {
    var totals := TotalsFor(movements, InCategory(), Deduplicated(Categories(movements)));
    SortedKeeps(totals, collates);
    SortedRanks(totals, collates);
    CategoryTotalsConserve(movements);
  }

  lemma {:induction false} CategoryTotalsConserve(movements: seq<Movement>)
    ensures var totals := TotalsFor(movements, InCategory(), Deduplicated(Categories(movements)));
      GrandCount(totals) == |movements| && GrandTotal(totals) == Sum(movements)
  {
    var categories := Categories(movements);
    var keys := Deduplicated(categories);
    DeduplicatedIsTheSetInOrder(categories);
    forall m | m in movements ensures exists i :: 0 <= i < |keys| && InCategory()(m, keys[i]) {
      var k :| 0 <= k < |movements| && movements[k] == m;
      assert categories[k] == m.category;
      DeduplicatedMembers(categories, m.category);
      var i :| 0 <= i < |keys| && keys[i] == m.category;
      assert InCategory()(m, keys[i]);
    }
    GroupingConserves(movements, InCategory(), keys, Everything());
    KeptEverything(movements);
  }
}
