/**
 Usage records and invoices: the grouped monthly summary, and the two loops of invoice generation that must
 agree. Quantities are reals; cents are integers, truncated as a Go conversion does.
 */
module Billing {

  /** The resource types with a price, and whatever else a row might hold. */
  datatype Resource = CpuHours | MemoryGBHours | DiskGBHours | Other(name: string)

  /** Cents per unit; any other resource type has no price. */
  function UnitPrice(rt: Resource): int {
    match rt
    case CpuHours => 50
    case MemoryGBHours => 20
    case DiskGBHours => 1
    case Other(_) => 0
  }

  predicate Priced(rt: Resource) {
    !rt.Other?
  }

  datatype UsageRecord = UsageRecord(org: int, resource: Resource, quantity: real, at: int)

  /** What RecordUsage lets into the table. */
  predicate Billable(r: UsageRecord) {
    Priced(r.resource) && r.quantity > 0.0
  }

  predicate InPeriod(r: UsageRecord, org: int, since: int) {
    r.org == org && r.at >= since
  }

  // ----- summing -----

  function QuantityOf(r: UsageRecord, org: int, rt: Resource, since: int): real {
    if InPeriod(r, org, since) && r.resource == rt then r.quantity else 0.0
  }

  /** SUM(quantity) of one resource type over the period. */
  function Total(records: seq<UsageRecord>, org: int, rt: Resource, since: int): real {
    if records == [] then 0.0 else
    Total(records[..|records| - 1], org, rt, since) + QuantityOf(records[|records| - 1], org, rt, since)
  }

  datatype Summary = Summary(cpuHours: real, memoryGBHours: real, diskGBHours: real)

  function SummaryOf(records: seq<UsageRecord>, org: int, since: int): Summary {
    Summary(Total(records, org, CpuHours, since), Total(records, org, MemoryGBHours, since),
            Total(records, org, DiskGBHours, since))
  }

  datatype Group = Group(resource: Resource, quantity: real)

  /** Answers GROUP BY allows: one row for each type that occurs in the period, in any order. */
  ghost predicate AnswersGroupBy(groups: seq<Group>, records: seq<UsageRecord>, org: int, since: int) {
    && (forall i :: 0 <= i < |groups| ==> groups[i].quantity == Total(records, org, groups[i].resource, since))
    && (forall i, j :: 0 <= i < j < |groups| ==> groups[i].resource != groups[j].resource)
    && (forall r :: r in records && InPeriod(r, org, since) ==> Grouped(groups, r.resource))
  }

  ghost predicate Grouped(groups: seq<Group>, rt: Resource) {
    exists i :: 0 <= i < |groups| && groups[i].resource == rt
  }

  lemma {:induction false} AbsentTypeIsZero(records: seq<UsageRecord>, org: int, rt: Resource, since: int)
    requires forall r :: r in records && InPeriod(r, org, since) ==> r.resource != rt
    ensures Total(records, org, rt, since) == 0.0
  {
    if records != [] {
      AbsentTypeIsZero(records[..|records| - 1], org, rt, since);
    }
  }

  /** GetSummary: whatever order the groups come in, and whichever are missing, each field gets its total. */
  method GetSummary(groups: seq<Group>, ghost records: seq<UsageRecord>, ghost org: int, ghost since: int)
    returns (s: Summary)
    requires AnswersGroupBy(groups, records, org, since)
    ensures s == SummaryOf(records, org, since)
  {
    s := Summary(0.0, 0.0, 0.0);
    var i := 0;
    while i < |groups|
      invariant 0 <= i <= |groups|
      invariant s.cpuHours == if Grouped(groups[..i], CpuHours) then Total(records, org, CpuHours, since) else 0.0
      invariant s.memoryGBHours
             == if Grouped(groups[..i], MemoryGBHours) then Total(records, org, MemoryGBHours, since) else 0.0
      invariant s.diskGBHours
             == if Grouped(groups[..i], DiskGBHours) then Total(records, org, DiskGBHours, since) else 0.0
    {
      var g := groups[i];
      GroupedOneMore(groups, i, CpuHours);
      GroupedOneMore(groups, i, MemoryGBHours);
      GroupedOneMore(groups, i, DiskGBHours);
      if g.resource == CpuHours {
        s := s.(cpuHours := g.quantity);
      } else if g.resource == MemoryGBHours {
        s := s.(memoryGBHours := g.quantity);
      } else if g.resource == DiskGBHours {
        s := s.(diskGBHours := g.quantity);
      }
      i := i + 1;
    }
    assert groups[..i] == groups;
    UngroupedIsZero(groups, records, org, since, CpuHours);
    UngroupedIsZero(groups, records, org, since, MemoryGBHours);
    UngroupedIsZero(groups, records, org, since, DiskGBHours);
  }

  lemma GroupedOneMore(groups: seq<Group>, i: nat, rt: Resource)
    requires i < |groups|
    ensures Grouped(groups[..i + 1], rt) <==> Grouped(groups[..i], rt) || groups[i].resource == rt
  {
    if Grouped(groups[..i], rt) {
      var k :| 0 <= k < i && groups[..i][k].resource == rt;
      assert groups[..i + 1][k].resource == rt;
    }
    if groups[i].resource == rt {
      assert groups[..i + 1][i].resource == rt;
    }
    if Grouped(groups[..i + 1], rt) && groups[i].resource != rt {
      var k :| 0 <= k < i + 1 && groups[..i + 1][k].resource == rt;
      assert groups[..i][k].resource == rt;
    }
  }

  lemma UngroupedIsZero(groups: seq<Group>, records: seq<UsageRecord>, org: int, since: int, rt: Resource)
    requires AnswersGroupBy(groups, records, org, since)
    ensures !Grouped(groups, rt) ==> Total(records, org, rt, since) == 0.0
  {
    if !Grouped(groups, rt) {
      AbsentTypeIsZero(records, org, rt, since);
    }
  }

  // ----- invoices -----

  /** int64(x): toward zero. */
  function Truncate(x: real): int {
    if x >= 0.0 then x.Floor else -((-x).Floor)
  }

  /** The exact price of a quantity. */
  function Gross(rt: Resource, quantity: real): real {
    quantity * (UnitPrice(rt) as real)
  }

  datatype LineItem = LineItem(resource: Resource, quantity: real, unitPrice: int, cents: int)

  function Cents(items: seq<LineItem>): int {
    if items == [] then 0 else Cents(items[..|items| - 1]) + items[|items| - 1].cents
  }

  function LineCents(rt: Resource, quantity: real): int {
    if quantity <= 0.0 then 0 else Truncate(Gross(rt, quantity))
  }

  function Amount(s: Summary): int {
    LineCents(CpuHours, s.cpuHours) + LineCents(MemoryGBHours, s.memoryGBHours)
    + LineCents(DiskGBHours, s.diskGBHours)
  }

  /** The three priced types with their usage, in invoice order. */
  function Sources(s: Summary): seq<Group> {
    [Group(CpuHours, s.cpuHours), Group(MemoryGBHours, s.memoryGBHours), Group(DiskGBHours, s.diskGBHours)]
  }

  function LineFor(g: Group): LineItem {
    LineItem(g.resource, g.quantity, UnitPrice(g.resource), LineCents(g.resource, g.quantity))
  }

  function LinesFor(groups: seq<Group>): seq<LineItem> {
    if groups == [] then [] else
    var n := |groups| - 1;
    LinesFor(groups[..n]) + if groups[n].quantity <= 0.0 then [] else [LineFor(groups[n])]
  }

  lemma LinesOneMore(groups: seq<Group>, i: nat)
    requires i < |groups|
    ensures LinesFor(groups[..i + 1]) == LinesFor(groups[..i])
                                       + (if groups[i].quantity <= 0.0 then [] else [LineFor(groups[i])])
    ensures Cents(LinesFor(groups[..i + 1])) == Cents(LinesFor(groups[..i]))
                                              + LineCents(groups[i].resource, groups[i].quantity)
  {
    assert groups[..i + 1][..i] == groups[..i];
    var before := LinesFor(groups[..i]);
    assert (before + [LineFor(groups[i])])[..|before|] == before;
    if groups[i].quantity <= 0.0 {
      assert before + [] == before;
    }
  }

  /** The two loops of invoice generation, over the same list: one for the total, a second one for the line
      items. They agree: the amount is the sum of the items. */
  method BillSources(sources: seq<Group>) returns (amount: int, items: seq<LineItem>)
    ensures amount == Cents(items)
    ensures items == LinesFor(sources)
  {
    amount := 0;
    var i := 0;
    while i < |sources|
      invariant 0 <= i <= |sources|
      invariant amount == Cents(LinesFor(sources[..i]))
    {
      LinesOneMore(sources, i);
      if sources[i].quantity > 0.0 {
        amount := amount + Truncate(Gross(sources[i].resource, sources[i].quantity));
      }
      i := i + 1;
    }
    items := [];
    i := 0;
    while i < |sources|
      invariant 0 <= i <= |sources|
      invariant items == LinesFor(sources[..i])
    {
      LinesOneMore(sources, i);
      var src := sources[i];
      if src.quantity > 0.0 {
        items := items + [LineItem(src.resource, src.quantity, UnitPrice(src.resource),
                                   Truncate(Gross(src.resource, src.quantity)))];
      }
      i := i + 1;
    }
    assert sources[..|sources|] == sources;
  }

  /** GenerateInvoice: the summary of the period, billed. */
  method GenerateInvoice(groups: seq<Group>, ghost records: seq<UsageRecord>, ghost org: int, ghost since: int)
    returns (amount: int, items: seq<LineItem>)
    requires AnswersGroupBy(groups, records, org, since)
    ensures amount == Cents(items) == Amount(SummaryOf(records, org, since))
    ensures items == LinesFor(Sources(SummaryOf(records, org, since)))
  {
    var s := GetSummary(groups, records, org, since);
    amount, items := BillSources(Sources(s));
    CentsOfThree(Group(CpuHours, s.cpuHours), Group(MemoryGBHours, s.memoryGBHours), Group(DiskGBHours, s.diskGBHours));
  }

  function TotalCents(groups: seq<Group>): int {
    if groups == [] then 0 else
    var n := |groups| - 1;
    TotalCents(groups[..n]) + LineCents(groups[n].resource, groups[n].quantity)
  }

  lemma {:induction false} ItemsAddUp(groups: seq<Group>)
    ensures Cents(LinesFor(groups)) == TotalCents(groups)
  {
    if groups != [] {
      var n := |groups| - 1;
      ItemsAddUp(groups[..n]);
      LinesOneMore(groups, n);
      assert groups[..n + 1] == groups;
    }
  }

  lemma CentsOfThree(a: Group, b: Group, c: Group)
    ensures Cents(LinesFor([a, b, c]))
         == LineCents(a.resource, a.quantity) + LineCents(b.resource, b.quantity) + LineCents(c.resource, c.quantity)
  {
    ItemsAddUp([a, b, c]);
    assert [a, b, c][..2] == [a, b] && [a, b][..1] == [a] && [a][..0] == [];
    assert TotalCents([a]) == LineCents(a.resource, a.quantity);
    assert TotalCents([a, b]) == TotalCents([a]) + LineCents(b.resource, b.quantity);
  }

  /** An invoice has an item exactly for each listed type with positive usage, with its quantity and price. */
  lemma {:induction false} ItemsAreTheUsage(groups: seq<Group>, item: LineItem)
    ensures item in LinesFor(groups) <==>
              exists i :: 0 <= i < |groups| && groups[i].quantity > 0.0 && item == LineFor(groups[i])
  {
    if groups != [] {
      var n := |groups| - 1;
      ItemsAreTheUsage(groups[..n], item);
      assert forall i :: 0 <= i < n ==> groups[..n][i] == groups[i];
    }
  }

  /** What is on a line, in cents: 50 for a CPU hour, 20 for a GB-hour of memory and 1 of disk, times the
      quantity, cut off at whole cents. */
  lemma LineIsTruncatedPrice(groups: seq<Group>, item: LineItem)
    requires item in LinesFor(groups)
    ensures item.quantity > 0.0 && Group(item.resource, item.quantity) in groups
    ensures item.unitPrice == match item.resource
                              case CpuHours => 50
                              case MemoryGBHours => 20
                              case DiskGBHours => 1
                              case Other(_) => 0
    ensures item.cents as real <= item.quantity * (item.unitPrice as real) < item.cents as real + 1.0
  {
    ItemsAreTheUsage(groups, item);
  }

  /** A total is nothing for no records, and one more record adds its quantity exactly if it is of the
      organization, of the type, and not before the period. */
  lemma TotalCountsPeriod(records: seq<UsageRecord>, r: UsageRecord, org: int, rt: Resource, since: int)
    ensures Total([], org, rt, since) == 0.0
    ensures Total(records + [r], org, rt, since)
         == Total(records, org, rt, since)
            + if r.org == org && r.resource == rt && since <= r.at then r.quantity else 0.0
  {
    assert (records + [r])[..|records|] == records;
  }

  // ----- what an invoice is worth -----

  /** The exact price, in cents, of the records of the period. */
  function ExactPrice(records: seq<UsageRecord>, org: int, since: int): real {
    if records == [] then 0.0 else
    var r := records[|records| - 1];
    ExactPrice(records[..|records| - 1], org, since)
    + if InPeriod(r, org, since) then Gross(r.resource, r.quantity) else 0.0
  }

  lemma GrossAdds(rt: Resource, a: real, b: real)
    ensures Gross(rt, a + b) == Gross(rt, a) + Gross(rt, b)
  {
  }

  lemma {:induction false} ExactPriceByType(records: seq<UsageRecord>, org: int, since: int)
    requires forall r :: r in records ==> Billable(r)
    ensures var s := SummaryOf(records, org, since);
            && ExactPrice(records, org, since)
               == Gross(CpuHours, s.cpuHours) + Gross(MemoryGBHours, s.memoryGBHours)
                  + Gross(DiskGBHours, s.diskGBHours)
            && s.cpuHours >= 0.0 && s.memoryGBHours >= 0.0 && s.diskGBHours >= 0.0
  {
    if records != [] {
      var n := |records| - 1;
      var s, s' := SummaryOf(records[..n], org, since), SummaryOf(records, org, since);
      GrossAdds(CpuHours, s.cpuHours, s'.cpuHours - s.cpuHours);
      GrossAdds(MemoryGBHours, s.memoryGBHours, s'.memoryGBHours - s.memoryGBHours);
      GrossAdds(DiskGBHours, s.diskGBHours, s'.diskGBHours - s.diskGBHours);
      ExactPriceByType(records[..n], org, since);
      assert records[n] in records;
    }
  }

  lemma LineShort(rt: Resource, quantity: real)
    requires quantity >= 0.0
    ensures 0.0 <= Gross(rt, quantity) - (LineCents(rt, quantity) as real) < 1.0
  {
  }

  /** The exact price in cents: 50 for each CPU hour, 20 for each GB-hour of memory and 1 of disk. */
  lemma ExactPriceInCents(records: seq<UsageRecord>, org: int, since: int)
    requires forall r :: r in records ==> Billable(r)
    ensures ExactPrice(records, org, since)
         == 50.0 * Total(records, org, CpuHours, since) + 20.0 * Total(records, org, MemoryGBHours, since)
            + Total(records, org, DiskGBHours, since)
  {
    ExactPriceByType(records, org, since);
  }

  /** An invoice never charges more than the exact price of the period's records, and falls short of it by
      less than three cents. */
  lemma UnderchargesByLessThanThreeCents(records: seq<UsageRecord>, org: int, since: int)
    requires forall r :: r in records ==> Billable(r)
    ensures var short := ExactPrice(records, org, since) - (Amount(SummaryOf(records, org, since)) as real);
            0.0 <= short < 3.0
  {
    ExactPriceByType(records, org, since);
    var s := SummaryOf(records, org, since);
    LineShort(CpuHours, s.cpuHours);
    LineShort(MemoryGBHours, s.memoryGBHours);
    LineShort(DiskGBHours, s.diskGBHours);
    AddUp(Gross(CpuHours, s.cpuHours), Gross(MemoryGBHours, s.memoryGBHours), Gross(DiskGBHours, s.diskGBHours),
          LineCents(CpuHours, s.cpuHours), LineCents(MemoryGBHours, s.memoryGBHours),
          LineCents(DiskGBHours, s.diskGBHours));
  }

  lemma AddUp(x: real, y: real, z: real, a: int, b: int, c: int)
    requires 0.0 <= x - (a as real) < 1.0 && 0.0 <= y - (b as real) < 1.0 && 0.0 <= z - (c as real) < 1.0
    ensures 0.0 <= x + y + z - ((a + b + c) as real) < 3.0
  {
  }

  /** The total of a type takes each record once, wherever it stands. */
  lemma {:induction false} TotalWithout(records: seq<UsageRecord>, i: nat, org: int, rt: Resource, since: int)
    requires i < |records|
    ensures Total(records, org, rt, since)
         == Total(records[..i] + records[i + 1..], org, rt, since) + QuantityOf(records[i], org, rt, since)
  {
    var n := |records| - 1;
    var rest := records[..i] + records[i + 1..];
    if i == n {
      assert rest == records[..n];
    } else {
      TotalWithout(records[..n], i, org, rt, since);
      assert rest[..n - 1] == records[..n][..i] + records[..n][i + 1..];
      assert rest[n - 1] == records[n];
    }
  }

  lemma MultisetWithout(s: seq<UsageRecord>, i: nat)
    requires i < |s|
    ensures multiset(s) == multiset(s[..i] + s[i + 1..]) + multiset{s[i]}
  {
    assert s == s[..i] + [s[i]] + s[i + 1..];
  }

  lemma RemoveFromBoth(a: seq<UsageRecord>, b: seq<UsageRecord>) returns (i: nat)
    requires a != [] && multiset(a) == multiset(b)
    ensures i < |b| && b[i] == a[|a| - 1]
    ensures multiset(a[..|a| - 1]) == multiset(b[..i] + b[i + 1..])
  {
    var n := |a| - 1;
    MultisetWithout(a, n);
    assert a[..n] + a[n + 1..] == a[..n];
    assert a[n] in multiset(b);
    i :| 0 <= i < |b| && b[i] == a[n];
    MultisetWithout(b, i);
    SameRemainder(multiset(a[..n]), multiset(b[..i] + b[i + 1..]), multiset{a[n]});
  }

  lemma SameRemainder(x: multiset<UsageRecord>, y: multiset<UsageRecord>, z: multiset<UsageRecord>)
    requires x + z == y + z
    ensures x == y
  {
    assert x == (x + z) - z;
    assert y == (y + z) - z;
  }

  /** The order in which records were written changes no total, and so no invoice. */
  lemma {:induction false} OrderDoesNotMatter(a: seq<UsageRecord>, b: seq<UsageRecord>, org: int, rt: Resource,
                                              since: int)
    requires multiset(a) == multiset(b)
    ensures Total(a, org, rt, since) == Total(b, org, rt, since)
    decreases |a|
  {
    if a == [] {
      assert |multiset(b)| == 0;
    } else {
      var i := RemoveFromBoth(a, b);
      OrderDoesNotMatter(a[..|a| - 1], b[..i] + b[i + 1..], org, rt, since);
      TotalWithout(b, i, org, rt, since);
    }
  }

  lemma InvoiceIgnoresOrder(a: seq<UsageRecord>, b: seq<UsageRecord>, org: int, since: int)
    requires multiset(a) == multiset(b)
    ensures Amount(SummaryOf(a, org, since)) == Amount(SummaryOf(b, org, since))
  {
    OrderDoesNotMatter(a, b, org, CpuHours, since);
    OrderDoesNotMatter(a, b, org, MemoryGBHours, since);
    OrderDoesNotMatter(a, b, org, DiskGBHours, since);
  }

  lemma {:induction false} TotalGrows(records: seq<UsageRecord>, more: seq<UsageRecord>, org: int, rt: Resource,
                                      since: int)
    requires forall r :: r in more ==> Billable(r)
    ensures Total(records, org, rt, since) <= Total(records + more, org, rt, since)
  {
    if more == [] {
      assert records + more == records;
    } else {
      var n := |more| - 1;
      TotalGrows(records, more[..n], org, rt, since);
      assert (records + more)[..|records| + n] == records + more[..n];
      assert more[n] in more;
    }
  }

  lemma LineGrows(rt: Resource, less: real, more: real)
    requires less <= more
    ensures LineCents(rt, less) <= LineCents(rt, more)
  {
    assert Gross(rt, less) <= Gross(rt, more);
  }

  /** More records never make an invoice smaller. */
  lemma InvoiceNeverDrops(records: seq<UsageRecord>, more: seq<UsageRecord>, org: int, since: int)
    requires forall r :: r in more ==> Billable(r)
    ensures Amount(SummaryOf(records, org, since)) <= Amount(SummaryOf(records + more, org, since))
  {
    var s, s' := SummaryOf(records, org, since), SummaryOf(records + more, org, since);
    TotalGrows(records, more, org, CpuHours, since);
    TotalGrows(records, more, org, MemoryGBHours, since);
    TotalGrows(records, more, org, DiskGBHours, since);
    LineGrows(CpuHours, s.cpuHours, s'.cpuHours);
    LineGrows(MemoryGBHours, s.memoryGBHours, s'.memoryGBHours);
    LineGrows(DiskGBHours, s.diskGBHours, s'.diskGBHours);
  }

  // ----- the table of usage records -----

  class UsageTable {
    var records: seq<UsageRecord>

    ghost predicate Valid()
      reads this
    {
      forall r :: r in records ==> Billable(r)
    }

    constructor ()
      ensures Valid() && records == []
    {
      records := [];
    }

    /** RecordUsage: an unknown type or a quantity that is not positive is refused and leaves the table alone. */
    method RecordUsage(org: int, rt: Resource, quantity: real, now: int) returns (ok: bool)
      requires Valid()
      modifies this
      ensures Valid()
      ensures ok == (rt in {CpuHours, MemoryGBHours, DiskGBHours} && quantity > 0.0)
      ensures records == old(records) + if ok then [UsageRecord(org, rt, quantity, now)] else []
    {
      if !Priced(rt) {
        return false;
      }
      if quantity <= 0.0 {
        return false;
      }
      records := records + [UsageRecord(org, rt, quantity, now)];
      return true;
    }
  }
}
