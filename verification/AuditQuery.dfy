/**
 The audit trail's query: a filter compiled to a conjunction with numbered placeholders, evaluated as SQL
 does with its three truth values, and the pages of the newest-first answer.
 */
module AuditQuery {
  import opened Options

  /** A row of audit_events; organization, user and resource may be NULL. */
  datatype AuditRow = AuditRow(id: int, org: Option<int>, user: Option<int>, action: string, resource: Option<string>,
                               at: int)

  datatype Filter = Filter(user: Option<int>, action: string, resource: string, since: Option<int>)

  datatype Value = Number(n: int) | Text(s: string) | Time(t: int)

  datatype Column = OrganizationID | UserID | Action | ResourceID | CreatedAt

  datatype Comparison = Equal | AtLeast

  /** `column = $n` or `column >= $n`. */
  datatype Clause = Clause(column: Column, cmp: Comparison, placeholder: nat)

  // ----- the meaning of a filter -----

  predicate Matches(row: AuditRow, org: int, f: Filter) {
    && row.org == Some(org)
    && (f.user.Some? ==> row.user == f.user)
    && (f.action != "" ==> row.action == f.action)
    && (f.resource != "" ==> row.resource == Some(f.resource))
    && (f.since.Some? ==> row.at >= f.since.value)
  }

  // ----- the meaning of a WHERE clause -----

  datatype Truth = True | False | Unknown

  function And(a: Truth, b: Truth): Truth {
    if a.False? || b.False? then False else if a.True? && b.True? then True else Unknown
  }

  function Read(row: AuditRow, column: Column): Option<Value> {
    match column
    case OrganizationID => if row.org.Some? then Some(Number(row.org.value)) else None
    case UserID => if row.user.Some? then Some(Number(row.user.value)) else None
    case Action => Some(Text(row.action))
    case ResourceID => if row.resource.Some? then Some(Text(row.resource.value)) else None
    case CreatedAt => Some(Time(row.at))
  }

  function Compare(cmp: Comparison, a: Value, b: Value): bool {
    match cmp
    case Equal => a == b
    case AtLeast => a.Time? && b.Time? && a.t >= b.t
  }

  function Evaluate(row: AuditRow, c: Clause, args: seq<Value>): Truth {
    var v := Read(row, c.column);
    if v.None? || !(1 <= c.placeholder <= |args|) then Unknown
    else if Compare(c.cmp, v.value, args[c.placeholder - 1]) then True else False
  }

  function Conjunction(row: AuditRow, clauses: seq<Clause>, args: seq<Value>): Truth {
    if clauses == [] then True
    else And(Conjunction(row, clauses[..|clauses| - 1], args), Evaluate(row, clauses[|clauses| - 1], args))
  }

  predicate Selected(row: AuditRow, clauses: seq<Clause>, args: seq<Value>) {
    Conjunction(row, clauses, args).True?
  }

  // ----- the compiler -----

  /** Placeholders are exactly 1..len(args), each used once and in order. */
  ghost predicate Numbered(clauses: seq<Clause>, args: seq<Value>) {
    |clauses| == |args| && forall i :: 0 <= i < |clauses| ==> clauses[i].placeholder == i + 1
  }

  /** Appending an argument leaves the clauses before it as true or false as they were. */
  lemma {:induction false} LongerArgs(row: AuditRow, clauses: seq<Clause>, args: seq<Value>, more: Value)
    requires forall i :: 0 <= i < |clauses| ==> 1 <= clauses[i].placeholder <= |args|
    ensures Conjunction(row, clauses, args + [more]) == Conjunction(row, clauses, args)
  {
    if clauses != [] {
      LongerArgs(row, clauses[..|clauses| - 1], args, more);
    }
  }

  /** One more clause on one more argument selects the rows that also satisfy it. */
  lemma AppendedClause(row: AuditRow, clauses: seq<Clause>, args: seq<Value>, column: Column, cmp: Comparison,
                       arg: Value)
    requires Numbered(clauses, args)
    ensures var c := Clause(column, cmp, |args| + 1);
            && Numbered(clauses + [c], args + [arg])
            && (Selected(row, clauses + [c], args + [arg]) <==>
                  Selected(row, clauses, args) && Read(row, column).Some? && Compare(cmp, Read(row, column).value, arg))
  {
    var c := Clause(column, cmp, |args| + 1);
    assert (clauses + [c])[..|clauses|] == clauses;
    LongerArgs(row, clauses, args, arg);
  }

  /** The part of a filter compiled so far, as a filter of its own. */
  ghost predicate Compiled(org: int, f: Filter, clauses: seq<Clause>, args: seq<Value>) {
    Numbered(clauses, args) && forall row :: Selected(row, clauses, args) <==> Matches(row, org, f)
  }

  lemma CompiledOneMore(org: int, f: Filter, clauses: seq<Clause>, args: seq<Value>,
                        column: Column, cmp: Comparison, arg: Value, f': Filter)
    requires Compiled(org, f, clauses, args)
    requires forall row :: Matches(row, org, f') <==>
                             && Matches(row, org, f) && Read(row, column).Some?
                             && Compare(cmp, Read(row, column).value, arg)
    ensures Compiled(org, f', clauses + [Clause(column, cmp, |args| + 1)], args + [arg])
  {
    forall row: AuditRow
      ensures Selected(row, clauses + [Clause(column, cmp, |args| + 1)], args + [arg]) <==> Matches(row, org, f')
    {
      AppendedClause(row, clauses, args, column, cmp, arg);
    }
    AppendedClause(AuditRow(0, None, None, "", None, 0), clauses, args, column, cmp, arg);
  }

  lemma FirstClause(org: int)
    ensures Compiled(org, Filter(None, "", "", None), [Clause(OrganizationID, Equal, 1)], [Number(org)])
  {
    forall row: AuditRow
      ensures Selected(row, [Clause(OrganizationID, Equal, 1)], [Number(org)])
          <==> Matches(row, org, Filter(None, "", "", None))
    {
      AppendedClause(row, [], [], OrganizationID, Equal, Number(org));
      assert [] + [Clause(OrganizationID, Equal, 1)] == [Clause(OrganizationID, Equal, 1)];
      assert [] + [Number(org)] == [Number(org)];
    }
  }

  lemma CompiledUser(org: int, f: Filter, clauses: seq<Clause>, args: seq<Value>, user: int)
    requires Compiled(org, f, clauses, args) && f.user.None?
    ensures Compiled(org, f.(user := Some(user)), clauses + [Clause(UserID, Equal, |args| + 1)], args + [Number(user)])
  {
    CompiledOneMore(org, f, clauses, args, UserID, Equal, Number(user), f.(user := Some(user)));
  }

  lemma CompiledAction(org: int, f: Filter, clauses: seq<Clause>, args: seq<Value>, action: string)
    requires Compiled(org, f, clauses, args) && f.action == "" && action != ""
    ensures Compiled(org, f.(action := action), clauses + [Clause(Action, Equal, |args| + 1)], args + [Text(action)])
  {
    CompiledOneMore(org, f, clauses, args, Action, Equal, Text(action), f.(action := action));
  }

  lemma CompiledResource(org: int, f: Filter, clauses: seq<Clause>, args: seq<Value>, resource: string)
    requires Compiled(org, f, clauses, args) && f.resource == "" && resource != ""
    ensures Compiled(org, f.(resource := resource), clauses + [Clause(ResourceID, Equal, |args| + 1)],
                     args + [Text(resource)])
  {
    CompiledOneMore(org, f, clauses, args, ResourceID, Equal, Text(resource), f.(resource := resource));
  }

  lemma CompiledSince(org: int, f: Filter, clauses: seq<Clause>, args: seq<Value>, since: int)
    requires Compiled(org, f, clauses, args) && f.since.None?
    ensures Compiled(org, f.(since := Some(since)), clauses + [Clause(CreatedAt, AtLeast, |args| + 1)],
                     args + [Time(since)])
  {
    CompiledOneMore(org, f, clauses, args, CreatedAt, AtLeast, Time(since), f.(since := Some(since)));
  }

  /** buildAuditWhere. The compiled conjunction selects exactly the rows that match the filter. */
  method BuildWhere(org: int, f: Filter) returns (clauses: seq<Clause>, args: seq<Value>)
    ensures Compiled(org, f, clauses, args)
  {
    args := [Number(org)];
    clauses := [Clause(OrganizationID, Equal, 1)];
    ghost var done := Filter(None, "", "", None);
    FirstClause(org);
    if f.user.Some? {
      CompiledUser(org, done, clauses, args, f.user.value);
      done := done.(user := f.user);
      args := args + [Number(f.user.value)];
      clauses := clauses + [Clause(UserID, Equal, |args|)];
    }
    if f.action != "" {
      CompiledAction(org, done, clauses, args, f.action);
      done := done.(action := f.action);
      args := args + [Text(f.action)];
      clauses := clauses + [Clause(Action, Equal, |args|)];
    }
    if f.resource != "" {
      CompiledResource(org, done, clauses, args, f.resource);
      done := done.(resource := f.resource);
      args := args + [Text(f.resource)];
      clauses := clauses + [Clause(ResourceID, Equal, |args|)];
    }
    if f.since.Some? {
      CompiledSince(org, done, clauses, args, f.since.value);
      done := done.(since := f.since);
      args := args + [Time(f.since.value)];
      clauses := clauses + [Clause(CreatedAt, AtLeast, |args|)];
    }
    assert done == f;
  }

  // ----- ordering and paging -----

  predicate Newer(a: AuditRow, b: AuditRow) {
    a.at > b.at || (a.at == b.at && a.id > b.id)
  }

  ghost predicate NewestFirst(rows: seq<AuditRow>) {
    forall i, j :: 0 <= i < j < |rows| ==> Newer(rows[i], rows[j])
  }

  ghost predicate DistinctIDs(rows: seq<AuditRow>) {
    forall i, j :: 0 <= i < j < |rows| ==> rows[i].id != rows[j].id
  }

  lemma NewestFirstTail(sorted: seq<AuditRow>)
    requires NewestFirst(sorted) && sorted != []
    ensures NewestFirst(sorted[1..])
    ensures forall e :: e in sorted <==> e == sorted[0] || e in sorted[1..]
    ensures forall e :: e in sorted[1..] ==> Newer(sorted[0], e)
  {
    assert sorted == [sorted[0]] + sorted[1..];
    forall e | e in sorted[1..]
      ensures Newer(sorted[0], e)
    {
      var k :| 0 <= k < |sorted[1..]| && sorted[1..][k] == e;
      assert sorted[k + 1] == e;
    }
  }

  lemma NewestFirstCons(head: AuditRow, rest: seq<AuditRow>)
    requires NewestFirst(rest) && forall e :: e in rest ==> Newer(head, e)
    ensures NewestFirst([head] + rest)
  {
    forall k | 0 <= k < |rest|
      ensures Newer(head, rest[k])
    {
      assert rest[k] in rest;
    }
  }

  function InsertNewest(sorted: seq<AuditRow>, row: AuditRow): (r: seq<AuditRow>)
    requires NewestFirst(sorted) && forall e :: e in sorted ==> e.id != row.id
    ensures NewestFirst(r)
    ensures forall e :: e in r <==> e in sorted || e == row
    ensures |r| == |sorted| + 1
  {
    if sorted == [] then [row]
    else
      NewestFirstTail(sorted);
      if Newer(row, sorted[0]) then
        NewestFirstCons(row, sorted);
        [row] + sorted
      else
        var rest := InsertNewest(sorted[1..], row);
        NewestFirstCons(sorted[0], rest);
        [sorted[0]] + rest
  }

  /** The rows a WHERE clause selects, in table order. */
  function Where(table: seq<AuditRow>, clauses: seq<Clause>, args: seq<Value>): seq<AuditRow> {
    if table == [] then [] else
    Where(table[..|table| - 1], clauses, args)
    + if Selected(table[|table| - 1], clauses, args) then [table[|table| - 1]] else []
  }

  /** The rows a filter means, in table order. */
  function Matching(table: seq<AuditRow>, org: int, f: Filter): (rows: seq<AuditRow>)
    ensures forall e :: e in rows <==> e in table && Matches(e, org, f)
  {
    if table == [] then [] else
    var n := |table| - 1;
    assert forall e :: e in table <==> e in table[..n] || e == table[n];
    Matching(table[..n], org, f) + if Matches(table[n], org, f) then [table[n]] else []
  }

  lemma {:induction false} MatchingIsDistinct(table: seq<AuditRow>, org: int, f: Filter)
    requires DistinctIDs(table)
    ensures DistinctIDs(Matching(table, org, f))
  {
    if table != [] {
      var n := |table| - 1;
      MatchingIsDistinct(table[..n], org, f);
      var before := Matching(table[..n], org, f);
      forall k | 0 <= k < |before|
        ensures before[k].id != table[n].id
      {
        assert before[k] in table[..n];
      }
    }
  }

  lemma {:induction false} WhereIsMatching(table: seq<AuditRow>, clauses: seq<Clause>, args: seq<Value>, org: int,
                                           f: Filter)
    requires forall row :: Selected(row, clauses, args) <==> Matches(row, org, f)
    ensures Where(table, clauses, args) == Matching(table, org, f)
  {
    if table != [] {
      WhereIsMatching(table[..|table| - 1], clauses, args, org, f);
    }
  }

  /** ORDER BY created_at DESC, id DESC. */
  function Sorted(rows: seq<AuditRow>): (r: seq<AuditRow>)
    requires DistinctIDs(rows)
    ensures NewestFirst(r) && |r| == |rows|
    ensures forall e :: e in r <==> e in rows
  {
    if rows == [] then [] else
    var n := |rows| - 1;
    var before := Sorted(rows[..n]);
    assert forall e :: e in rows <==> e in rows[..n] || e == rows[n];
    assert forall e :: e in before ==> exists k :: 0 <= k < n && rows[k] == e;
    InsertNewest(before, rows[n])
  }

  /** The whole trail a filter means: the matching rows, newest first. */
  function Trail(table: seq<AuditRow>, org: int, f: Filter): (trail: seq<AuditRow>)
    requires DistinctIDs(table)
    ensures NewestFirst(trail)
    ensures forall e :: e in trail <==> e in table && Matches(e, org, f)
  {
    MatchingIsDistinct(table, org, f);
    Sorted(Matching(table, org, f))
  }

  lemma SomeElement(b: seq<AuditRow>)
    ensures b == [] || exists e :: e in b
  {
    if b != [] {
      assert b[0] in b;
    }
  }

  /** The order leaves no choice: only one newest-first sequence has given elements. */
  lemma {:induction false} OrderIsForced(a: seq<AuditRow>, b: seq<AuditRow>)
    requires NewestFirst(a) && NewestFirst(b) && forall e :: e in a <==> e in b
    ensures a == b
  {
    if a == [] {
      SomeElement(b);
    } else {
      assert a[0] in a;
      assert b != [];
      assert b[0] in b;
      assert a[0] == b[0] by {
        var i :| 0 <= i < |b| && b[i] == a[0];
        var j :| 0 <= j < |a| && a[j] == b[0];
        assert i > 0 ==> Newer(b[0], b[i]);
        assert j > 0 ==> Newer(a[0], a[j]);
      }
      NewestFirstTail(a);
      NewestFirstTail(b);
      OrderIsForced(a[1..], b[1..]);
    }
  }

  /** Each field of a filter narrows the trail to the rows that have it, and an absent one does not; only rows
      of the organization are in it. */
  lemma FilterNarrows(table: seq<AuditRow>, org: int, f: Filter, row: AuditRow)
    requires DistinctIDs(table)
    ensures row in Trail(table, org, Filter(None, "", "", None)) <==> row in table && row.org == Some(org)
    ensures f.user.Some? ==>
              (row in Trail(table, org, f) <==> row in Trail(table, org, f.(user := None)) && row.user == f.user)
    ensures f.action != "" ==>
              (row in Trail(table, org, f) <==> row in Trail(table, org, f.(action := "")) && row.action == f.action)
    ensures f.resource != "" ==>
              (row in Trail(table, org, f) <==>
                 row in Trail(table, org, f.(resource := "")) && row.resource == Some(f.resource))
    ensures f.since.Some? ==>
              (row in Trail(table, org, f) <==>
                 row in Trail(table, org, f.(since := None)) && row.at >= f.since.value)
  {
  }

  /** The later of two rows in a trail is the older, or as old with the smaller id. */
  lemma TrailIsNewestFirst(table: seq<AuditRow>, org: int, f: Filter, i: nat, j: nat)
    requires DistinctIDs(table) && i < j < |Trail(table, org, f)|
    ensures var trail := Trail(table, org, f);
            trail[i].at > trail[j].at || (trail[i].at == trail[j].at && trail[i].id > trail[j].id)
  {
    assert Newer(Trail(table, org, f)[i], Trail(table, org, f)[j]);
  }

  /** LIMIT and OFFSET. */
  function Page(trail: seq<AuditRow>, limit: nat, offset: nat): seq<AuditRow> {
    if offset >= |trail| then []
    else if offset + limit >= |trail| then trail[offset..]
    else trail[offset..offset + limit]
  }

  /** A page at any offset: as many rows as are left there, up to the limit, and those. */
  lemma PageAt(trail: seq<AuditRow>, limit: nat, offset: nat)
    ensures var left := if offset < |trail| then |trail| - offset else 0;
            |Page(trail, limit, offset)| == if left < limit then left else limit
    ensures forall k :: 0 <= k < |Page(trail, limit, offset)| ==>
              offset + k < |trail| && Page(trail, limit, offset)[k] == trail[offset + k]
  {
  }

  /** The first `pages` pages, one after the other. */
  function Pages(trail: seq<AuditRow>, limit: nat, pages: nat): seq<AuditRow> {
    if pages == 0 then [] else Pages(trail, limit, pages - 1) + Page(trail, limit, (pages - 1) * limit)
  }

  lemma {:induction false} PagesArePrefix(trail: seq<AuditRow>, limit: nat, pages: nat)
    ensures Pages(trail, limit, pages) == if pages * limit >= |trail| then trail else trail[..pages * limit]
  {
    if pages > 0 {
      PagesArePrefix(trail, limit, pages - 1);
      assert pages * limit == (pages - 1) * limit + limit;
    }
  }

  /** List: the requested page of the filter's trail, scanned row by row. */
  method List(table: seq<AuditRow>, org: int, f: Filter, limit: nat, offset: nat) returns (events: seq<AuditRow>)
    requires DistinctIDs(table)
    ensures events == Page(Trail(table, org, f), limit, offset)
  {
    var clauses, args := BuildWhere(org, f);
    WhereIsMatching(table, clauses, args, org, f);
    MatchingIsDistinct(table, org, f);
    var rows := Page(Sorted(Where(table, clauses, args)), limit, offset);
    events := [];
    var i := 0;
    while i < |rows|
      invariant 0 <= i <= |rows| && events == rows[..i]
    {
      events := events + [rows[i]];
      i := i + 1;
    }
  }

  method Count(table: seq<AuditRow>, org: int, f: Filter) returns (n: nat)
    requires DistinctIDs(table)
    ensures n == |Trail(table, org, f)|
  {
    var clauses, args := BuildWhere(org, f);
    WhereIsMatching(table, clauses, args, org, f);
    n := |Where(table, clauses, args)|;
  }

  /** Reading List page by page, of any positive limit, until Count rows are covered gives the whole trail. */
  lemma PagesCoverTrail(table: seq<AuditRow>, org: int, f: Filter, limit: nat, pages: nat)
    requires DistinctIDs(table) && limit >= 1 && pages * limit >= |Trail(table, org, f)|
    ensures Pages(Trail(table, org, f), limit, pages) == Trail(table, org, f)
  {
    PagesArePrefix(Trail(table, org, f), limit, pages);
  }

  // ----- who sees what -----

  /** Members who are not admins have their own id put into the filter. */
  function ScopedTo(f: Filter, admin: bool, user: int): Filter {
    if admin then f else f.(user := Some(user))
  }

  function OwnActions(rows: seq<AuditRow>, user: int): seq<AuditRow> {
    if rows == [] then [] else
    (if rows[0].user == Some(user) then [rows[0]] else []) + OwnActions(rows[1..], user)
  }

  lemma {:induction false} OwnActionsAreOrdered(rows: seq<AuditRow>, user: int)
    requires NewestFirst(rows)
    ensures NewestFirst(OwnActions(rows, user))
    ensures forall e :: e in OwnActions(rows, user) <==> e in rows && e.user == Some(user)
  {
    if rows != [] {
      var rest := OwnActions(rows[1..], user);
      OwnActionsAreOrdered(rows[1..], user);
      assert forall e :: e in rows <==> e == rows[0] || e in rows[1..];
      forall k | 0 <= k < |rest|
        ensures Newer(rows[0], rest[k])
      {
        assert rest[k] in rest;
      }
    }
  }

  /** A member's trail is the admin's trail for the same filter cut down to the member's own actions, in the
      same order; another member's id in the filter gets them nothing more. */
  lemma MembersSeeOnlyThemselves(table: seq<AuditRow>, org: int, f: Filter, user: int)
    requires DistinctIDs(table)
    ensures Trail(table, org, ScopedTo(f, false, user))
         == OwnActions(Trail(table, org, ScopedTo(f.(user := None), true, user)), user)
  {
    var all := Trail(table, org, f.(user := None));
    OwnActionsAreOrdered(all, user);
    OrderIsForced(Trail(table, org, ScopedTo(f, false, user)), OwnActions(all, user));
  }
}
