/** The server's ticket view set: the filtered, newest-first ticket query, the
    statistics endpoint, the choice of serializer per action and the input
    check of the classification endpoint. The table of tickets is a sequence;
    each ORM filter is a sequence filter and each count a multiset count. */
module TicketViews {
  import opened Tickets

  // ---------------------------------------------------------------------
  // Filters on the table
  // ---------------------------------------------------------------------

  /** One lookup of a `.filter(...)` call. */
  datatype Cond =
    | FieldIs(attr: Attr, value: string)   // field=value
    | TextSearch(term: string)             // title__icontains | description__icontains

  /** Whether a ticket passes one lookup: an exact field match, or a
      case-insensitive substring of the title or the description. */
  predicate Holds(c: Cond, t: Ticket)
  {
    match c
    case FieldIs(a, v) => Field(t, a) == v
    case TextSearch(s) => IContains(t.title, s) || IContains(t.description, s)
  }

  /** A text search holds exactly when the lower-cased term occurs at some
      position of the lower-cased title or description; an empty term
      passes every ticket. */
  lemma HoldsTextSearch(term: string, t: Ticket)
    ensures Holds(TextSearch(term), t) <==>
      (exists i :: OccursAt(Lower(t.title), Lower(term), i)) ||
      (exists i :: OccursAt(Lower(t.description), Lower(term), i))
    ensures term == "" ==> Holds(TextSearch(term), t)
  {
    IContainsIff(t.title, term);
    IContainsIff(t.description, term);
  }

  /** `.filter(c)`: the rows that satisfy `c`, in their order. */
  function Where(qs: seq<Ticket>, c: Cond): (r: seq<Ticket>)
    ensures |r| <= |qs|
  {
    if qs == [] then []
    else (if Holds(c, qs[0]) then [qs[0]] else []) + Where(qs[1..], c)
  }

  /** Successive `.filter` calls, one per condition. */
  function WhereAll(qs: seq<Ticket>, cs: seq<Cond>): seq<Ticket>
    decreases |cs|
  {
    if cs == [] then qs else WhereAll(Where(qs, cs[0]), cs[1..])
  }

  predicate AllHold(cs: seq<Cond>, t: Ticket)
  {
    forall c :: c in cs ==> Holds(c, t)
  }

  /** The reference filter: the rows that satisfy every condition at once. */
  function Keep(qs: seq<Ticket>, cs: seq<Cond>): (r: seq<Ticket>)
    ensures |r| <= |qs|
  {
    if qs == [] then []
    else (if AllHold(cs, qs[0]) then [qs[0]] else []) + Keep(qs[1..], cs)
  }

  /** Each ticket is kept as often as it occurs if it satisfies every
      condition, and not at all otherwise. */
  lemma {:induction false} KeepCounts(qs: seq<Ticket>, cs: seq<Cond>, t: Ticket)
    ensures multiset(Keep(qs, cs))[t] == if AllHold(cs, t) then multiset(qs)[t] else 0
  {
    if qs != [] {
      KeepCounts(qs[1..], cs, t);
      assert qs == [qs[0]] + qs[1..];
    }
  }

  lemma {:induction false} KeepNoConds(qs: seq<Ticket>)
    ensures Keep(qs, []) == qs
  {
    if qs != [] {
      KeepNoConds(qs[1..]);
    }
  }

  lemma {:induction false} KeepAfterWhere(qs: seq<Ticket>, c: Cond, cs: seq<Cond>)
    ensures Keep(Where(qs, c), cs) == Keep(qs, [c] + cs)
  {
    if qs != [] {
      KeepAfterWhere(qs[1..], c, cs);
      assert AllHold([c] + cs, qs[0]) <==> Holds(c, qs[0]) && AllHold(cs, qs[0]);
      var w := Where(qs, c);
      if Holds(c, qs[0]) {
        assert w == [qs[0]] + Where(qs[1..], c);
        assert w[0] == qs[0] && w[1..] == Where(qs[1..], c);
      } else {
        assert w == [] + Where(qs[1..], c) == Where(qs[1..], c);
      }
    }
  }

  /** One `.filter` is the conjunctive filter with one condition. */
  lemma WhereIsKeep(qs: seq<Ticket>, c: Cond)
    ensures Where(qs, c) == Keep(qs, [c])
  {
    KeepAfterWhere(qs, c, []);
    KeepNoConds(Where(qs, c));
    assert [c] + [] == [c];
  }

  /** `.filter(c)` keeps each ticket that satisfies `c` as often as it occurs,
      and drops every other. */
  lemma WhereCounts(qs: seq<Ticket>, c: Cond, t: Ticket)
    ensures multiset(Where(qs, c))[t] == if Holds(c, t) then multiset(qs)[t] else 0
  {
    WhereIsKeep(qs, c);
    KeepCounts(qs, [c], t);
    assert AllHold([c], t) <==> Holds(c, t);
  }

  /** Chained filters are one conjunctive filter. */
  lemma {:induction false} WhereAllIsConjunction(qs: seq<Ticket>, cs: seq<Cond>)
    ensures WhereAll(qs, cs) == Keep(qs, cs)
    decreases |cs|
  {
    if cs == [] {
      KeepNoConds(qs);
    } else {
      WhereAllIsConjunction(Where(qs, cs[0]), cs[1..]);
      KeepAfterWhere(qs, cs[0], cs[1..]);
      assert [cs[0]] + cs[1..] == cs;
    }
  }

  lemma {:induction false} KeepSameConds(qs: seq<Ticket>, cs1: seq<Cond>, cs2: seq<Cond>)
    requires forall c :: c in cs1 <==> c in cs2
    ensures Keep(qs, cs1) == Keep(qs, cs2)
  {
    if qs != [] {
      KeepSameConds(qs[1..], cs1, cs2);
      assert AllHold(cs1, qs[0]) == AllHold(cs2, qs[0]);
    }
  }

  /** Applying the same filters in any order (or repeating one) gives the
      same rows in the same order. */
  lemma FilterOrderIrrelevant(qs: seq<Ticket>, cs1: seq<Cond>, cs2: seq<Cond>)
    requires forall c :: c in cs1 <==> c in cs2
    ensures WhereAll(qs, cs1) == WhereAll(qs, cs2)
  {
    WhereAllIsConjunction(qs, cs1);
    WhereAllIsConjunction(qs, cs2);
    KeepSameConds(qs, cs1, cs2);
  }

  lemma WhereCommutes(qs: seq<Ticket>, c1: Cond, c2: Cond)
    ensures Where(Where(qs, c1), c2) == Where(Where(qs, c2), c1)
  {
    FilterOrderIrrelevant(qs, [c1, c2], [c2, c1]);
    TwoFilters(qs, c1, c2);
    TwoFilters(qs, c2, c1);
  }

  lemma TwoFilters(qs: seq<Ticket>, c1: Cond, c2: Cond)
    ensures WhereAll(qs, [c1, c2]) == Where(Where(qs, c1), c2)
  {
    assert [c1, c2][1..] == [c2];
    assert WhereAll(qs, [c1, c2]) == WhereAll(Where(qs, c1), [c2]);
    assert [c2][1..] == [];
    assert WhereAll(Where(qs, c1), [c2]) == WhereAll(Where(Where(qs, c1), c2), []);
  }

  lemma {:induction false} WhereAllAppend(qs: seq<Ticket>, cs: seq<Cond>, c: Cond)
    ensures WhereAll(qs, cs + [c]) == Where(WhereAll(qs, cs), c)
    decreases |cs|
  {
    if cs == [] {
      assert [] + [c] == [c];
      assert [c][1..] == [];
    } else {
      assert (cs + [c])[0] == cs[0];
      assert (cs + [c])[1..] == cs[1..] + [c];
      WhereAllAppend(Where(qs, cs[0]), cs[1..], c);
    }
  }

  // ---------------------------------------------------------------------
  // Ordering
  // ---------------------------------------------------------------------

  /** `created_at` is non-increasing: the newest ticket comes first. */
  predicate NewestFirst(qs: seq<Ticket>)
  {
    forall i, j :: 0 <= i < j < |qs| ==> qs[i].createdAt >= qs[j].createdAt
  }

  /** A row of a filtered query is a row of the query that satisfies the
      condition. */
  lemma {:induction false} WhereMember(qs: seq<Ticket>, c: Cond, t: Ticket)
    requires t in Where(qs, c)
    ensures t in qs && Holds(c, t)
  {
    if qs != [] {
      var rest := Where(qs[1..], c);
      if t in rest {
        WhereMember(qs[1..], c, t);
      }
    }
  }

  lemma {:induction false} WhereKeepsOrder(qs: seq<Ticket>, c: Cond)
    requires NewestFirst(qs)
    ensures NewestFirst(Where(qs, c))
  {
    if qs != [] {
      var rest := Where(qs[1..], c);
      assert NewestFirst(qs[1..]);
      WhereKeepsOrder(qs[1..], c);
      if Holds(c, qs[0]) {
        var r := [qs[0]] + rest;
        assert Where(qs, c) == r;
        forall i, j | 0 <= i < j < |r| ensures r[i].createdAt >= r[j].createdAt {
          assert r[j] == rest[j - 1];
          if i > 0 {
            assert r[i] == rest[i - 1];
          } else {
            WhereMember(qs[1..], c, rest[j - 1]);
          }
        }
      } else {
        assert Where(qs, c) == rest;
      }
    }
  }


  /** Puts `t` before the first ticket that is not newer than it. */
  function InsertNewest(t: Ticket, qs: seq<Ticket>): (r: seq<Ticket>)
    ensures multiset(r) == multiset(qs) + multiset{t}
  {
    if qs == [] then [t]
    else if t.createdAt >= qs[0].createdAt then [t] + qs
    else
      assert qs == [qs[0]] + qs[1..];
      [qs[0]] + InsertNewest(t, qs[1..])
  }

  /** Inserting into a newest-first list keeps it newest-first. */
  lemma {:induction false} InsertNewestSorted(t: Ticket, qs: seq<Ticket>)
    requires NewestFirst(qs)
    ensures NewestFirst(InsertNewest(t, qs))
  {
    if qs != [] && t.createdAt < qs[0].createdAt {
      var rest := InsertNewest(t, qs[1..]);
      InsertNewestSorted(t, qs[1..]);
      forall j | 0 <= j < |rest| ensures qs[0].createdAt >= rest[j].createdAt {
        assert rest[j] in multiset(rest);
        assert rest[j] == t || rest[j] in multiset(qs[1..]);
      }
      var r := [qs[0]] + rest;
      assert r == InsertNewest(t, qs);
      forall i, j | 0 <= i < j < |r| ensures r[i].createdAt >= r[j].createdAt {
        if i > 0 {
          assert r[i] == rest[i - 1] && r[j] == rest[j - 1];
        }
      }
    }
  }

  /** `.order_by('-created_at')`. Tickets created at the same second may come
      in any order in the database; this sort fixes one of them, and nothing
      below depends on which. */
  function OrderByNewest(qs: seq<Ticket>): (r: seq<Ticket>)
    ensures NewestFirst(r)
    ensures multiset(r) == multiset(qs)
  {
    if qs == [] then []
    else
      assert qs == [qs[0]] + qs[1..];
      var rest := OrderByNewest(qs[1..]);
      InsertNewestSorted(qs[0], rest);
      InsertNewest(qs[0], rest)
  }

  // ---------------------------------------------------------------------
  // The ticket query
  // ---------------------------------------------------------------------

  /** `query_params.get(k)`, with a missing parameter read as "" (both are
      false in the view's `if` checks). */
  function QueryParam(params: map<string, string>, k: string): (r: string)
    ensures r != "" ==> k in params && params[k] == r
    ensures r == "" <==> k !in params || params[k] == ""
  {
    if k in params then params[k] else ""
  }

  /** The view's acceptance test for one ticket, stated on its own. */
  predicate Matches(t: Ticket, params: map<string, string>)
    ensures Unfiltered(params) ==> Matches(t, params)
  {
    var category := QueryParam(params, "category");
    var priority := QueryParam(params, "priority");
    var status := QueryParam(params, "status");
    var search := QueryParam(params, "search");
    (category != "" ==> t.category == category) &&
    (priority != "" ==> t.priority == priority) &&
    (status != "" ==> t.status == status) &&
    (search != "" ==> IContains(t.title, search) || IContains(t.description, search))
  }

  predicate Unfiltered(params: map<string, string>)
  {
    QueryParam(params, "category") == "" && QueryParam(params, "priority") == "" &&
    QueryParam(params, "status") == "" && QueryParam(params, "search") == ""
  }

  /** The lookups the view applies for the given parameters, in its order. */
  function RequestedConds(params: map<string, string>): seq<Cond>
  {
    var category := QueryParam(params, "category");
    var priority := QueryParam(params, "priority");
    var status := QueryParam(params, "status");
    var search := QueryParam(params, "search");
    (if category != "" then [FieldIs(Category, category)] else []) +
    (if priority != "" then [FieldIs(Priority, priority)] else []) +
    (if status != "" then [FieldIs(Status, status)] else []) +
    (if search != "" then [TextSearch(search)] else [])
  }

  /** At most one lookup per parameter, none for an empty value, and none
      at all exactly when no parameter is given. */
  lemma RequestedCondsShape(params: map<string, string>)
    ensures |RequestedConds(params)| <= 4
    ensures RequestedConds(params) == [] <==> Unfiltered(params)
    ensures forall c :: c in RequestedConds(params) ==>
              (c.FieldIs? && c.value != "") || (c.TextSearch? && c.term != "")
  {
  }

  lemma MatchesIsAllHold(t: Ticket, params: map<string, string>)
    ensures Matches(t, params) <==> AllHold(RequestedConds(params), t)
  {
    var category := QueryParam(params, "category");
    var priority := QueryParam(params, "priority");
    var status := QueryParam(params, "status");
    var search := QueryParam(params, "search");
    var cs := RequestedConds(params);
    assert forall c :: c in cs <==>
      (category != "" && c == FieldIs(Category, category)) ||
      (priority != "" && c == FieldIs(Priority, priority)) ||
      (status != "" && c == FieldIs(Status, status)) ||
      (search != "" && c == TextSearch(search));
    if category != "" { assert FieldIs(Category, category) in cs; }
    if priority != "" { assert FieldIs(Priority, priority) in cs; }
    if status != "" { assert FieldIs(Status, status) in cs; }
    if search != "" { assert TextSearch(search) in cs; }
  }

  /** The rows that survive the view's filters, as counted in the table:
      exactly the matching tickets, each as often as it occurs. */
  lemma {:induction false} QuerysetCounts(db: seq<Ticket>, params: map<string, string>)
    ensures var qs := WhereAll(OrderByNewest(db), RequestedConds(params));
            forall t :: multiset(qs)[t] == if Matches(t, params) then multiset(db)[t] else 0
  {
    var sorted := OrderByNewest(db);
    var cs := RequestedConds(params);
    WhereAllIsConjunction(sorted, cs);
    forall t ensures multiset(WhereAll(sorted, cs))[t] == if Matches(t, params) then multiset(db)[t] else 0 {
      MatchesIsAllHold(t, params);
      KeepCounts(sorted, cs, t);
    }
  }

  /** What the per-ticket counts say about membership: a sub-multiset of the
      table, the matching tickets and no others, all of them without
      parameters. */
  lemma QuerysetMembers(db: seq<Ticket>, params: map<string, string>, qs: seq<Ticket>)
    requires forall t :: multiset(qs)[t] == if Matches(t, params) then multiset(db)[t] else 0
    ensures multiset(qs) <= multiset(db)
    ensures forall t :: t in qs <==> t in db && Matches(t, params)
    ensures Unfiltered(params) ==> multiset(qs) == multiset(db)
  {
    forall t ensures t in qs <==> t in db && Matches(t, params) {
      assert t in qs <==> multiset(qs)[t] > 0;
      assert t in db <==> multiset(db)[t] > 0;
    }
  }

  lemma QuerysetSpec(db: seq<Ticket>, params: map<string, string>, qs: seq<Ticket>)
    requires qs == WhereAll(OrderByNewest(db), RequestedConds(params))
    ensures forall t :: multiset(qs)[t] == if Matches(t, params) then multiset(db)[t] else 0
    ensures multiset(qs) <= multiset(db)
    ensures forall t :: t in qs <==> t in db && Matches(t, params)
    ensures Unfiltered(params) ==> multiset(qs) == multiset(db)
  {
    QuerysetCounts(db, params);
    QuerysetMembers(db, params, qs);
  }

  /** `get_queryset`: newest first, then each non-empty parameter narrows the
      rows. The result holds exactly the matching tickets, each as often as
      in the table. */
  method GetQueryset(db: seq<Ticket>, params: map<string, string>) returns (qs: seq<Ticket>)
    ensures NewestFirst(qs)
    ensures forall t :: multiset(qs)[t] == if Matches(t, params) then multiset(db)[t] else 0
    ensures multiset(qs) <= multiset(db)
    ensures forall t :: t in qs <==> t in db && Matches(t, params)
    ensures Unfiltered(params) ==> multiset(qs) == multiset(db)
  {
    var sorted := OrderByNewest(db);
    var category := QueryParam(params, "category");
    var priority := QueryParam(params, "priority");
    var status := QueryParam(params, "status");
    var search := QueryParam(params, "search");

    ghost var applied: seq<Cond> := [];
    qs := sorted;
    qs, applied := FilterIf(sorted, applied, qs, category != "", FieldIs(Category, category));
    qs, applied := FilterIf(sorted, applied, qs, priority != "", FieldIs(Priority, priority));
    qs, applied := FilterIf(sorted, applied, qs, status != "", FieldIs(Status, status));
    qs, applied := FilterIf(sorted, applied, qs, search != "", TextSearch(search));

    assert applied == RequestedConds(params);
    QuerysetSpec(db, params, qs);
  }

  /** One `if value: queryset = queryset.filter(c)` step on an ordered
      query: the condition joins the applied ones only when `on` holds. */
  method FilterIf(sorted: seq<Ticket>, ghost applied: seq<Cond>, qs: seq<Ticket>, on: bool, c: Cond)
    returns (r: seq<Ticket>, ghost applied': seq<Cond>)
    requires qs == WhereAll(sorted, applied) && NewestFirst(qs)
    ensures applied' == applied + (if on then [c] else [])
    ensures r == WhereAll(sorted, applied') && NewestFirst(r)
  {
    if on {
      WhereAllAppend(sorted, applied, c);
      WhereKeepsOrder(qs, c);
      r := Where(qs, c);
      applied' := applied + [c];
    } else {
      r := qs;
      applied' := applied;
      assert applied + [] == applied;
    }
  }

  // ---------------------------------------------------------------------
  // Statistics
  // ---------------------------------------------------------------------

  /** One column of the table. */
  function Values(db: seq<Ticket>, a: Attr): (r: seq<string>)
    ensures |r| == |db|
    ensures forall i :: 0 <= i < |db| ==> r[i] == Field(db[i], a)
  {
    if db == [] then [] else [Field(db[0], a)] + Values(db[1..], a)
  }

  /** The number of tickets whose column `a` holds `v`. */
  function CountOf(db: seq<Ticket>, a: Attr, v: string): nat
  {
    multiset(Values(db, a))[v]
  }

  lemma {:induction false} CountOfTail(db: seq<Ticket>, a: Attr, v: string)
    requires db != []
    ensures CountOf(db, a, v) == CountOf(db[1..], a, v) + (if Field(db[0], a) == v then 1 else 0)
  {
    assert Values(db, a) == [Field(db[0], a)] + Values(db[1..], a);
  }

  /** A count is at most the number of tickets. */
  lemma {:induction false} CountOfBounded(db: seq<Ticket>, a: Attr, v: string)
    ensures CountOf(db, a, v) <= |db|
    decreases |db|
  {
    if db != [] {
      CountOfTail(db, a, v);
      CountOfBounded(db[1..], a, v);
    }
  }

  /** A count is positive exactly when some ticket has the value. */
  lemma CountOfPositive(db: seq<Ticket>, a: Attr, v: string)
    ensures CountOf(db, a, v) > 0 <==> exists i :: 0 <= i < |db| && Field(db[i], a) == v
  {
    var col := Values(db, a);
    assert CountOf(db, a, v) > 0 <==> v in col;
    if v in col {
      var i :| 0 <= i < |col| && col[i] == v;
      assert Field(db[i], a) == v;
    }
  }

  /** `.filter(a=v).count()` is the multiset count of `v` in the column. */
  lemma {:induction false} FilteredCount(db: seq<Ticket>, a: Attr, v: string)
    ensures |Where(db, FieldIs(a, v))| == CountOf(db, a, v)
  {
    if db != [] {
      FilteredCount(db[1..], a, v);
      CountOfTail(db, a, v);
    }
  }

  /** `Min('created_at')`: None for an empty table. */
  function FirstCreated(db: seq<Ticket>): (r: Option<int>)
    ensures r.None? <==> db == []
    ensures r.Some? ==> forall i :: 0 <= i < |db| ==> r.value <= db[i].createdAt
    ensures r.Some? ==> exists i :: 0 <= i < |db| && db[i].createdAt == r.value
  {
    if db == [] then None
    else
      var rest := FirstCreated(db[1..]);
      if rest.None? || db[0].createdAt <= rest.value then Some(db[0].createdAt)
      else
        assert exists i :: 0 <= i < |db[1..]| && db[1..][i].createdAt == rest.value;
        var i :| 0 <= i < |db[1..]| && db[1..][i].createdAt == rest.value;
        assert db[i + 1].createdAt == rest.value;
        rest
  }

  const SecondsPerDay: int := 86400

  /** `(now - first).days`: whole days elapsed, rounded down. */
  function ElapsedDays(first: int, now: int): (d: int)
    ensures d * SecondsPerDay <= now - first < (d + 1) * SecondsPerDay
  {
    (now - first) / SecondsPerDay
  }

  /** `max(days, 1)`: at least one day, so the average never exceeds the total. */
  function DayDivisor(first: int, now: int): (d: int)
    ensures d >= 1
    ensures ElapsedDays(first, now) >= 1 ==> d == ElapsedDays(first, now)
    ensures ElapsedDays(first, now) < 1 ==> d == 1
  {
    var days := ElapsedDays(first, now);
    if days >= 1 then days else 1
  }

  /** The statistics response. The average is the exact quotient. */
  datatype Stats = Stats(
    totalTickets: nat,
    openTickets: nat,
    avgTicketsPerDay: real,
    priorityBreakdown: map<string, nat>,
    categoryBreakdown: map<string, nat>)

  /** Each distinct value of `s` once. */
  function Distinct(s: seq<string>): (r: seq<string>)
    ensures forall x :: x in r <==> x in s
  {
    if s == [] then []
    else if s[0] in s[1..] then Distinct(s[1..])
    else [s[0]] + Distinct(s[1..])
  }

  /** No value is listed twice. */
  lemma {:induction false} DistinctNoRepeats(s: seq<string>)
    ensures forall i, j :: 0 <= i < j < |Distinct(s)| ==> Distinct(s)[i] != Distinct(s)[j]
  {
    if s != [] {
      DistinctNoRepeats(s[1..]);
      var r, rest := Distinct(s), Distinct(s[1..]);
      if s[0] !in s[1..] {
        assert r == [s[0]] + rest;
        forall i, j | 0 <= i < j < |r| ensures r[i] != r[j] {
          assert r[j] == rest[j - 1];
          if i == 0 {
            assert rest[j - 1] in s[1..];
          } else {
            assert r[i] == rest[i - 1];
          }
        }
      } else {
        assert r == rest;
      }
    }
  }

  /** The value column of grouped rows. */
  function Names(rows: seq<(string, nat)>): (r: seq<string>)
    ensures |r| == |rows|
    ensures forall i :: 0 <= i < |rows| ==> r[i] == rows[i].0
  {
    if rows == [] then [] else [rows[0].0] + Names(rows[1..])
  }

  /** `.values(a).annotate(count=Count('id'))`: one row per value present in
      the column, with its count. */
  function GroupCounts(db: seq<Ticket>, a: Attr): (rows: seq<(string, nat)>)
    ensures Names(rows) == Distinct(Values(db, a))
    ensures forall i :: 0 <= i < |rows| ==> rows[i].1 == CountOf(db, a, rows[i].0)
  {
    var keys := Distinct(Values(db, a));
    var rows := seq(|keys|, i requires 0 <= i < |keys| => (keys[i], CountOf(db, a, keys[i])));
    assert Names(rows) == keys;
    rows
  }

  /** The map after `for item in rows: m[item.value] = item.count`. */
  function Overlay(m: map<string, nat>, rows: seq<(string, nat)>): (r: map<string, nat>)
    ensures forall k :: k in r <==> k in m || k in Names(rows)
    ensures forall k :: k in m && k !in Names(rows) ==> r[k] == m[k]
    ensures rows != [] ==> rows[|rows| - 1].0 in r && r[rows[|rows| - 1].0] == rows[|rows| - 1].1
    decreases |rows|
  {
    if rows == [] then m
    else
      var last := rows[|rows| - 1];
      assert Names(rows) == Names(rows[..|rows| - 1]) + [last.0];
      Overlay(m, rows[..|rows| - 1])[last.0 := last.1]
  }

  /** One more row written over the map. */
  lemma OverlayStep(m: map<string, nat>, rows: seq<(string, nat)>, i: nat)
    requires i < |rows|
    ensures Overlay(m, rows[..i + 1]) == Overlay(m, rows[..i])[rows[i].0 := rows[i].1]
  {
    assert rows[..i + 1][..i] == rows[..i];
  }

  /** Writing counted rows over a map: the keys are the old ones and the
      rows' values; a value that has a row holds its count, any other key
      keeps its old entry. */
  lemma {:induction false} OverlayCounts(m: map<string, nat>, rows: seq<(string, nat)>, db: seq<Ticket>, a: Attr)
    requires forall i :: 0 <= i < |rows| ==> rows[i].1 == CountOf(db, a, rows[i].0)
    ensures forall k :: k in Overlay(m, rows) <==> k in m || k in Names(rows)
    ensures forall k :: k in Overlay(m, rows) ==>
              Overlay(m, rows)[k] == if k in Names(rows) then CountOf(db, a, k) else m[k]
    decreases |rows|
  {
    if rows != [] {
      var init := rows[..|rows| - 1];
      assert Names(rows) == Names(init) + [rows[|rows| - 1].0];
      OverlayCounts(m, init, db, a);
    }
  }

  /** A breakdown: a 0 for every declared choice, then each row of the
      grouped count written over it. Every choice and every value present is
      a key, and each key maps to its count. */
  method Breakdown(db: seq<Ticket>, a: Attr, choices: seq<string>) returns (m: map<string, nat>)
    ensures forall k :: k in m <==> k in choices || k in Values(db, a)
    ensures forall k :: k in m ==> m[k] == CountOf(db, a, k)
    ensures forall k :: k in choices && k !in Values(db, a) ==> m[k] == 0
  {
    var zeros := map k | k in choices :: 0;
    var rows := GroupCounts(db, a);
    m := zeros;
    var i := 0;
    while i < |rows|
      invariant 0 <= i <= |rows|
      invariant m == Overlay(zeros, rows[..i])
    {
      OverlayStep(zeros, rows, i);
      m := m[rows[i].0 := rows[i].1];
      i := i + 1;
    }
    assert rows[..i] == rows;
    BreakdownCounts(db, a, choices, rows);
  }

  lemma BreakdownCounts(db: seq<Ticket>, a: Attr, choices: seq<string>, rows: seq<(string, nat)>)
    requires rows == GroupCounts(db, a)
    ensures var m := Overlay(map k | k in choices :: 0, rows);
            (forall k :: k in m <==> k in choices || k in Values(db, a)) &&
            (forall k :: k in m ==> m[k] == CountOf(db, a, k)) &&
            (forall k :: k in choices && k !in Values(db, a) ==> m[k] == 0)
  {
    var zeros := map k | k in choices :: 0;
    OverlayCounts(zeros, rows, db, a);
    var m := Overlay(zeros, rows);
    forall k | k in m ensures m[k] == CountOf(db, a, k) {
      if k !in Values(db, a) {
        assert multiset(Values(db, a))[k] == 0;
      }
    }
  }

  /** The sum of the values of a map. */
  ghost function MapSum(m: map<string, nat>): nat
    decreases |m.Keys|
  {
    if m == map[] then 0
    else
      var k :| k in m;
      assert |(m - {k}).Keys| < |m.Keys| by {
        assert (m - {k}).Keys == m.Keys - {k};
      }
      m[k] + MapSum(m - {k})
  }

  lemma {:induction false} MapSumRemove(m: map<string, nat>, k: string)
    requires k in m
    ensures MapSum(m) == m[k] + MapSum(m - {k})
    decreases |m.Keys|
  {
    var j :| j in m && MapSum(m) == m[j] + MapSum(m - {j});
    if j != k {
      assert (m - {j}).Keys == m.Keys - {j};
      MapSumRemove(m - {j}, k);
      assert (m - {k}).Keys == m.Keys - {k};
      MapSumRemove(m - {k}, j);
      assert m - {j} - {k} == m - {k} - {j};
    }
  }

  lemma {:induction false} MapSumZero(m: map<string, nat>)
    requires forall k :: k in m ==> m[k] == 0
    ensures MapSum(m) == 0
    decreases |m.Keys|
  {
    if m != map[] {
      var k :| k in m;
      MapSumRemove(m, k);
      assert (m - {k}).Keys == m.Keys - {k};
      MapSumZero(m - {k});
    }
  }

  /** A map that gives every value present its count adds up to the number
      of tickets. */
  lemma {:induction false} SumOfCounts(db: seq<Ticket>, a: Attr, m: map<string, nat>)
    requires forall k :: k in m ==> m[k] == CountOf(db, a, k)
    requires forall i :: 0 <= i < |db| ==> Field(db[i], a) in m
    ensures MapSum(m) == |db|
  {
    if db == [] {
      MapSumZero(m);
    } else {
      var v := Field(db[0], a);
      var tail := db[1..];
      CountOfTail(db, a, v);
      var m' := m[v := m[v] - 1];
      assert forall k :: k in m' ==> m'[k] == CountOf(tail, a, k) by {
        forall k | k in m' ensures m'[k] == CountOf(tail, a, k) {
          CountOfTail(db, a, k);
        }
      }
      assert forall i :: 0 <= i < |tail| ==> Field(tail[i], a) in m' by {
        forall i | 0 <= i < |tail| ensures Field(tail[i], a) in m' {
          assert tail[i] == db[i + 1];
        }
      }
      SumOfCounts(tail, a, m');
      MapSumStep(m, v);
    }
  }

  /** Lowering one entry by one lowers the sum by one. */
  lemma MapSumStep(m: map<string, nat>, v: string)
    requires v in m && m[v] >= 1
    ensures MapSum(m) == MapSum(m[v := m[v] - 1]) + 1
  {
    var m' := m[v := m[v] - 1];
    MapSumRemove(m, v);
    MapSumRemove(m', v);
    assert m - {v} == m' - {v};
  }

  /** The average number of tickets per day, without the rounding to two
      places: 0 unless there is a first ticket and a positive total, else the
      total spread over at least one day. */
  function AverageTicketsPerDay(total: nat, first: Option<int>, now: int): (avg: real)
    ensures first.None? || total == 0 ==> avg == 0.0
    ensures first.Some? && total > 0 ==> avg * DayDivisor(first.value, now) as real == total as real
    ensures 0.0 <= avg <= total as real
  {
    if first.Some? && total > 0 then
      var days := DayDivisor(first.value, now) as real;
      var avg := total as real / days;
      assert avg * days == total as real;
      assert avg <= avg * days;
      avg
    else 0.0
  }

  /** A breakdown adds up to the number of tickets. */
  lemma BreakdownSum(db: seq<Ticket>, a: Attr, choices: seq<string>, m: map<string, nat>)
    requires forall k :: k in m <==> k in choices || k in Values(db, a)
    requires forall k :: k in m ==> m[k] == CountOf(db, a, k)
    ensures MapSum(m) == |db|
  {
    forall i | 0 <= i < |db| ensures Field(db[i], a) in m {
      assert Values(db, a)[i] == Field(db[i], a);
    }
    SumOfCounts(db, a, m);
  }

  /** `stats`: totals, the open count, the average per day since the first
      ticket (at least one day), and the two breakdowns. */
  method ComputeStats(db: seq<Ticket>, now: int) returns (s: Stats)
    ensures s.totalTickets == |db|
    ensures s.openTickets == CountOf(db, Status, "open")
    ensures s.openTickets <= s.totalTickets
    ensures s.avgTicketsPerDay == AverageTicketsPerDay(|db|, FirstCreated(db), now)
    ensures db == [] ==> s.avgTicketsPerDay == 0.0
    ensures forall k :: k in s.priorityBreakdown <==> k in PriorityChoices || k in Values(db, Priority)
    ensures forall k :: k in s.priorityBreakdown ==> s.priorityBreakdown[k] == CountOf(db, Priority, k)
    ensures forall k :: k in s.categoryBreakdown <==> k in CategoryChoices || k in Values(db, Category)
    ensures forall k :: k in s.categoryBreakdown ==> s.categoryBreakdown[k] == CountOf(db, Category, k)
    ensures MapSum(s.priorityBreakdown) == s.totalTickets
    ensures MapSum(s.categoryBreakdown) == s.totalTickets
  {
    var total := |db|;
    var open := |Where(db, FieldIs(Status, "open"))|;
    FilteredCount(db, Status, "open");

    var first := FirstCreated(db);
    var avg := AverageTicketsPerDay(total, first, now);

    var pb := Breakdown(db, Priority, PriorityChoices);
    var cb := Breakdown(db, Category, CategoryChoices);
    BreakdownSum(db, Priority, PriorityChoices, pb);
    BreakdownSum(db, Category, CategoryChoices, cb);
    s := Stats(total, open, avg, pb, cb);
  }

  // ---------------------------------------------------------------------
  // Serializer choice and the classification guard
  // ---------------------------------------------------------------------

  datatype SerializerClass = TicketSerializer | TicketCreateSerializer | TicketUpdateSerializer

  /** `get_serializer_class`, for the action name of the request (None when
      the request has no action). */
  function SerializerFor(action: Option<string>): (r: SerializerClass)
    ensures r == TicketCreateSerializer <==> action == Some("create")
    ensures r == TicketUpdateSerializer <==> action == Some("update") || action == Some("partial_update")
    ensures r == TicketSerializer <==>
            !(action == Some("create") || action == Some("update") || action == Some("partial_update"))
  {
    if action == Some("create") then TicketCreateSerializer
    else if action.Some? && action.value in ["update", "partial_update"] then TicketUpdateSerializer
    else TicketSerializer
  }

  /** A value of the parsed request body. */
  datatype Json =
    | JNull
    | JBool(b: bool)
    | JInt(n: int)
    | JString(s: string)
    | JArray(items: seq<Json>)
    | JObject(fields: map<string, Json>)

  /** Python truthiness of a parsed value. */
  predicate Truthy(v: Json)
    ensures v.JNull? ==> !Truthy(v)
    ensures v.JString? ==> (Truthy(v) <==> |v.s| > 0)
    ensures v.JArray? ==> (Truthy(v) <==> |v.items| > 0)
    ensures v.JObject? ==> (Truthy(v) <==> |v.fields| > 0)
  {
    match v
    case JNull => false
    case JBool(b) => b
    case JInt(n) => n != 0
    case JString(s) => s != ""
    case JArray(items) => items != []
    case JObject(fields) => fields != map[]
  }

  datatype ClassifyStep =
    | Rejected(httpStatus: int, error: string)
    | Crashed(httpStatus: int)
    | Classify(description: Json)

  /** The status the framework answers with when a view raises. */
  const InternalServerError := 500

  /** The first step of `classify` on the parsed request body. A body that is
      not an object has no `.get`, so the view raises and the request ends in
      a server error. In an object, a missing or false description ends the
      request with a 400 error; anything else goes on to the classifier. */
  function ClassifyGuard(body: Json): (r: ClassifyStep)
    ensures r.Crashed? <==> !body.JObject?
    ensures r.Crashed? ==> r.httpStatus == InternalServerError
    ensures r.Rejected? <==>
      body.JObject? && ("description" !in body.fields || !Truthy(body.fields["description"]))
    ensures r.Rejected? ==> r.httpStatus == 400 && r.error == "Description is required"
    ensures r.Classify? ==>
      body.JObject? && "description" in body.fields && r.description == body.fields["description"] &&
      Truthy(r.description)
  {
    match body
    case JObject(data) =>
      if "description" !in data || !Truthy(data["description"]) then
        Rejected(400, "Description is required")
      else
        Classify(data["description"])
    case _ => Crashed(InternalServerError)
  }

  /** For a text description: rejected exactly when it is empty. */
  lemma ClassifyGuardOnText(data: map<string, Json>, d: string)
    requires "description" in data && data["description"] == JString(d)
    ensures ClassifyGuard(JObject(data)).Rejected? <==> d == ""
    ensures d != "" ==> ClassifyGuard(JObject(data)) == Classify(JString(d))
  {
  }
}
