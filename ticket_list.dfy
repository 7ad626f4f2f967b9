/** The ticket-list component of the client: its filter state, the query it
    sends for them, the local status edit after a successful update, and
    the two text transformations applied when a ticket card is shown. */
module TicketList {
  import opened Tickets
  import opened QueryString

  // ---------------------------------------------------------------------
  // Filters
  // ---------------------------------------------------------------------

  /** The names of the four filter inputs. */
  datatype FilterName = CategoryFilter | PriorityFilter | StatusFilter | SearchFilter

  /** The filter state; "" means the filter is off. */
  datatype Filters = Filters(category: string, priority: string, status: string, search: string)

  /** The initial filter state: every filter off. */
  const NoFilters := Filters("", "", "", "")

  function Get(f: Filters, n: FilterName): string
  {
    match n
    case CategoryFilter => f.category
    case PriorityFilter => f.priority
    case StatusFilter => f.status
    case SearchFilter => f.search
  }

  /** The query parameter name of each filter. */
  function Key(n: FilterName): string
  {
    match n
    case CategoryFilter => "category"
    case PriorityFilter => "priority"
    case StatusFilter => "status"
    case SearchFilter => "search"
  }

  /** Position of a parameter name in the fixed order category, priority,
      status, search (4 for any other name). */
  function KeyRank(k: string): nat
  {
    if k == "category" then 0
    else if k == "priority" then 1
    else if k == "status" then 2
    else if k == "search" then 3
    else 4
  }

  lemma KeyInjective(n: FilterName, m: FilterName)
    ensures Key(n) == Key(m) <==> n == m
    ensures KeyRank(Key(n)) < 4
  {
  }

  /** `{...prev, [name]: value}`: one field replaced, the others kept. */
  function With(f: Filters, n: FilterName, value: string): (r: Filters)
    ensures Get(r, n) == value
    ensures forall m :: m != n ==> Get(r, m) == Get(f, m)
  {
    match n
    case CategoryFilter => f.(category := value)
    case PriorityFilter => f.(priority := value)
    case StatusFilter => f.(status := value)
    case SearchFilter => f.(search := value)
  }

  // ---------------------------------------------------------------------
  // The query sent for the filters
  // ---------------------------------------------------------------------

  /** Every filter as a pair, in the fixed order. */
  function AllPairs(f: Filters): seq<Param>
  {
    [("category", f.category), ("priority", f.priority), ("status", f.status), ("search", f.search)]
  }

  /** The pairs with a non-empty value, order kept. */
  function NonEmptyPairs(ps: seq<Param>): (r: seq<Param>)
    ensures forall p :: p in r <==> p in ps && p.1 != ""
  {
    if ps == [] then []
    else if ps[0].1 == "" then NonEmptyPairs(ps[1..])
    else [ps[0]] + NonEmptyPairs(ps[1..])
  }

  /** The reference definition of the query: the filters that are on. */
  function QueryPairs(f: Filters): seq<Param>
  {
    NonEmptyPairs(AllPairs(f))
  }

  lemma {:induction false} NonEmptyPairsAppend(a: seq<Param>, b: seq<Param>)
    ensures NonEmptyPairs(a + b) == NonEmptyPairs(a) + NonEmptyPairs(b)
  {
    if a != [] {
      assert (a + b)[0] == a[0];
      assert (a + b)[1..] == a[1..] + b;
      NonEmptyPairsAppend(a[1..], b);
    } else {
      assert a + b == b;
    }
  }

  /** A pair as a list of at most one element: nothing when its value is empty. */
  function IfOn(p: Param): seq<Param>
  {
    if p.1 == "" then [] else [p]
  }

  lemma QueryPairsOneByOne(f: Filters)
    ensures QueryPairs(f) == IfOn(("category", f.category)) + IfOn(("priority", f.priority)) +
                             IfOn(("status", f.status)) + IfOn(("search", f.search))
  {
    var all := AllPairs(f);
    assert all == [all[0]] + [all[1]] + [all[2]] + [all[3]];
    forall p ensures NonEmptyPairs([p]) == IfOn(p) {
      assert [p][1..] == [];
    }
    NonEmptyPairsAppend([all[0]], [all[1]]);
    NonEmptyPairsAppend([all[0]] + [all[1]], [all[2]]);
    NonEmptyPairsAppend([all[0]] + [all[1]] + [all[2]], [all[3]]);
  }

  /** The parameter list built by appending one pair per filter that is on. */
  method BuildParams(f: Filters) returns (params: seq<Param>)
    ensures params == QueryPairs(f)
  {
    params := [];
    if f.category != "" { params := params + [("category", f.category)]; }
    if f.priority != "" { params := params + [("priority", f.priority)]; }
    if f.status != "" { params := params + [("status", f.status)]; }
    if f.search != "" { params := params + [("search", f.search)]; }
    QueryPairsOneByOne(f);
  }

  predicate RankIncreasing(ps: seq<Param>)
  {
    forall i, j :: 0 <= i < j < |ps| ==> KeyRank(ps[i].0) < KeyRank(ps[j].0)
  }

  lemma {:induction false} NonEmptyPairsKeepsOrder(ps: seq<Param>)
    requires RankIncreasing(ps)
    ensures RankIncreasing(NonEmptyPairs(ps))
  {
    if ps != [] {
      var rest := NonEmptyPairs(ps[1..]);
      assert RankIncreasing(ps[1..]) by {
        forall i, j | 0 <= i < j < |ps[1..]| ensures KeyRank(ps[1..][i].0) < KeyRank(ps[1..][j].0) {
          assert ps[1..][i] == ps[i + 1] && ps[1..][j] == ps[j + 1];
        }
      }
      NonEmptyPairsKeepsOrder(ps[1..]);
      if ps[0].1 != "" {
        forall j | 0 <= j < |rest| ensures KeyRank(ps[0].0) < KeyRank(rest[j].0) {
          assert rest[j] in ps[1..];
          var k :| 0 <= k < |ps[1..]| && ps[1..][k] == rest[j];
          assert ps[k + 1] == rest[j];
        }
      }
    }
  }

  /** The parameters appear in the order category, priority, status,
      search; hence no name appears twice. */
  lemma QueryOrdered(f: Filters)
    ensures RankIncreasing(QueryPairs(f))
    ensures DistinctNames(QueryPairs(f))
  {
    NonEmptyPairsKeepsOrder(AllPairs(f));
  }

  /** A filter's name is sent iff the filter is on, and then with its value;
      no pair is ever sent with an empty value. */
  lemma QueryHasKeyIff(f: Filters, n: FilterName)
    ensures (exists i :: 0 <= i < |QueryPairs(f)| && QueryPairs(f)[i].0 == Key(n)) <==> Get(f, n) != ""
    ensures forall i :: 0 <= i < |QueryPairs(f)| && QueryPairs(f)[i].0 == Key(n) ==> QueryPairs(f)[i].1 == Get(f, n)
    ensures forall i :: 0 <= i < |QueryPairs(f)| ==> QueryPairs(f)[i].1 != ""
  {
    var q := QueryPairs(f);
    var p := (Key(n), Get(f, n));
    assert p in AllPairs(f);
    if Get(f, n) != "" {
      assert p in q;
    }
    forall i | 0 <= i < |q| && q[i].0 == Key(n) ensures q[i].1 == Get(f, n) {
      assert q[i] in AllPairs(f);
    }
    forall i | 0 <= i < |q| ensures q[i].1 != "" {
      assert q[i] in q;
    }
  }

  /** The query is empty exactly when every filter is off. */
  lemma QueryEmptyIff(f: Filters)
    ensures QueryPairs(f) == [] <==> f == NoFilters
  {
    if f != NoFilters {
      var p :| p in AllPairs(f) && p.1 != "";
      assert p in QueryPairs(f);
    }
  }

  /** The example of the filter form: category and status set. */
  lemma QueryExamplePairs()
    ensures QueryPairs(Filters("billing", "", "open", "")) == [("category", "billing"), ("status", "open")]
  {
    QueryPairsOneByOne(Filters("billing", "", "open", ""));
  }

  /** Its query string, for an encoder that leaves plain lower-case words alone. */
  lemma QueryExampleString(enc: string -> string)
    requires enc("category") == "category" && enc("billing") == "billing"
    requires enc("status") == "status" && enc("open") == "open"
    ensures Serialize(QueryPairs(Filters("billing", "", "open", "")), enc) == "category=billing&status=open"
  {
    QueryExamplePairs();
    var q := [("category", "billing"), ("status", "open")];
    var pieces := Pieces(q, enc);
    assert pieces[0] == "category=billing";
    assert pieces[1] == "status=open";
    assert Join(pieces, '&') == pieces[0] + "&" + pieces[1];
  }

  /** The configured API base, or the local default when it is unset or empty. */
  const DefaultApiUrl := "http://localhost:8000"

  function ApiUrl(configured: Option<string>): (r: string)
    ensures configured.Some? && configured.value != "" ==> r == configured.value
    ensures configured.None? || configured.value == "" ==> r == DefaultApiUrl
  {
    if configured.Some? && configured.value != "" then configured.value else DefaultApiUrl
  }

  /** The address of the list request: always ends in "?", even when the
      query is empty. */
  function ListUrl(base: string, ps: seq<Param>, enc: string -> string): (r: string)
    ensures base + ListPath <= r
    ensures ps == [] ==> r == base + ListPath
  {
    base + ListPath + Serialize(ps, enc)
  }

  const ListPath := "/api/tickets/?"

  /** What follows the list path in the address parses back to the encoded
      parameters, in order. */
  lemma ListUrlQuery(base: string, ps: seq<Param>, enc: string -> string)
    requires DelimiterFree(enc)
    ensures Parse(ListUrl(base, ps, enc)[|base + ListPath|..]) == MapPairs(ps, enc)
  {
    var u := ListUrl(base, ps, enc);
    assert u[|base + ListPath|..] == Serialize(ps, enc);
    ParseSerialize(ps, enc);
  }

  // ---------------------------------------------------------------------
  // Card rendering
  // ---------------------------------------------------------------------

  const DescriptionLimit: nat := 100
  const Ellipsis := "..."

  /** The description shown on a card: cut hard at 100 characters, with
      "..." appended when something was cut. */
  function ShownDescription(d: string): (r: string)
    ensures |d| <= DescriptionLimit ==> r == d
    ensures |d| > DescriptionLimit ==> |r| == DescriptionLimit + |Ellipsis| && r[DescriptionLimit..] == Ellipsis
    ensures |d| > DescriptionLimit ==> d[..DescriptionLimit] <= r && r[..DescriptionLimit] == d[..DescriptionLimit]
  {
    if |d| > DescriptionLimit then d[..DescriptionLimit] + Ellipsis else d
  }

  /** Never longer than 103 characters; the text kept is a prefix of the
      original; shortening twice changes nothing more. */
  lemma ShownDescriptionProperties(d: string)
    ensures |ShownDescription(d)| <= DescriptionLimit + |Ellipsis|
    ensures var k := if |d| <= DescriptionLimit then |d| else DescriptionLimit;
            ShownDescription(d)[..k] == d[..k]
    ensures ShownDescription(ShownDescription(d)) == ShownDescription(d)
  {
    var r := ShownDescription(d);
    if |d| > DescriptionLimit {
      assert r[..DescriptionLimit] == d[..DescriptionLimit];
    }
  }

  /** `s.replace(from, to)` with a one-character string pattern: only the
      first occurrence is replaced. */
  function ReplaceFirst(s: string, from: char, to: char): (r: string)
    ensures |r| == |s|
    ensures from !in s ==> r == s
  {
    if s == [] then []
    else if s[0] == from then [to] + s[1..]
    else [s[0]] + ReplaceFirst(s[1..], from, to)
  }

  /** The status badge text: as long as the status, with its first '_', if
      any, shown as a space and everything before it kept. */
  function StatusLabel(status: string): (r: string)
    ensures |r| == |status|
    ensures '_' !in status ==> r == status
    ensures '_' in status ==>
      var i := IndexOf(status, '_');
      r[i] == ' ' && r[..i] == status[..i] && r[i + 1..] == status[i + 1..]
  {
    if '_' in status then
      ReplaceFirstAt(status, '_', ' ');
      ReplaceFirst(status, '_', ' ')
    else
      ReplaceFirst(status, '_', ' ')
  }

  /** The position of the first `c` in `s`. */
  function IndexOf(s: string, c: char): (i: nat)
    requires c in s
    ensures i < |s| && s[i] == c && c !in s[..i]
  {
    if s[0] == c then 0
    else
      var i := IndexOf(s[1..], c);
      assert s[..i + 1] == [s[0]] + s[1..][..i];
      i + 1
  }

  /** The first `from` becomes `to`; everything before and after it stays. */
  lemma {:induction false} ReplaceFirstAt(s: string, from: char, to: char)
    requires from in s
    ensures ReplaceFirst(s, from, to) == s[..IndexOf(s, from)] + [to] + s[IndexOf(s, from) + 1..]
  {
    if s[0] != from {
      ReplaceFirstAt(s[1..], from, to);
      var i := IndexOf(s[1..], from);
      assert s[..i + 1] == [s[0]] + s[1..][..i];
      assert s[i + 2..] == s[1..][i + 1..];
    }
  }

  /** The label differs from the status only at its first underscore, which
      has become a space; a status without one is shown as it is. */
  lemma StatusLabelFirstUnderscore(status: string)
    ensures '_' !in status ==> StatusLabel(status) == status
    ensures '_' in status ==>
      var i := IndexOf(status, '_');
      '_' !in status[..i] && StatusLabel(status) == status[..i] + " " + status[i + 1..]
  {
    if '_' in status {
      ReplaceFirstAt(status, '_', ' ');
    }
  }

  lemma {:induction false} IndexOfUnique(s: string, c: char, i: nat)
    requires i < |s| && s[i] == c && c !in s[..i]
    ensures IndexOf(s, c) == i
  {
    if i > 0 {
      assert s[0] in s[..i];
      assert s[1..][..i - 1] == s[1..i];
      assert forall x :: x in s[1..i] ==> x in s[..i];
      IndexOfUnique(s[1..], c, i - 1);
    }
  }

  /** A status made of a first word, '_' and a rest is shown as the first
      word, a space and the rest, unchanged. */
  lemma StatusLabelSplit(first: string, rest: string)
    requires '_' !in first
    ensures StatusLabel(first + "_" + rest) == first + " " + rest
  {
    var s := first + "_" + rest;
    var i := |first|;
    assert s[..i] == first && s[i] == '_' && s[i + 1..] == rest;
    IndexOfUnique(s, '_', i);
    var r := StatusLabel(s);
    assert r == r[..i] + [r[i]] + r[i + 1..];
  }

  /** "in_progress" is shown as "in progress". The status is a parameter
      fixed by the precondition so that the verifier reasons about the split
      rather than unfolding the label on the literal character by character. */
  lemma StatusLabelInProgress(status: string)
    requires status == "in_progress"
    ensures StatusLabel(status) == "in progress"
  {
    StatusLabelSplit(status[..2], status[3..]);
    assert status == status[..2] + "_" + status[3..];
  }

  lemma StatusLabelOpen()
    ensures StatusLabel("open") == "open"
  {
  }

  /** The badge of a declared status: only "in_progress" changes. */
  lemma StatusLabelOfChoice(status: string)
    requires status in StatusChoices
    ensures StatusLabel(status) == if status == "in_progress" then "in progress" else status
  {
    if status == "in_progress" {
      StatusLabelInProgress(status);
    } else {
      assert status == "open" || status == "resolved" || status == "closed";
      assert '_' !in status;
    }
  }

  /** Only the first of two underscores is replaced. */
  lemma StatusLabelTwoUnderscores()
    ensures StatusLabel("a_b_c") == "a b_c"
  {
    var t := "a_b_c";
    assert t[..1] == "a";
    IndexOfUnique(t, '_', 1);
    ReplaceFirstAt(t, '_', ' ');
    assert t[2..] == "b_c";
  }

  // ---------------------------------------------------------------------
  // The local status edit
  // ---------------------------------------------------------------------

  /** `prev.map(t => t.id === id ? {...t, status} : t)`. */
  function WithStatus(ts: seq<Ticket>, id: int, status: string): (r: seq<Ticket>)
    ensures |r| == |ts|
    ensures forall i :: 0 <= i < |ts| && ts[i].id == id ==> r[i].status == status && r[i].(status := ts[i].status) == ts[i]
    ensures forall i :: 0 <= i < |ts| && ts[i].id != id ==> r[i] == ts[i]
  {
    if ts == [] then []
    else [if ts[0].id == id then ts[0].(status := status) else ts[0]] + WithStatus(ts[1..], id, status)
  }

  /** The edit keeps every id, repeats as a no-op, and leaves a list
      without the id alone. */
  lemma WithStatusProperties(ts: seq<Ticket>, id: int, status: string)
    ensures forall i :: 0 <= i < |ts| ==> WithStatus(ts, id, status)[i].id == ts[i].id
    ensures WithStatus(WithStatus(ts, id, status), id, status) == WithStatus(ts, id, status)
    ensures (forall i :: 0 <= i < |ts| ==> ts[i].id != id) ==> WithStatus(ts, id, status) == ts
  {
    var r := WithStatus(ts, id, status);
    var rr := WithStatus(r, id, status);
    assert |rr| == |r|;
    forall i | 0 <= i < |r| ensures rr[i] == r[i] {
      if ts[i].id == id {
        assert r[i].id == id;
      }
    }
  }

  // ---------------------------------------------------------------------
  // The component state
  // ---------------------------------------------------------------------

  /** The requests the component sends: the list request with its address
      and parameters, and the status update with the base address it goes to. */
  datatype ApiRequest =
    | ListTickets(url: string, params: seq<Param>)
    | PatchStatus(base: string, id: int, status: string)

  /** The list request for the filters `f`, sent to `base`. */
  function ListRequest(base: string, f: Filters, enc: string -> string): ApiRequest
  {
    ListTickets(ListUrl(base, QueryPairs(f), enc), QueryPairs(f))
  }

  /** The outcome of a request, supplied by the caller in place of the network. */
  datatype FetchOutcome = Received(data: seq<Ticket>) | FetchFailed
  datatype PatchOutcome = PatchSucceeded | PatchFailed

  const UpdateFailedAlert := "Failed to update status"

  /** The state of one mounted ticket list: the fetched tickets, the loading
      flag, the filters, and the record of requests sent and alerts shown. */
  class TicketListState {
    const apiUrl: string
    const enc: string -> string
    var tickets: seq<Ticket>
    var loading: bool
    var filters: Filters
    var sent: seq<ApiRequest>
    var alerts: seq<string>

    /** The initial state: no tickets, loading, all filters off. */
    constructor (configuredUrl: Option<string>, encoder: string -> string)
      ensures apiUrl == ApiUrl(configuredUrl) && enc == encoder
      ensures tickets == [] && loading && filters == NoFilters
      ensures sent == [] && alerts == []
    {
      apiUrl := ApiUrl(configuredUrl);
      enc := encoder;
      tickets := [];
      loading := true;
      filters := NoFilters;
      sent := [];
      alerts := [];
    }

    /** Starts a list fetch: sets the loading flag and sends the query for the
        current filters to the list address under the configured base. */
    method FetchTickets()
      modifies this
      ensures loading
      ensures sent == old(sent) + [ListRequest(apiUrl, filters, enc)]
      ensures tickets == old(tickets) && filters == old(filters) && alerts == old(alerts)
    {
      loading := true;
      var params := BuildParams(filters);
      sent := sent + [ListTickets(ListUrl(apiUrl, params, enc), params)];
    }

    /** The end of a list fetch: the response replaces the list, a failure
        keeps the old one; loading ends either way. */
    method FetchFinished(outcome: FetchOutcome)
      modifies this
      ensures !loading
      ensures outcome.Received? ==> tickets == outcome.data
      ensures outcome.FetchFailed? ==> tickets == old(tickets)
      ensures filters == old(filters) && sent == old(sent) && alerts == old(alerts)
    {
      if outcome.Received? {
        tickets := outcome.data;
      }
      loading := false;
    }

    /** One filter input changed. */
    method HandleFilterChange(name: FilterName, value: string)
      modifies this
      ensures filters == With(old(filters), name, value)
      ensures Get(filters, name) == value
      ensures forall m :: m != name ==> Get(filters, m) == Get(old(filters), m)
      ensures tickets == old(tickets) && loading == old(loading)
      ensures sent == old(sent) && alerts == old(alerts)
    {
      filters := With(filters, name, value);
    }

    /** A status change: the update request is sent first; only once it has
        succeeded is the local list edited. On failure the list is left as it
        was, an alert is shown and the list is fetched again. */
    method HandleStatusUpdate(id: int, newStatus: string, outcome: PatchOutcome)
      modifies this
      ensures outcome.PatchSucceeded? ==>
                tickets == WithStatus(old(tickets), id, newStatus) &&
                sent == old(sent) + [PatchStatus(apiUrl, id, newStatus)] &&
                alerts == old(alerts) && loading == old(loading)
      ensures outcome.PatchFailed? ==>
                tickets == old(tickets) &&
                sent == old(sent) + [PatchStatus(apiUrl, id, newStatus), ListRequest(apiUrl, filters, enc)] &&
                alerts == old(alerts) + [UpdateFailedAlert] && loading
      ensures filters == old(filters)
    {
      sent := sent + [PatchStatus(apiUrl, id, newStatus)];
      if outcome.PatchSucceeded? {
        tickets := WithStatus(tickets, id, newStatus);
      } else {
        alerts := alerts + [UpdateFailedAlert];
        FetchTickets();
      }
    }
  }
}
