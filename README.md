# TicketIQ support tickets: filtered list, status edits and statistics

TicketIQ is a support-ticket tracker with two halves. The backend is a REST
view set over one `Ticket` table. The frontend is a ticket list component.
This project models the parts of both that carry logic:

- **Server query.** `get_queryset` lists tickets newest first and narrows the
  list by category, priority, status and a case-insensitive text search over
  the title and description.
- **Statistics.** `stats` returns the total, the number of open tickets, the
  average number of tickets per day since the first one, and a count per
  priority and per category. Every declared choice appears with at least 0.
- **Serializer and classification.** The view picks a serializer by action.
  The `classify` endpoint rejects a request whose description is missing or
  empty.
- **Client filters.** The ticket list keeps four filters. It builds the query
  string from the filters that are on, and changes one filter at a time.
- **Status edits.** The status update sends the PATCH request first. Only on
  success does it edit the local list; on failure it shows an alert and
  fetches the list again.
- **Ticket cards.** A card shortens long descriptions and turns the status
  into a label.

The modules are:

- `Tickets` (tickets.dfy): the ticket record, the declared choices, ASCII
  lower-casing and the substring test behind `__icontains`.
- `QueryString` (query_string.dfy): a query string as an ordered list of
  pairs. Two abstract function parameters stand for percent-encoding:
  `enc` encodes and `dec` decodes.
  - Parsing a serialized list gives back the encoded pairs, in order;
    decoding those gives back the original pairs.
  - The server's parameter map gives each name its last value.
- `TicketList` (ticket_list.dfy): the client component. The `TicketListState`
  class holds the component state: tickets, the loading flag and the filters.
  It also records the requests sent and the alerts shown. The requests'
  outcomes are passed in as parameters.
- `TicketViews` (ticket_views.dfy): the server view.
  - The table is a sequence of tickets.
  - A filter is a condition applied to that sequence.
  - `ORDER BY created_at DESC` is an insertion sort.
  - The breakdowns are maps built by a loop.
- `ClientServer` (client_server.dfy): the two halves together. For a
  delimiter-free encoder and a decoder that inverts it, the server reads
  back exactly the client's filter values. The list the server returns is
  then exactly the set of tickets the client's filters select.

## Model

| member | source | states |
|---|---|---|
| Tickets.Lower | backend/tickets/views.py:31-32 | lower-casing keeps the length and maps each character by the ASCII rule |
| Tickets.ContainsIff | backend/tickets/views.py:31-32 | the position-by-position substring test holds exactly when the needle occurs at some index of the text |
| Tickets.IContainsIff | backend/tickets/views.py:31-32 | the case-insensitive test `icontains` holds exactly when the lower-cased needle occurs at some index of the lower-cased text |
| Tickets.IContainsBounds | backend/tickets/views.py:31-32 | `icontains` with an empty needle holds for every text, and a needle that is found is no longer than the text |
| Tickets.LowerIdempotent | backend/tickets/views.py:31-32 | lower-casing twice is lower-casing once |
| Tickets.IContainsIgnoresCase | backend/tickets/views.py:31-32 | `icontains` gives the same answer when text and needle are lower-cased first, so the search ignores case on both sides |
| QueryString.SplitJoin | frontend/src/components/TicketList.jsx:25 | cutting at '&' undoes joining with '&' when no piece contains '&' |
| QueryString.FirstSplitOfPiece | frontend/src/components/TicketList.jsx:25 | a `name=value` piece whose name holds no '=' is cut back into that name and that value |
| QueryString.Serialize | frontend/src/components/TicketList.jsx:25 | `params.toString()` is empty exactly when there are no parameters, and one parameter serializes as its single `name=value` piece |
| QueryString.DropEmpty | backend/tickets/views.py:17-20 | the parser drops exactly the empty pieces between '&': no piece kept is empty, every non-empty piece is kept as often as it occurs, and no other piece appears |
| QueryString.SplitPieceCount | backend/tickets/views.py:17-20 | a query string yields no more non-empty pieces than it has characters |
| QueryString.Parse | backend/tickets/views.py:17-20 | an empty query string gives no parameters, a query without '&' gives the one pair cut at its first '=', and there are never more pairs than characters |
| QueryString.MapPairs | frontend/src/components/TicketList.jsx:19-25 | encoding (or decoding) is applied to both the name and the value of every pair, keeping their number and order |
| QueryString.ParseSerialize | frontend/src/components/TicketList.jsx:19-25 | for an encoder whose output holds no '&' or '=', parsing the serialized parameters gives the encoded pairs back, in order and with none dropped |
| QueryString.DecodeEncode | frontend/src/components/TicketList.jsx:25 | decoding the encoded pairs gives the original pairs when the decoder inverts the encoder |
| QueryString.ParamMap | backend/tickets/views.py:17-20 | the server's parameter map has exactly the names that occur in the query |
| QueryString.ParamMapLookup | backend/tickets/views.py:17-20 | when names are distinct, each name is looked up to its own value |
| TicketList.KeyInjective | frontend/src/components/TicketList.jsx:7-12 | the four filters have four distinct parameter names, each in the fixed order |
| TicketList.With | frontend/src/components/TicketList.jsx:40-43 | the named filter takes the new value and every other filter keeps its value |
| TicketList.NonEmptyPairs | frontend/src/components/TicketList.jsx:20-23 | a pair is kept exactly when it was given and its value is not empty |
| TicketList.NonEmptyPairsAppend | frontend/src/components/TicketList.jsx:20-23 | dropping empty values distributes over concatenation, so the filters can be appended one at a time |
| TicketList.QueryPairsOneByOne | frontend/src/components/TicketList.jsx:20-23 | the query is the four optional appends in the order category, priority, status, search |
| TicketList.BuildParams | frontend/src/components/TicketList.jsx:19-23 | the four conditional appends build exactly the pairs of the filters that are on, in the fixed order |
| TicketList.NonEmptyPairsKeepsOrder | frontend/src/components/TicketList.jsx:20-23 | dropping empty values keeps the order of the remaining names |
| TicketList.QueryOrdered | frontend/src/components/TicketList.jsx:19-23 | the query's names appear in the fixed order, so none is repeated |
| TicketList.QueryHasKeyIff | frontend/src/components/TicketList.jsx:19-23 | a filter's name is in the query exactly when the filter is on; it carries the filter's value; no value sent is empty |
| TicketList.QueryEmptyIff | frontend/src/components/TicketList.jsx:19-23 | the query is empty exactly when every filter is off |
| TicketList.QueryExamplePairs | frontend/src/components/TicketList.jsx:19-23 | category "billing" and status "open" give the pairs category=billing and then status=open |
| TicketList.QueryExampleString | frontend/src/components/TicketList.jsx:19-25 | those filters serialize as "category=billing&status=open" |
| TicketList.ApiUrl | frontend/src/components/TicketList.jsx:14 | the configured base when it is set and not empty, otherwise "http://localhost:8000" |
| TicketList.ListUrl | frontend/src/components/TicketList.jsx:25 | the list address starts with the base followed by "/api/tickets/?", and is exactly that prefix when no filter is on |
| TicketList.ListUrlQuery | frontend/src/components/TicketList.jsx:25 | for a delimiter-free encoder, the part of the list address after the base and "/api/tickets/?" parses back to the encoded parameters, in order |
| TicketList.ShownDescription | frontend/src/components/TicketList.jsx:114-116 | a description of at most 100 characters is shown whole; a longer one shows its first 100 characters followed by "..." |
| TicketList.ShownDescriptionProperties | frontend/src/components/TicketList.jsx:114-116 | the shown text is at most 103 characters long, starts with the description's first min(100, length) characters, and shortening twice changes nothing |
| TicketList.ReplaceFirst | frontend/src/components/TicketList.jsx:109 | replacing keeps the length, and text without the character is unchanged |
| TicketList.IndexOf | frontend/src/components/TicketList.jsx:109 | the index found holds the character and no earlier index does |
| TicketList.IndexOfUnique | frontend/src/components/TicketList.jsx:109 | the first occurrence is unique |
| TicketList.ReplaceFirstAt | frontend/src/components/TicketList.jsx:109 | only the first occurrence is replaced; everything before and after it is kept |
| TicketList.StatusLabel | frontend/src/components/TicketList.jsx:109 | the label is as long as the status; a status without '_' is unchanged; otherwise the label has a space at the first '_' and agrees with the status before and after it |
| TicketList.StatusLabelSplit | frontend/src/components/TicketList.jsx:109 | a first word without '_', then '_', then any rest is labelled as the first word, a space and the rest unchanged |
| TicketList.StatusLabelFirstUnderscore | frontend/src/components/TicketList.jsx:109 | a status without '_' is its own label; otherwise only its first '_' becomes a space |
| TicketList.StatusLabelInProgress | frontend/src/components/TicketList.jsx:109 | "in_progress" is labelled "in progress" |
| TicketList.StatusLabelOpen | frontend/src/components/TicketList.jsx:109 | "open" is labelled "open" |
| TicketList.StatusLabelTwoUnderscores | frontend/src/components/TicketList.jsx:109 | "a_b_c" is labelled "a b_c": a second '_' stays |
| TicketList.StatusLabelOfChoice | frontend/src/components/TicketList.jsx:109 | of the four declared statuses only "in_progress" changes, to "in progress"; "open", "resolved" and "closed" are shown as they are |
| TicketList.WithStatus | frontend/src/components/TicketList.jsx:50-52 | the list keeps its length; every ticket with the id takes the new status and keeps its other fields; the other tickets are unchanged |
| TicketList.WithStatusProperties | frontend/src/components/TicketList.jsx:50-52 | the ids are kept, editing twice is editing once, and an absent id changes nothing |
| TicketList.TicketListState.constructor | frontend/src/components/TicketList.jsx:4-14 | the base address is the configured one or the default, the encoder is the one given; no tickets, loading, every filter off, nothing sent yet |
| TicketList.TicketListState.FetchTickets | frontend/src/components/TicketList.jsx:16-25 | sets loading and sends a list request to the base address plus "/api/tickets/?" plus the query of the current filters, changing nothing else |
| TicketList.TicketListState.FetchFinished | frontend/src/components/TicketList.jsx:26-31 | a response replaces the list, a failure keeps it, and loading ends either way |
| TicketList.TicketListState.HandleFilterChange | frontend/src/components/TicketList.jsx:38-44 | one filter takes the new value; the others, the list and the requests are unchanged |
| TicketList.TicketListState.HandleStatusUpdate | frontend/src/components/TicketList.jsx:46-58 | the PATCH request for the id and status is sent first, to the configured base. On success only the tickets with the id change status. On failure the list is kept, the alert "Failed to update status" is shown, and the list request for the current filters is sent again |
| TicketViews.HoldsTextSearch | backend/tickets/views.py:29-33 | the search lookup holds exactly when the lower-cased term occurs in the lower-cased title or description; an empty term passes every ticket |
| TicketViews.Where | backend/tickets/views.py:22-33 | one `.filter` never adds rows |
| TicketViews.WhereMember | backend/tickets/views.py:22-33 | every row `.filter` keeps was in the queryset and satisfies the condition |
| TicketViews.KeepCounts | backend/tickets/views.py:22-33 | filtering by conditions keeps each ticket's multiplicity when all conditions hold and drops it otherwise |
| TicketViews.KeepAfterWhere | backend/tickets/views.py:22-33 | one filter followed by others is the filter by all of them |
| TicketViews.WhereIsKeep | backend/tickets/views.py:22-33 | one `.filter` is the filter by one condition |
| TicketViews.WhereCounts | backend/tickets/views.py:22-33 | one `.filter` keeps the multiplicity of tickets that satisfy its condition and drops the rest |
| TicketViews.WhereAllIsConjunction | backend/tickets/views.py:22-33 | chained `.filter` calls select the tickets that satisfy every condition |
| TicketViews.KeepSameConds | backend/tickets/views.py:22-33 | filtering depends only on the set of conditions |
| TicketViews.FilterOrderIrrelevant | backend/tickets/views.py:22-33 | chaining the same filters in any order gives the same queryset |
| TicketViews.WhereCommutes | backend/tickets/views.py:22-33 | two filters commute |
| TicketViews.TwoFilters | backend/tickets/views.py:22-33 | chaining two filters is filtering by both |
| TicketViews.WhereAllAppend | backend/tickets/views.py:22-33 | one more `.filter` narrows the chain by its condition |
| TicketViews.WhereKeepsOrder | backend/tickets/views.py:14-33 | filtering a newest-first list leaves it newest first |
| TicketViews.InsertNewest | backend/tickets/views.py:14 | inserting adds exactly that ticket |
| TicketViews.InsertNewestSorted | backend/tickets/views.py:14 | inserting into a newest-first list keeps it newest first |
| TicketViews.OrderByNewest | backend/tickets/views.py:14 | `order_by('-created_at')` is a permutation of the table that is newest first |
| TicketViews.QueryParam | backend/tickets/views.py:17-20 | `query_params.get` read as a condition: non-empty exactly when the parameter is given with a non-empty value, which it then is |
| TicketViews.Matches | backend/tickets/views.py:22-33 | with no filter parameter given, every ticket passes |
| TicketViews.RequestedCondsShape | backend/tickets/views.py:22-33 | at most four lookups, none exactly when no parameter is given, and every lookup carries a non-empty value or search term |
| TicketViews.MatchesIsAllHold | backend/tickets/views.py:17-33 | a ticket passes the requested filters exactly when it matches every parameter that is given and not empty |
| TicketViews.QuerysetCounts | backend/tickets/views.py:12-35 | each ticket occurs in the queryset as often as in the table when it matches the parameters, and not at all otherwise |
| TicketViews.QuerysetMembers | backend/tickets/views.py:12-35 | the queryset is a sub-multiset of the table, holds exactly the matching tickets, and is the whole table when no parameter is given |
| TicketViews.QuerysetSpec | backend/tickets/views.py:12-35 | the chained query has the multiplicity, membership and unfiltered properties above |
| TicketViews.FilterIf | backend/tickets/views.py:22-33 | a parameter that is given adds its condition to the chain and one that is not leaves the query as it was; the list stays newest first |
| TicketViews.GetQueryset | backend/tickets/views.py:12-35 | the table sorted newest first and narrowed by each given parameter in turn: newest first, exactly the matching tickets with their multiplicities, a sub-multiset of the table, and the whole table when no parameter is given; the order of tickets created at the same instant is not stated |
| TicketViews.Values | backend/tickets/views.py:68-75 | the column of one attribute, ticket by ticket |
| TicketViews.CountOfTail | backend/tickets/views.py:52 | a count is the count of the rest plus one when the first ticket has the value |
| TicketViews.CountOfBounded | backend/tickets/views.py:52 | a count is at most the number of tickets |
| TicketViews.CountOfPositive | backend/tickets/views.py:68-75 | a count is positive exactly when some ticket has the value |
| TicketViews.FilteredCount | backend/tickets/views.py:52 | `filter(status='open').count()` is the number of tickets whose status is "open" |
| TicketViews.FirstCreated | backend/tickets/views.py:55-56 | nothing for an empty table; otherwise a creation time that no ticket precedes and some ticket has |
| TicketViews.ElapsedDays | backend/tickets/views.py:60 | `.days` of the elapsed time is the whole number of days, rounded down, even when the time is negative |
| TicketViews.DayDivisor | backend/tickets/views.py:60-62 | the divisor is the whole number of days when that is at least 1, and 1 otherwise |
| TicketViews.Distinct | backend/tickets/views.py:68-75 | exactly the values given |
| TicketViews.DistinctNoRepeats | backend/tickets/views.py:68-75 | no value is listed twice, so the grouping has one row per value |
| TicketViews.GroupCounts | backend/tickets/views.py:68-75 | `values().annotate(Count)` gives one row per distinct value, holding the number of tickets with that value |
| TicketViews.Overlay | backend/tickets/views.py:69-70 | after writing the rows over the map, the keys are the old ones and the rows' values, a key without a row keeps its entry, and the last row's value holds its count |
| TicketViews.OverlayStep | backend/tickets/views.py:69-70 | one more iteration of the loop writes one more row over the map |
| TicketViews.Breakdown | backend/tickets/views.py:67-75 | the keys are the declared choices and the values that occur. Each key maps to its ticket count. A declared choice that no ticket uses maps to 0 |
| TicketViews.OverlayCounts | backend/tickets/views.py:69-70 | writing counted rows over a map gives the old keys plus the rows' values; a value with a row holds its count and any other key keeps its old entry |
| TicketViews.BreakdownCounts | backend/tickets/views.py:67-75 | the zeros of the choices with the grouped counts written over them have keys exactly the choices and the values present, each mapping to its count, and 0 for an unused choice |
| TicketViews.MapSumRemove | backend/tickets/views.py:67-75 | a breakdown's sum is one entry plus the sum of the rest |
| TicketViews.MapSumZero | backend/tickets/views.py:67 | a breakdown of zeros sums to 0 |
| TicketViews.SumOfCounts | backend/tickets/views.py:67-75 | counts covering every ticket's value add up to the number of tickets |
| TicketViews.MapSumStep | backend/tickets/views.py:67-75 | taking one off an entry takes one off the sum |
| TicketViews.AverageTicketsPerDay | backend/tickets/views.py:58-63 | 0 for an empty table. Otherwise the total divided by the number of days, counting at least 1 day. Never negative and never above the total |
| TicketViews.BreakdownSum | backend/tickets/views.py:67-75 | each breakdown adds up to the number of tickets |
| TicketViews.ComputeStats | backend/tickets/views.py:45-83 | the total, the open count (at most the total), the average above, and the two breakdowns with their keys and counts, each adding up to the total |
| TicketViews.SerializerFor | backend/tickets/views.py:37-42 | the create serializer exactly for "create", the update serializer exactly for "update" and "partial_update", and the plain serializer for every other action |
| TicketViews.Truthy | backend/tickets/views.py:88 | Python truthiness: `None` is false, and a string, list or dict is true exactly when it is not empty |
| TicketViews.ClassifyGuard | backend/tickets/views.py:86-89 | a body that is not a JSON object makes `.get` raise, ending in a 500 error; an object is rejected with 400 and "Description is required" exactly when the description is missing or false; otherwise the description goes on unchanged |
| TicketViews.ClassifyGuardOnText | backend/tickets/views.py:87-89 | a text description is rejected exactly when it is empty |
| ClientServer.ServerParamsArePairs | frontend/src/components/TicketList.jsx:19-25 | the server's parameters are the map of the pairs the client built |
| ClientServer.ServerSeesFilter | backend/tickets/views.py:17-20 | the server reads back every filter's value, and a filter that is off arrives as a missing parameter |
| ClientServer.ServerMatchesClient | backend/tickets/views.py:22-33 | the server's test for a ticket is the client's own filter meaning |
| ClientServer.NoFiltersUnfiltered | frontend/src/components/TicketList.jsx:7-12 | the initial filters ask the server for the whole table |
| ClientServer.ListRound | frontend/src/components/TicketList.jsx:19-26 | the list the client receives is newest first and holds exactly the tickets its filters select, with their multiplicities |

## Left out

- HTTP, axios, JSON transport and React rendering are left out. Request outcomes are parameters of the methods, and the requests sent are recorded in a sequence.
- `useEffect` scheduling is left out. When a filter change triggers a refetch is not modelled, nor are races between overlapping requests.
- `console.error` logging is left out.
- Percent-encoding in `URLSearchParams` and Django's decoding are abstract functions. The model assumes only that encoded text holds no '&' or '=' and that decoding inverts encoding.
- The PATCH request is recorded as its base address, id and new status; the decimal rendering of the id in the path is not modelled.
- Dates are whole-second integer timestamps. `timezone.now()` is a parameter. Date display with `toLocaleDateString` is left out.
- TicketViews.AverageTicketsPerDay: the average is the exact real quotient; `round(..., 2)` and floating point are not modelled.
- TicketViews.OrderByNewest: the order of tickets created at the same instant is the order of an insertion sort. The database leaves that order unspecified, and `GetQueryset` states nothing beyond newest-first order, membership and multiplicities.
- TicketViews.Breakdown: Python dictionary key order is not modelled; a breakdown is a map.
- `Tickets.IContains`: case folding is ASCII only. SQL collation and Unicode case mapping are not modelled.
- TicketList.ShownDescription: lengths count characters, not UTF-16 code units.
- The ORM is stood in for by sequences. Model definitions, serializers and field validation are not part of this model. The declared category and priority choices are taken from the option lists of the filter selects, which show the same values.
- The classification service call after the guard, and its two responses, are left out; their behaviour is foreign code.
- TicketViews.Truthy: JSON numbers are integers; floating-point truthiness is not modelled.
- The remaining view-set actions (retrieve, create, update, destroy) come from the framework and are left out.
