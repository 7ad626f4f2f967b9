/** The two halves together: the query string the ticket list sends for its
    filters, parsed back by the server, gives the view exactly the filter
    values the client holds, so the list shown is the filtered table. */
module ClientServer {
  import opened Tickets
  import opened QueryString
  import TL = TicketList
  import TV = TicketViews

  /** The parameter map the server builds from the query string of `f`. */
  function ServerParams(f: TL.Filters, enc: string -> string, dec: string -> string): map<string, string>
  {
    ParamMap(MapPairs(Parse(Serialize(TL.QueryPairs(f), enc)), dec))
  }

  /** What the client means by its filters: every filter that is on holds. */
  predicate Selected(t: Ticket, f: TL.Filters)
  {
    (f.category != "" ==> t.category == f.category) &&
    (f.priority != "" ==> t.priority == f.priority) &&
    (f.status != "" ==> t.status == f.status) &&
    (f.search != "" ==> IContains(t.title, f.search) || IContains(t.description, f.search))
  }

  lemma ServerParamsArePairs(f: TL.Filters, enc: string -> string, dec: string -> string)
    requires DelimiterFree(enc)
    requires forall s :: dec(enc(s)) == s
    ensures ServerParams(f, enc, dec) == ParamMap(TL.QueryPairs(f))
  {
    var ps := TL.QueryPairs(f);
    ParseSerialize(ps, enc);
    DecodeEncode(ps, enc, dec);
  }

  /** Every filter reaches the server with its value; a filter that is off
      reaches it as a missing parameter. */
  lemma {:induction false} ServerSeesFilter(f: TL.Filters, enc: string -> string, dec: string -> string, n: TL.FilterName)
    requires DelimiterFree(enc)
    requires forall s :: dec(enc(s)) == s
    ensures TV.QueryParam(ServerParams(f, enc, dec), TL.Key(n)) == TL.Get(f, n)
    ensures TL.Get(f, n) == "" <==> TL.Key(n) !in ServerParams(f, enc, dec)
  {
    ServerParamsArePairs(f, enc, dec);
    var ps := TL.QueryPairs(f);
    TL.QueryOrdered(f);
    TL.QueryHasKeyIff(f, n);
    if TL.Get(f, n) != "" {
      var i :| 0 <= i < |ps| && ps[i].0 == TL.Key(n);
      ParamMapLookup(ps, i);
    }
  }

  /** The server's test for a ticket is the client's filter meaning. */
  lemma ServerMatchesClient(f: TL.Filters, enc: string -> string, dec: string -> string, t: Ticket)
    requires DelimiterFree(enc)
    requires forall s :: dec(enc(s)) == s
    ensures TV.Matches(t, ServerParams(f, enc, dec)) <==> Selected(t, f)
  {
    ServerSeesFilter(f, enc, dec, TL.CategoryFilter);
    ServerSeesFilter(f, enc, dec, TL.PriorityFilter);
    ServerSeesFilter(f, enc, dec, TL.StatusFilter);
    ServerSeesFilter(f, enc, dec, TL.SearchFilter);
  }

  /** With no filter on, the server is asked for the whole table. */
  lemma NoFiltersUnfiltered(enc: string -> string, dec: string -> string)
    requires DelimiterFree(enc)
    requires forall s :: dec(enc(s)) == s
    ensures TV.Unfiltered(ServerParams(TL.NoFilters, enc, dec))
  {
    ServerSeesFilter(TL.NoFilters, enc, dec, TL.CategoryFilter);
    ServerSeesFilter(TL.NoFilters, enc, dec, TL.PriorityFilter);
    ServerSeesFilter(TL.NoFilters, enc, dec, TL.StatusFilter);
    ServerSeesFilter(TL.NoFilters, enc, dec, TL.SearchFilter);
  }

  /** One round: the client builds its parameters, the server answers with
      its queryset, newest first, holding exactly the selected tickets. */
  method ListRound(f: TL.Filters, enc: string -> string, dec: string -> string, db: seq<Ticket>)
    returns (shown: seq<Ticket>)
    requires DelimiterFree(enc)
    requires forall s :: dec(enc(s)) == s
    ensures TV.NewestFirst(shown)
    ensures forall t :: t in shown <==> t in db && Selected(t, f)
    ensures forall t :: multiset(shown)[t] == if Selected(t, f) then multiset(db)[t] else 0
  {
    var params := TL.BuildParams(f);
    var query := Serialize(params, enc);
    var received := ParamMap(MapPairs(Parse(query), dec));
    shown := TV.GetQueryset(db, received);
    forall t ensures TV.Matches(t, received) <==> Selected(t, f) {
      ServerMatchesClient(f, enc, dec, t);
    }
  }
}
