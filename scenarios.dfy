/** Requests in sequence against one store: the short-circuits of the handler,
    and the duplicate that the in-place filter lets into a later response. */
module Scenarios {
  import opened Quotes
  import opened Limit
  import opened Sampling
  import opened Handler

  const Etag := "W/\"0123\""

  /** A request for the quote with identifier `id`, and one for three quotes of any kind. */
  function ById(id: string): Query { map["id" := [id]] }
  const AllThree: Query := map["limit" := ["3"]]

  lemma ByIdRequest(id: string)
    ensures RequestFilter(ById(id)) == Filter(id, "", "") && RequestLimit(ById(id)) == DefaultLimit
  {
    assert Get(ById(id), "id") == id && Get(ById(id), "lang") == "" && Get(ById(id), "category") == "";
    assert Get(ById(id), "limit") == "";
  }

  lemma AllThreeRequest()
    ensures RequestFilter(AllThree) == Filter("", "", "") && RequestLimit(AllThree) == 3
  {
    assert Get(AllThree, "id") == "" && Get(AllThree, "lang") == "" && Get(AllThree, "category") == "";
    assert Get(AllThree, "limit") == "3" == Decimal(3);
    ResolveLimitInRange(3);
  }

  /** Three quotes with distinct identifiers. */
  predicate Distinct3(a: Quote, b: Quote, c: Quote)
  {
    a.id != b.id && a.id != c.id && b.id != c.id
  }

  lemma MatchingById(a: Quote, b: Quote, c: Quote)
    requires Distinct3(a, b, c) && c.id != ""
    ensures Matching([a, b, c], Filter(c.id, "", "")) == [c]
  {
    var f := Filter(c.id, "", "");
    assert !Keeps(f, a) && !Keeps(f, b) && Keeps(f, c);
    assert [a, b, c][..2] == [a, b] && [a, b][..1] == [a] && [a][..0] == [];
    assert Matching([a], f) == [];
    assert Matching([a, b], f) == [];
  }

  /** Filtering `[a, b, c]` down to `c` in place leaves `[c, b, c]` behind: the
      dataset had no repeated identifier and now has one. */
  lemma OverwrittenById(a: Quote, b: Quote, c: Quote)
    requires Distinct3(a, b, c) && c.id != ""
    ensures UniqueIds([a, b, c])
    ensures Overwritten([a, b, c], Filter(c.id, "", "")) == [c, b, c]
    ensures !UniqueIds(Overwritten([a, b, c], Filter(c.id, "", "")))
  {
    MatchingById(a, b, c);
    var r := Overwritten([a, b, c], Filter(c.id, "", ""));
    assert r[0].id == r[2].id;
  }

  /** A request carrying the current validator gets 304 and no body, whatever
      its method and query. */
  method ConditionalScenario(loaded: seq<Quote>, verb: string, q: Query) returns (resp: Response)
    ensures resp == Response(StatusNotModified, NoBody)
  {
    var store := new Store(loaded, Etag);
    ghost var picks;
    resp, picks := store.Handle(verb, Etag, q, []);
  }

  /** A POST without a matching validator is refused with the error body. */
  method MethodScenario(loaded: seq<Quote>, q: Query) returns (resp: Response)
    ensures resp == Response(StatusMethodNotAllowed, ErrorBody("method_not_allowed"))
  {
    var store := new Store(loaded, Etag);
    ghost var picks;
    resp, picks := store.Handle("POST", "", q, []);
  }

  /** `?id=c` on a store holding `[a, b, c]`: the response is `[c]`, and the
      dataset is left as `[c, b, c]`. */
  method RequestById(store: Store, a: Quote, b: Quote, c: Quote) returns (resp: Response)
    requires Distinct3(a, b, c) && c.id != ""
    requires store.allQuotes[..] == [a, b, c]
    modifies store.allQuotes
    ensures store.allQuotes[..] == [c, b, c]
    ensures resp.status == StatusOK && resp.body.QuotesBody? && resp.body.result == [c]
  {
    ByIdRequest(c.id);
    MatchingById(a, b, c);
    OverwrittenById(a, b, c);
    ghost var cands := Candidates(store.allQuotes[..], Filter(c.id, "", ""));
    assert cands == [c];
    ghost var picks;
    resp, picks := store.HandleGET(ById(c.id), []);
    assert ServedFrom(resp, cands, DefaultLimit, picks);
    assert resp.body.result[0] == cands[picks[0]];
  }

  /** `?limit=3` on a store holding three quotes: all three, shuffled. */
  method RequestAllThree(store: Store) returns (resp: Response, ghost picks: seq<int>)
    requires store.allQuotes.Length == 3
    modifies store.allQuotes
    ensures store.allQuotes[..] == old(store.allQuotes[..])
    ensures resp.status == StatusOK && resp.body.QuotesBody? && resp.body.count == 3
    ensures multiset(resp.body.result) == multiset(store.allQuotes[..])
    ensures |picks| == 3 && DrawnFrom(resp.body.result, store.allQuotes[..], picks)
  {
    AllThreeRequest();
    MatchingEmptyFilter(store.allQuotes[..]);
    ghost var cands := store.allQuotes[..];
    assert Candidates(cands, Filter("", "", "")) == cands;
    resp, picks := store.HandleGET(AllThree, []);
    assert ServedFrom(resp, cands, 3, picks);
  }

  /** `?id=c` and then `?limit=3` on one store holding `[a, b, c]`: the second
      response shuffles the whole dataset, which the first request left as
      `[c, b, c]`, so quote `c` is served twice although every index is drawn once. */
  method AliasingScenario(a: Quote, b: Quote, c: Quote)
    returns (first: Response, second: Response, ghost picks: seq<int>)
    requires Distinct3(a, b, c) && c.id != ""
    ensures first.status == StatusOK && first.body.QuotesBody? && first.body.result == [c]
    ensures second.status == StatusOK && second.body.QuotesBody? && second.body.count == 3
    ensures multiset(second.body.result)[c] == 2
    ensures |picks| == 3 && DrawnFrom(second.body.result, [c, b, c], picks)
  {
    var store := new Store([a, b, c], Etag);
    first := RequestById(store, a, b, c);
    second, picks := RequestAllThree(store);
    assert multiset([c, b, c])[c] == 2;
  }

  /** The same two requests with the filter writing into its own buffer: the
      second response is the whole dataset again, without a repeated identifier. */
  method CorrectedScenario(a: Quote, b: Quote, c: Quote) returns (first: Response, second: Response)
    requires Distinct3(a, b, c) && c.id != ""
    ensures first.status == StatusOK && first.body.QuotesBody? && first.body.result == [c]
    ensures second.status == StatusOK && second.body.QuotesBody? && second.body.count == 3
    ensures multiset(second.body.result) == multiset([a, b, c])
    ensures UniqueIds(second.body.result)
  {
    var store := new Store([a, b, c], Etag);
    ByIdRequest(c.id);
    AllThreeRequest();
    MatchingById(a, b, c);
    OverwrittenById(a, b, c);
    ghost var cands := Candidates(store.allQuotes[..], RequestFilter(ById(c.id)));
    assert cands == [c];
    ghost var picks;
    first, picks := store.HandleGETCorrected(ById(c.id), []);
    assert ServedFrom(first, cands, DefaultLimit, picks);
    assert first.body.result[0] == cands[picks[0]];

    assert store.allQuotes[..] == [a, b, c];
    MatchingEmptyFilter([a, b, c]);
    cands := Candidates(store.allQuotes[..], RequestFilter(AllThree));
    assert cands == [a, b, c];
    second, picks := store.HandleGETCorrected(AllThree, []);
    assert ServedFrom(second, cands, 3, picks);
  }
}
