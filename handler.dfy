/** The request handler: the cache-validation short-circuit, the method switch,
    and the GET path that filters the shared dataset and samples from it. */
module Handler {
  import opened Quotes
  import opened Limit
  import opened Sampling

  const MethodGet := "GET"
  const StatusOK := 200
  const StatusNotModified := 304
  const StatusMethodNotAllowed := 405
  const MethodNotAllowedError := "method_not_allowed"

  /** What the response writer receives after the headers. */
  datatype Body = NoBody | ErrorBody(error: string) | QuotesBody(count: int, result: seq<Quote>)

  datatype Response = Response(status: int, body: Body)

  /** The parsed query string: each key with its values in order of appearance. */
  type Query = map<string, seq<string>>

  /** The first value given for `key`, or `""` when there is none. */
  function Get(q: Query, key: string): (v: string)
    ensures key !in q || q[key] == [] ==> v == ""
    ensures key in q && q[key] != [] ==> v == q[key][0]
  {
    if key in q && q[key] != [] then q[key][0] else ""
  }

  /** The filter of a GET request: `id` as given, `lang` and `category` lower-cased. */
  function RequestFilter(q: Query): (f: Filter)
    ensures f.id == Get(q, "id")
    ensures f.lang == ToLower(Get(q, "lang")) && f.category == ToLower(Get(q, "category"))
  {
    FilterOf(Get(q, "id"), Get(q, "lang"), Get(q, "category"))
  }

  /** The effective number of quotes a GET request asks for: 1 to 100, and other
      than 1 only when the first `limit` value parses to it. */
  function RequestLimit(q: Query): (limit: int)
    ensures DefaultLimit <= limit <= MaxLimit
    ensures limit != DefaultLimit ==> Atoi(Get(q, "limit")) == Some(limit)
    ensures Atoi(Get(q, "limit")).Some? && 0 < Atoi(Get(q, "limit")).value <= MaxLimit ==>
              limit == Atoi(Get(q, "limit")).value
    ensures "limit" !in q ==> limit == DefaultLimit
  {
    ResolveLimit(Get(q, "limit"))
  }

  /** The three ways a request is answered. */
  datatype Action = NotModified | ServeGet | RejectMethod

  /** The cache-validation check comes first, for every method; then only GET is served. */
  function Dispatch(verb: string, ifNoneMatch: string, etag: string): (a: Action)
    ensures a == NotModified <==> ifNoneMatch != "" && ifNoneMatch == etag
    ensures a == ServeGet <==> (ifNoneMatch == "" || ifNoneMatch != etag) && verb == MethodGet
    ensures a == RejectMethod <==> (ifNoneMatch == "" || ifNoneMatch != etag) && verb != MethodGet
  {
    if ifNoneMatch != "" && ifNoneMatch == etag then NotModified
    else if verb == MethodGet then ServeGet
    else RejectMethod
  }

  /** A request carrying the current validator is answered 304 whatever its method,
      while an empty validator never is, even when the validator is empty too. */
  lemma ConditionalGet(verb: string, etag: string)
    ensures etag != "" ==> Dispatch(verb, etag, etag) == NotModified
    ensures Dispatch(verb, "", etag) != NotModified
    ensures Dispatch(verb, "", "") == (if verb == MethodGet then ServeGet else RejectMethod)
  {
  }

  /** The dataset after the filter loop has appended the `Matching` quotes through
      a slice that shares its backing array: the matches overwrite the front and
      the rest is left as it was. */
  function Overwritten(s: seq<Quote>, f: Filter): (r: seq<Quote>)
    ensures |r| == |s|
    ensures r[..|Matching(s, f)|] == Matching(s, f)
    ensures forall i :: |Matching(s, f)| <= i < |s| ==> r[i] == s[i]
  {
    Matching(s, f) + s[|Matching(s, f)|..]
  }

  /** The dataset is left as it was exactly when filtering it changes nothing
      at the front; in particular a filter matching nothing leaves it untouched. */
  lemma OverwrittenNoMatch(s: seq<Quote>, f: Filter)
    ensures Matching(s, f) == [] ==> Overwritten(s, f) == s
    ensures Candidates(s, f) == Overwritten(s, f)[..if Matching(s, f) == [] then |s| else |Matching(s, f)|]
  {
  }

  /** Writing the next kept quote just past the kept prefix of a dataset whose
      remainder is untouched. */
  lemma WriteFront(s: seq<Quote>, kept: seq<Quote>, it: Quote)
    requires |kept| < |s|
    ensures (kept + s[|kept|..])[|kept| := it] == (kept + [it]) + s[|kept| + 1..]
  {
  }

  /** A successful GET response that took its quotes from `cands` for effective
      limit `limit`, the quote at position `k` being `cands[picks[k]]`. */
  ghost predicate ServedFrom(resp: Response, cands: seq<Quote>, limit: int, picks: seq<int>)
  {
    resp.status == StatusOK && resp.body.QuotesBody? &&
    resp.body.count == |resp.body.result| &&
    |resp.body.result| == (if limit >= |cands| then |cands| else limit) &&
    DrawnFrom(resp.body.result, cands, picks) &&
    (limit >= |cands| ==> multiset(resp.body.result) == multiset(cands))
  }

  /** A response served from the candidates of a dataset without repeated
      identifiers repeats none: neither filtering, nor the fallback, nor a draw
      without replacement can bring an identifier in twice. */
  lemma ServedFromUniqueIds(resp: Response, s: seq<Quote>, f: Filter, limit: int, picks: seq<int>)
    requires ServedFrom(resp, Candidates(s, f), limit, picks) && UniqueIds(s)
    ensures UniqueIds(resp.body.result)
  {
    MatchingUniqueIds(s, f);
    DistinctPicksUniqueIds(Candidates(s, f), picks, resp.body.result);
  }

  /** The 200 response for candidates `src[..len]`: a sample of `limit` of them
      and its size. */
  method SampleResponse(src: array<Quote>, len: nat, limit: int, draws: seq<int>)
    returns (resp: Response, ghost picks: seq<int>)
    requires len <= src.Length && limit >= DefaultLimit
    requires DrawsSuffice(draws, len, limit)
    ensures ServedFrom(resp, src[..len], limit, picks)
    ensures limit < len ==> picks <= Dedup(draws)
  {
    var out;
    out, picks := Sample(src, len, limit, draws);
    resp := Response(StatusOK, QuotesBody(|out|, out));
  }

  /** The package state: the dataset decoded at start-up and its validator. */
  class Store {
    const allQuotes: array<Quote>
    const etag: string

    /** Start-up: `loaded` is the decoded dataset and `etag` its validator. */
    constructor (loaded: seq<Quote>, etag: string)
      ensures allQuotes[..] == loaded && this.etag == etag
      ensures fresh(allQuotes)
    {
      allQuotes := new Quote[|loaded|](i requires 0 <= i < |loaded| => loaded[i]);
      this.etag := etag;
    }

    /** The filter loop as written: `filtered` starts as the empty prefix of the
        shared dataset, so each kept quote is written into the dataset's own array
        at the next free front position. Returns the number of quotes kept. */
    method FilterInPlace(f: Filter) returns (k: nat)
      modifies allQuotes
      ensures k == |Matching(old(allQuotes[..]), f)|
      ensures allQuotes[..] == Overwritten(old(allQuotes[..]), f)
    {
      ghost var orig := allQuotes[..];
      ghost var kept: seq<Quote> := [];
      k := 0;
      var i := 0;
      while i < allQuotes.Length
        invariant 0 <= k <= i <= allQuotes.Length == |orig|
        invariant kept == Matching(orig[..i], f) && k == |kept|
        invariant allQuotes[..] == kept + orig[k..]
      {
        var it := allQuotes[i];
        assert it == (kept + orig[k..])[i] == orig[i];
        MatchingStep(orig, i, f);
        i := i + 1;
        if f.id != "" && it.id != f.id {
          assert !Keeps(f, it);
          continue;
        }
        if f.lang != "" && ToLower(it.lang) != f.lang {
          assert !Keeps(f, it);
          continue;
        }
        if f.category != "" && ToLower(it.category) != f.category {
          assert !Keeps(f, it);
          continue;
        }
        assert Keeps(f, it);
        WriteFront(orig, kept, it);
        allQuotes[k] := it;
        k := k + 1;
        kept := kept + [it];
      }
      assert orig[..i] == orig;
    }

    /** A filter loop that appends into a slice of its own instead, leaving the
        dataset untouched. Returns the buffer and the number of quotes kept. */
    method FilterCopy(f: Filter) returns (buf: array<Quote>, k: nat)
      ensures fresh(buf) && k <= buf.Length
      ensures buf[..k] == Matching(allQuotes[..], f)
    {
      buf := new Quote[allQuotes.Length];
      k := 0;
      var i := 0;
      while i < allQuotes.Length
        invariant 0 <= k <= i <= allQuotes.Length == buf.Length
        invariant buf[..k] == Matching(allQuotes[..i], f)
      {
        var it := allQuotes[i];
        MatchingStep(allQuotes[..], i, f);
        assert allQuotes[..][..i + 1] == allQuotes[..i + 1] && allQuotes[..][..i] == allQuotes[..i];
        i := i + 1;
        if f.id != "" && it.id != f.id {
          continue;
        }
        if f.lang != "" && ToLower(it.lang) != f.lang {
          continue;
        }
        if f.category != "" && ToLower(it.category) != f.category {
          continue;
        }
        buf[k] := it;
        k := k + 1;
      }
      assert allQuotes[..i] == allQuotes[..];
    }

    /** The GET path as written. The quotes come from the candidates of the
        dataset as it was, and the dataset is left overwritten by the matches. */
    method HandleGET(q: Query, draws: seq<int>) returns (resp: Response, ghost picks: seq<int>)
      requires DrawsSuffice(draws, |Candidates(allQuotes[..], RequestFilter(q))|, RequestLimit(q))
      modifies allQuotes
      ensures allQuotes[..] == Overwritten(old(allQuotes[..]), RequestFilter(q))
      ensures ServedFrom(resp, Candidates(old(allQuotes[..]), RequestFilter(q)), RequestLimit(q), picks)
      ensures RequestLimit(q) < |Candidates(old(allQuotes[..]), RequestFilter(q))| ==> picks <= Dedup(draws)
      ensures UniqueIds(old(allQuotes[..])) ==> UniqueIds(resp.body.result)
    {
      var f := RequestFilter(q);
      var limit := RequestLimit(q);
      ghost var cands := Candidates(allQuotes[..], f);
      OverwrittenNoMatch(allQuotes[..], f);
      var filtered := FilterInPlace(f);
      var len := filtered;
      if filtered == 0 {
        len := allQuotes.Length;
      }
      assert allQuotes[..len] == cands;
      resp, picks := SampleResponse(allQuotes, len, limit, draws);
      if UniqueIds(old(allQuotes[..])) {
        ServedFromUniqueIds(resp, old(allQuotes[..]), f, limit, picks);
      }
    }

    /** The GET path with the filter writing into its own buffer: the dataset is
        not modified, and a dataset without repeated identifiers yields a result
        without repeated identifiers. */
    method HandleGETCorrected(q: Query, draws: seq<int>) returns (resp: Response, ghost picks: seq<int>)
      requires DrawsSuffice(draws, |Candidates(allQuotes[..], RequestFilter(q))|, RequestLimit(q))
      ensures ServedFrom(resp, Candidates(allQuotes[..], RequestFilter(q)), RequestLimit(q), picks)
      ensures RequestLimit(q) < |Candidates(allQuotes[..], RequestFilter(q))| ==> picks <= Dedup(draws)
      ensures UniqueIds(allQuotes[..]) ==> UniqueIds(resp.body.result)
    {
      var f := RequestFilter(q);
      var limit := RequestLimit(q);
      ghost var cands := Candidates(allQuotes[..], f);
      var buf, filtered := FilterCopy(f);
      if filtered == 0 {
        assert allQuotes[..allQuotes.Length] == cands;
        resp, picks := SampleResponse(allQuotes, allQuotes.Length, limit, draws);
      } else {
        assert buf[..filtered] == cands;
        resp, picks := SampleResponse(buf, filtered, limit, draws);
      }
      if UniqueIds(allQuotes[..]) {
        ServedFromUniqueIds(resp, allQuotes[..], f, limit, picks);
      }
    }

    /** The handler as written: 304 with no body when the validator matches,
        whatever the method; otherwise the in-place GET path, or 405 with an error
        body. Only a served GET writes the dataset. */
    method HandleAsWritten(verb: string, ifNoneMatch: string, q: Query, draws: seq<int>)
      returns (resp: Response, ghost picks: seq<int>)
      requires Dispatch(verb, ifNoneMatch, etag) == ServeGet ==>
                 DrawsSuffice(draws, |Candidates(allQuotes[..], RequestFilter(q))|, RequestLimit(q))
      modifies allQuotes
      ensures Dispatch(verb, ifNoneMatch, etag) == NotModified ==>
                resp == Response(StatusNotModified, NoBody) && allQuotes[..] == old(allQuotes[..])
      ensures Dispatch(verb, ifNoneMatch, etag) == RejectMethod ==>
                resp == Response(StatusMethodNotAllowed, ErrorBody(MethodNotAllowedError)) &&
                allQuotes[..] == old(allQuotes[..])
      ensures Dispatch(verb, ifNoneMatch, etag) == ServeGet ==>
                allQuotes[..] == Overwritten(old(allQuotes[..]), RequestFilter(q)) &&
                ServedFrom(resp, Candidates(old(allQuotes[..]), RequestFilter(q)), RequestLimit(q), picks) &&
                (RequestLimit(q) < |Candidates(old(allQuotes[..]), RequestFilter(q))| ==> picks <= Dedup(draws)) &&
                (UniqueIds(old(allQuotes[..])) ==> UniqueIds(resp.body.result))
    {
      picks := [];
      if ifNoneMatch != "" && ifNoneMatch == etag {
        resp := Response(StatusNotModified, NoBody);
        return;
      }
      if verb == MethodGet {
        resp, picks := HandleGET(q, draws);
      } else {
        resp := Response(StatusMethodNotAllowed, ErrorBody(MethodNotAllowedError));
      }
    }

    /** The handler: 304 with no body when the validator matches, whatever the
        method; otherwise the GET path, or 405 with an error body. The GET path is
        the one filtering into its own buffer, so no request changes the dataset. */
    method Handle(verb: string, ifNoneMatch: string, q: Query, draws: seq<int>)
      returns (resp: Response, ghost picks: seq<int>)
      requires Dispatch(verb, ifNoneMatch, etag) == ServeGet ==>
                 DrawsSuffice(draws, |Candidates(allQuotes[..], RequestFilter(q))|, RequestLimit(q))
      ensures Dispatch(verb, ifNoneMatch, etag) == NotModified ==>
                resp == Response(StatusNotModified, NoBody)
      ensures Dispatch(verb, ifNoneMatch, etag) == RejectMethod ==>
                resp == Response(StatusMethodNotAllowed, ErrorBody(MethodNotAllowedError))
      ensures Dispatch(verb, ifNoneMatch, etag) == ServeGet ==>
                ServedFrom(resp, Candidates(allQuotes[..], RequestFilter(q)), RequestLimit(q), picks) &&
                (RequestLimit(q) < |Candidates(allQuotes[..], RequestFilter(q))| ==> picks <= Dedup(draws)) &&
                (UniqueIds(allQuotes[..]) ==> UniqueIds(resp.body.result))
    {
      picks := [];
      if ifNoneMatch != "" && ifNoneMatch == etag {
        resp := Response(StatusNotModified, NoBody);
        return;
      }
      if verb == MethodGet {
        resp, picks := HandleGETCorrected(q, draws);
      } else {
        resp := Response(StatusMethodNotAllowed, ErrorBody(MethodNotAllowedError));
      }
    }
  }
}
