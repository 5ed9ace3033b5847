/** The quote record of the dataset and the filter a request applies to it. */
module Quotes {

  /** One entry of the embedded dataset. */
  datatype Quote = Quote(id: string, author: string, text: string, lang: string, category: string)

  /** ASCII lower-casing of one character. */
  function LowerChar(c: char): (r: char)
    ensures 'A' <= c <= 'Z' ==> r as int == c as int + 32
    ensures !('A' <= c <= 'Z') ==> r == c
    ensures !('A' <= r <= 'Z')
  {
    if 'A' <= c <= 'Z' then (c as int + 32) as char else c
  }

  /** Lower-casing of a string, character by character (ASCII case mapping only). */
  function ToLower(s: string): (r: string)
    ensures |r| == |s|
    ensures forall i :: 0 <= i < |s| ==> r[i] == LowerChar(s[i])
  {
    if s == [] then [] else [LowerChar(s[0])] + ToLower(s[1..])
  }

  /** Lower-casing twice is lower-casing once, so a lower-cased query value is its own key. */
  lemma ToLowerIdempotent(s: string)
    ensures ToLower(ToLower(s)) == ToLower(s)
  {
    assert forall i :: 0 <= i < |s| ==> LowerChar(LowerChar(s[i])) == LowerChar(s[i]);
  }

  /** The filter a request asks for; an empty field constrains nothing.
      `lang` and `category` hold the lower-cased query values. */
  datatype Filter = Filter(id: string, lang: string, category: string)

  /** The filter built from the raw `id`, `lang` and `category` query values. */
  function FilterOf(id: string, lang: string, category: string): (f: Filter)
    ensures f.id == id
    ensures f.lang == ToLower(lang) && f.category == ToLower(category)
    ensures |f.lang| == |lang| && |f.category| == |category|
    ensures ToLower(f.lang) == f.lang && ToLower(f.category) == f.category
  {
    ToLowerIdempotent(lang);
    ToLowerIdempotent(category);
    Filter(id, ToLower(lang), ToLower(category))
  }

  /** Whether the filter loop keeps quote `q`: every non-empty constraint matches,
      `id` exactly and `lang`/`category` after lower-casing the quote's field. */
  predicate Keeps(f: Filter, q: Quote)
  {
    (f.id == "" || q.id == f.id) &&
    (f.lang == "" || ToLower(q.lang) == f.lang) &&
    (f.category == "" || ToLower(q.category) == f.category)
  }

  /** An empty filter keeps every quote, and an `id` filter keeps no quote with another identifier. */
  lemma KeepsUnconstrained(f: Filter, q: Quote)
    ensures f == Filter("", "", "") ==> Keeps(f, q)
    ensures f.id != "" && q.id != f.id ==> !Keeps(f, q)
  {
  }

  /** Matching ignores the case of the quote's `lang` and `category`: a quote is
      kept exactly when its lower-cased copy is. */
  lemma KeepsCaseInsensitive(f: Filter, q: Quote)
    ensures Keeps(f, q) == Keeps(f, q.(lang := ToLower(q.lang), category := ToLower(q.category)))
  {
    ToLowerIdempotent(q.lang);
    ToLowerIdempotent(q.category);
  }

  /** The quotes of `s` that `f` keeps, in dataset order. */
  function Matching(s: seq<Quote>, f: Filter): (r: seq<Quote>)
    ensures |r| <= |s|
  {
    if s == [] then []
    else if Keeps(f, s[|s| - 1]) then Matching(s[..|s| - 1], f) + [s[|s| - 1]]
    else Matching(s[..|s| - 1], f)
  }

  /** One more quote is appended to the filtered prefix exactly when it is kept. */
  lemma MatchingSnoc(s: seq<Quote>, x: Quote, f: Filter)
    ensures Matching(s + [x], f) == if Keeps(f, x) then Matching(s, f) + [x] else Matching(s, f)
  {
    assert (s + [x])[..|s + [x]| - 1] == s;
  }

  /** Reading position `i` of the dataset extends the filtered prefix exactly when the quote there is kept. */
  lemma MatchingStep(s: seq<Quote>, i: nat, f: Filter)
    requires i < |s|
    ensures Matching(s[..i + 1], f) == if Keeps(f, s[i]) then Matching(s[..i], f) + [s[i]] else Matching(s[..i], f)
  {
    assert s[..i + 1] == s[..i] + [s[i]];
    MatchingSnoc(s[..i], s[i], f);
  }

  /** Filtering distributes over concatenation: kept quotes stay in dataset order. */
  lemma {:induction false} MatchingAppend(s: seq<Quote>, t: seq<Quote>, f: Filter)
    ensures Matching(s + t, f) == Matching(s, f) + Matching(t, f)
    decreases |t|
  {
    if t == [] {
      assert s + t == s;
    } else {
      var t' := t[..|t| - 1];
      assert (s + t)[..|s + t| - 1] == s + t';
      assert Matching(t, f) == Matching(t', f) + (if Keeps(f, t[|t| - 1]) then [t[|t| - 1]] else []);
      MatchingAppend(s, t', f);
    }
  }

  /** A quote is kept exactly when it is in the dataset and every non-empty constraint matches it. */
  lemma {:induction false} MatchingMembership(s: seq<Quote>, f: Filter, q: Quote)
    ensures q in Matching(s, f) <==> q in s && Keeps(f, q)
  {
    if s != [] {
      var s' := s[..|s| - 1];
      assert s == s' + [s[|s| - 1]];
      MatchingMembership(s', f, q);
    }
  }

  /** The unconstrained filter keeps the whole dataset. */
  lemma {:induction false} MatchingEmptyFilter(s: seq<Quote>)
    ensures Matching(s, Filter("", "", "")) == s
  {
    if s != [] {
      MatchingEmptyFilter(s[..|s| - 1]);
      assert s[..|s| - 1] + [s[|s| - 1]] == s;
    }
  }

  /** The candidates of a request: the matching quotes, or the whole dataset when none match. */
  function Candidates(s: seq<Quote>, f: Filter): (r: seq<Quote>)
    ensures s != [] ==> r != []
  {
    if Matching(s, f) == [] then s else Matching(s, f)
  }

  /** The candidate set is never empty for a non-empty dataset, and falls back
      to the whole dataset exactly when no quote satisfies the filter. */
  lemma CandidatesFallback(s: seq<Quote>, f: Filter)
    ensures (forall q :: q in s ==> !Keeps(f, q)) ==> Candidates(s, f) == s
    ensures (exists q :: q in s && Keeps(f, q)) ==> Candidates(s, f) == Matching(s, f)
  {
    if exists q :: q in s && Keeps(f, q) {
      var q :| q in s && Keeps(f, q);
      MatchingMembership(s, f, q);
    } else if Matching(s, f) != [] {
      assert Matching(s, f)[0] in Matching(s, f);
    }
  }

  /** No two quotes of `s` share an identifier. */
  predicate UniqueIds(s: seq<Quote>)
  {
    forall i, j :: 0 <= i < j < |s| ==> s[i].id != s[j].id
  }

  /** Filtering keeps a dataset free of repeated identifiers, and so does the fallback. */
  lemma {:induction false} MatchingUniqueIds(s: seq<Quote>, f: Filter)
    requires UniqueIds(s)
    ensures UniqueIds(Matching(s, f)) && UniqueIds(Candidates(s, f))
  {
    if s != [] {
      var s', x := s[..|s| - 1], s[|s| - 1];
      MatchingUniqueIds(s', f);
      var m' := Matching(s', f);
      forall k | 0 <= k < |m'| ensures m'[k].id != x.id {
        MatchingMembership(s', f, m'[k]);
        var i :| 0 <= i < |s'| && s'[i] == m'[k];
        assert s[i] == s'[i];
      }
    }
  }
}
