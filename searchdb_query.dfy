/** Query parsing and construction of db/searchdb/bleve.go: quoted phrases are
    pulled out of the query, and the rest becomes per-term match and prefix
    clauses under one disjunction. */
module SearchQuery {
  import opened Text
  import opened QueryTree
  import opened QuotedPhrases

  /** The clauses for one term: matches on content, name and path, then
      prefix clauses on name and content when the term is longer than two
      bytes. */
  function SingleTermClauses(term: string): seq<Query>
  {
    [Match(Content, term, ContentBoost), Match(Name, term, FileNameBoost), Match(Path, term, PathBoost)]
    + (if |term| > 2 then [Prefix(Name, term, PartialMatchBoost), Prefix(Content, term, PartialMatchBoost)] else [])
  }

  /** One disjunction of single-term clauses per term, in order. */
  function TermDisjunctions(terms: seq<string>): (qs: seq<Query>)
    ensures |qs| == |terms|
    ensures forall k :: 0 <= k < |terms| ==> qs[k] == Disj(SingleTermClauses(terms[k]))
  {
    if terms == [] then [] else TermDisjunctions(terms[..|terms| - 1]) + [Disj(SingleTermClauses(terms[|terms| - 1]))]
  }

  lemma {:induction false} TermDisjunctionsSnoc(terms: seq<string>, k: nat)
    requires k < |terms|
    ensures TermDisjunctions(terms[..k + 1]) == TermDisjunctions(terms[..k]) + [Disj(SingleTermClauses(terms[k]))]
  {
    assert terms[..k + 1][..k] == terms[..k] && terms[..k + 1][k] == terms[k];
  }

  /** The clauses buildSearchSubQueryForRegularPhrase adds for `s`. */
  function RegularPhraseClauses(s: string): seq<Query>
  {
    var terms := Fields(s);
    if |terms| == 0 then []
    else if |terms| == 1 then SingleTermClauses(s)
    else [Phrase(Content, s, RegularPhraseBoost), Conj(TermDisjunctions(terms))]
  }

  /** One quoted-phrase clause per non-empty phrase, each built from `whole`. */
  function QuotedPhraseClauses(phrases: seq<string>, whole: string): seq<Query>
  {
    if phrases == [] then []
    else QuotedPhraseClauses(phrases[..|phrases| - 1], whole)
         + (if phrases[|phrases| - 1] != [] then [Phrase(Content, whole, QuotedPhraseBoost)] else [])
  }

  /** The query buildSearchQuery builds for `queryString`. */
  function SearchQueryFor(queryString: string): Query
  {
    var q := ToLower(TrimSpace(queryString));
    if q == [] then MatchAll else NonBlankQuery(q)
  }

  /** The disjunction built for the lower-cased, trimmed, non-blank query
      `q`: the quoted-phrase clauses, then those of the remaining terms; the
      whole of `q` goes to the regular-phrase builder when there are
      neither. */
  function NonBlankQuery(q: string): Query
  {
    var phrases := KeptPhrases(Split(q).phrases);
    var remaining := TrimSpace(ReplaceQuoted(q));
    if |phrases| == 0 && |remaining| == 0 then Disj(RegularPhraseClauses(q))
    else Disj(QuotedPhraseClauses(phrases, q) + (if |remaining| > 0 then RegularPhraseClauses(remaining) else []))
  }

  method BuildSearchSubQueryForSingleTerm(query: Disjunction, term: string)
    modifies query
    ensures query.clauses == old(query.clauses) + SingleTermClauses(term)
  {
    query.AddQuery(Match(Content, term, ContentBoost));
    query.AddQuery(Match(Name, term, FileNameBoost));
    query.AddQuery(Match(Path, term, PathBoost));
    if |term| > 2 {
      query.AddQuery(Prefix(Name, term, PartialMatchBoost));
      query.AddQuery(Prefix(Content, term, PartialMatchBoost));
    }
  }

  method BuildSearchSubQueryForQuotedPhrase(query: Disjunction, queryString: string)
    modifies query
    ensures query.clauses == old(query.clauses) + [Phrase(Content, queryString, QuotedPhraseBoost)]
  {
    query.AddQuery(Phrase(Content, queryString, QuotedPhraseBoost));
  }

  method BuildSearchSubQueryForRegularPhrase(query: Disjunction, queryString: string)
    modifies query
    ensures query.clauses == old(query.clauses) + RegularPhraseClauses(queryString)
  {
    var terms := Fields(queryString);
    if |terms| == 0 {
      return;
    }
    if |terms| == 1 {
      BuildSearchSubQueryForSingleTerm(query, queryString);
      return;
    }
    query.AddQuery(Phrase(Content, queryString, RegularPhraseBoost));
    var conjunction := new Conjunction();
    var k := 0;
    while k < |terms|
      invariant 0 <= k <= |terms|
      invariant conjunction.clauses == TermDisjunctions(terms[..k])
      invariant query.clauses == old(query.clauses) + [Phrase(Content, queryString, RegularPhraseBoost)]
    {
      var termQuery := new Disjunction();
      BuildSearchSubQueryForSingleTerm(termQuery, terms[k]);
      var termDisjunction := termQuery.ToQuery();
      assert termDisjunction == Disj(SingleTermClauses(terms[k]));
      TermDisjunctionsSnoc(terms, k);
      conjunction.AddQuery(termDisjunction);
      k := k + 1;
    }
    assert terms[..k] == terms;
    query.AddQuery(conjunction.ToQuery());
  }

  /** buildSearchQuery. */
  method BuildSearchQuery(queryString: string) returns (q: Query)
    ensures q == SearchQueryFor(queryString)
  {
    var lowered := ToLower(TrimSpace(queryString));
    if lowered == [] {
      return MatchAll;
    }
    var quotedPhrases, remainingTerms := ParseQuotedQuery(lowered);
    var disjunction := new Disjunction();
    if |quotedPhrases| == 0 && |remainingTerms| == 0 {
      BuildSearchSubQueryForRegularPhrase(disjunction, lowered);
      return disjunction.ToQuery();
    }
    var k := 0;
    while k < |quotedPhrases|
      invariant 0 <= k <= |quotedPhrases|
      invariant disjunction.clauses == QuotedPhraseClauses(quotedPhrases[..k], lowered)
    {
      if quotedPhrases[k] != [] {
        BuildSearchSubQueryForQuotedPhrase(disjunction, lowered);
      }
      assert quotedPhrases[..k + 1][..k] == quotedPhrases[..k];
      k := k + 1;
    }
    assert quotedPhrases[..k] == quotedPhrases;
    if |remainingTerms| > 0 {
      BuildSearchSubQueryForRegularPhrase(disjunction, remainingTerms);
    }
    return disjunction.ToQuery();
  }

  /** A query builds MatchAll exactly when it is blank. */
  lemma {:induction false} BlankQueryMatchesAll(queryString: string)
    ensures SearchQueryFor(queryString) == MatchAll <==> IsBlank(queryString)
  {
    TrimSpaceEmptyIffBlank(queryString);
  }

  /** When every phrase is non-empty, there is one quoted-phrase clause per
      phrase, and each is a content phrase of the whole query string, not of
      the phrase. */
  lemma {:induction false} QuotedClausesUseWholeQuery(phrases: seq<string>, whole: string)
    requires forall k :: 0 <= k < |phrases| ==> phrases[k] != []
    ensures |QuotedPhraseClauses(phrases, whole)| == |phrases|
    ensures forall k :: 0 <= k < |phrases| ==> QuotedPhraseClauses(phrases, whole)[k] == Phrase(Content, whole, QuotedPhraseBoost)
  {
    if phrases != [] {
      QuotedClausesUseWholeQuery(phrases[..|phrases| - 1], whole);
    }
  }

  /** The quoted-phrase clauses lead, one per phrase, and `rest` follows. */
  lemma {:induction false} QuotedClausesThenRest(phrases: seq<string>, whole: string, rest: seq<Query>)
    requires forall k :: 0 <= k < |phrases| ==> phrases[k] != []
    ensures var c := QuotedPhraseClauses(phrases, whole) + rest;
            && |c| == |phrases| + |rest|
            && (forall k :: 0 <= k < |phrases| ==> c[k] == Phrase(Content, whole, QuotedPhraseBoost))
            && c[|phrases|..] == rest
  {
    QuotedClausesUseWholeQuery(phrases, whole);
    var qc := QuotedPhraseClauses(phrases, whole);
    assert (qc + rest)[|qc|..] == rest;
  }

  /** The shape of a non-blank query: the quoted-phrase clauses on the whole
      lower-cased query come first, one per kept phrase, then the clauses for
      the remaining terms; with neither phrases nor remaining terms the whole
      query goes to the regular-phrase builder. */
  lemma {:induction false} NonBlankQueryShape(queryString: string)
    requires !IsBlank(queryString)
    ensures var q := ToLower(TrimSpace(queryString));
            && SearchQueryFor(queryString) == NonBlankQuery(q)
            && QueryShape(q, NonBlankQuery(q))
  {
    TrimSpaceEmptyIffBlank(queryString);
    var q := ToLower(TrimSpace(queryString));
    NonBlankShape(q);
  }

  /** `built` leads with one whole-query phrase clause per kept phrase of
      `q` and then holds the clauses of the remaining terms, or is the
      regular-phrase disjunction of `q` when there are neither. */
  predicate QueryShape(q: string, built: Query)
  {
    var phrases := KeptPhrases(Split(q).phrases);
    var remaining := TrimSpace(ReplaceQuoted(q));
    && built.Disj?
    && (|phrases| == 0 && |remaining| == 0 ==> built.clauses == RegularPhraseClauses(q))
    && (|phrases| > 0 || |remaining| > 0 ==>
          && |built.clauses| >= |phrases|
          && (forall k :: 0 <= k < |phrases| ==> built.clauses[k] == Phrase(Content, q, QuotedPhraseBoost))
          && built.clauses[|phrases|..] == (if |remaining| > 0 then RegularPhraseClauses(remaining) else []))
  }

  lemma {:induction false} NonBlankShape(q: string)
    ensures QueryShape(q, NonBlankQuery(q))
  {
    var phrases := KeptPhrases(Split(q).phrases);
    var remaining := TrimSpace(ReplaceQuoted(q));
    ParsedShape(q);
    assert forall k :: 0 <= k < |phrases| ==> phrases[k] != [];
    QuotedClausesThenRest(phrases, q, if |remaining| > 0 then RegularPhraseClauses(remaining) else []);
  }

  /** Every clause of a single term searches that term: matches first, on
      content, name and path, each with its field's boost, then prefix
      clauses, on name and content with the partial-match boost, present
      exactly when the term is longer than two bytes. */
  lemma {:induction false} SingleTermShape(term: string)
    ensures var c := SingleTermClauses(term);
            && (|c| == 3 || |c| == 5)
            && (forall k :: 0 <= k < |c| ==> (c[k].Match? || c[k].Prefix?) && c[k].text == term)
            && (forall k :: 0 <= k < |c| ==> (c[k].Prefix? <==> k >= 3))
            && (forall k :: 0 <= k < |c| ==> c[k].field == [Content, Name, Path, Name, Content][k])
            && (forall k :: 0 <= k < |c| && c[k].Prefix? ==> c[k].boost == PartialMatchBoost)
            && (forall k :: 0 <= k < |c| && c[k].Match? ==>
                  c[k].boost == match c[k].field case Content => ContentBoost case Name => FileNameBoost case Path => PathBoost)
            && ((exists k :: 0 <= k < |c| && c[k].Prefix?) <==> |term| > 2)
  {
    var c := SingleTermClauses(term);
    if |term| > 2 {
      assert c[3].Prefix?;
    }
  }

  /** Two or more terms yield a content phrase of the whole text, then a
      conjunction of one disjunction per term, in order; no terms yield
      nothing. */
  lemma {:induction false} MultiTermShape(s: string)
    ensures |Fields(s)| == 0 ==> RegularPhraseClauses(s) == []
    ensures |Fields(s)| >= 2 ==>
              var c := RegularPhraseClauses(s);
              |c| == 2 && c[0] == Phrase(Content, s, RegularPhraseBoost)
              && c[1].Conj? && |c[1].clauses| == |Fields(s)|
              && forall k :: 0 <= k < |Fields(s)| ==> c[1].clauses[k] == Disj(SingleTermClauses(Fields(s)[k]))
  {
  }
}
