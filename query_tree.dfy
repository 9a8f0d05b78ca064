/** The Bleve query tree the search builders produce, with each boost given
    by the name of the constant that sets it instead of its float value. */
module QueryTree {

  datatype Field = Content | Name | Path

  /** boostForContent (3.0), boostForFileName (2.0), boostForPath (1.0),
      boostForQuotedPhrase (6.0), boostForRegularPhrase (5.0),
      boostForPartialMatch (1.5), and the older boostForPhraseMatch (5.0). */
  datatype Boost =
    | ContentBoost
    | FileNameBoost
    | PathBoost
    | QuotedPhraseBoost
    | RegularPhraseBoost
    | PartialMatchBoost
    | PhraseMatchBoost

  datatype Query =
    | MatchAll
    | Disj(clauses: seq<Query>)
    | Conj(clauses: seq<Query>)
    | Match(field: Field, text: string, boost: Boost)
    | Phrase(field: Field, text: string, boost: Boost)
    | Prefix(field: Field, text: string, boost: Boost)

  /** A disjunction under construction, grown by `AddQuery`. */
  class Disjunction {
    var clauses: seq<Query>

    constructor ()
      ensures clauses == []
    {
      clauses := [];
    }

    method AddQuery(q: Query)
      modifies this
      ensures clauses == old(clauses) + [q]
    {
      clauses := clauses + [q];
    }

    function ToQuery(): (q: Query)
      reads this
      ensures q.Disj? && q.clauses == clauses
    {
      Disj(clauses)
    }
  }

  /** A conjunction under construction, grown by `AddQuery`. */
  class Conjunction {
    var clauses: seq<Query>

    constructor ()
      ensures clauses == []
    {
      clauses := [];
    }

    method AddQuery(q: Query)
      modifies this
      ensures clauses == old(clauses) + [q]
    {
      clauses := clauses + [q];
    }

    function ToQuery(): (q: Query)
      reads this
      ensures q.Conj? && q.clauses == clauses
    {
      Conj(clauses)
    }
  }
}
