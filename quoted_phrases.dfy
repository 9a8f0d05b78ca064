/** The quoted-phrase parsing of db/searchdb/bleve.go: the matches of the
    regular expression `"([^"]*)"` in a query, leftmost first, the text
    around them, and the query with each match replaced by a space. */
module QuotedPhrases {
  import opened Text

  const Quote: char := '"'

  /** `s` holds no double quote. */
  predicate NoQuote(s: string)
  {
    forall i :: 0 <= i < |s| ==> s[i] != Quote
  }

  /** The position of the first double quote at or after `from`, or `|s|`. */
  function NextQuote(s: string, from: nat): (k: nat)
    requires from <= |s|
    ensures from <= k <= |s| && (k < |s| ==> s[k] == Quote)
    decreases |s| - from
  {
    if from == |s| || s[from] == Quote then from else NextQuote(s, from + 1)
  }

  /** No quote lies between `from` and the one NextQuote finds. */
  lemma {:induction false} NextQuoteFirst(s: string, from: nat)
    requires from <= |s|
    ensures NoQuote(s[from..NextQuote(s, from)])
    decreases |s| - from
  {
    if from < |s| && s[from] != Quote {
      NextQuoteFirst(s, from + 1);
      assert s[from..NextQuote(s, from)] == [s[from]] + s[from + 1..NextQuote(s, from + 1)];
    }
  }

  /** Searching a suffix finds the same quote, shifted. */
  lemma {:induction false} NextQuoteShift(s: string, from: nat, k: nat)
    requires from + k <= |s|
    ensures NextQuote(s[from..], k) == NextQuote(s, from + k) - from
    decreases |s| - from - k
  {
    if from + k < |s| && s[from + k] != Quote {
      NextQuoteShift(s, from, k + 1);
    }
  }

  /** A query cut by the matches: `phrases` are the contents of the matches,
      leftmost first, and `gaps` the text before, between and after them. */
  datatype QuoteSplit = QuoteSplit(gaps: seq<string>, phrases: seq<string>)

  /** The split of `s[from..]`: each opening quote pairs with the next quote
      after it, and an unpaired quote stays in the last gap. */
  function SplitFrom(s: string, from: nat): (r: QuoteSplit)
    requires from <= |s|
    ensures |r.gaps| == |r.phrases| + 1
    decreases |s| - from
  {
    var i := NextQuote(s, from);
    if i == |s| then QuoteSplit([s[from..]], []) else
      var j := NextQuote(s, i + 1);
      if j == |s| then QuoteSplit([s[from..]], []) else
        var r := SplitFrom(s, j + 1);
        QuoteSplit([s[from..i]] + r.gaps, [s[i + 1..j]] + r.phrases)
  }

  function Split(s: string): (r: QuoteSplit)
    ensures |r.gaps| == |r.phrases| + 1
  {
    SplitFrom(s, 0)
  }

  /** One match found at `i`..`j`: its content leads the phrases and the text
      before it leads the gaps. */
  lemma {:induction false} SplitStep(s: string, from: nat, i: nat, j: nat)
    requires from <= |s| && i == NextQuote(s, from) && i < |s| && j == NextQuote(s, i + 1) && j < |s|
    ensures SplitFrom(s, from)
            == QuoteSplit([s[from..i]] + SplitFrom(s, j + 1).gaps, [s[i + 1..j]] + SplitFrom(s, j + 1).phrases)
  {
  }

  /** `ReplaceAllString(s, " ")`: every match replaced by one space, that
      is, the gaps joined by single spaces. */
  function ReplaceQuoted(s: string): string
  {
    Join(Split(s).gaps, " ")
  }

  function Tail(q: QuoteSplit): QuoteSplit
    requires q.phrases != [] && q.gaps != []
  {
    QuoteSplit(q.gaps[1..], q.phrases[1..])
  }

  /** `s[from..]` is made of `q` as the matches cut it: the first gap, free
      of quotes, then a quote, the first phrase, free of quotes, and a quote,
      then the rest of `q` in the same way; at the end the last gap, which
      holds at most one quote. */
  predicate Decomposes(s: string, from: nat, q: QuoteSplit)
    requires from <= |s|
    decreases |q.phrases|
  {
    && |q.gaps| == |q.phrases| + 1
    && if q.phrases == [] then s[from..] == q.gaps[0] && AtMostOneQuote(q.gaps[0])
       else
         var i := from + |q.gaps[0]|;
         var j := i + 1 + |q.phrases[0]|;
         && j < |s| && s[from..i] == q.gaps[0] && NoQuote(q.gaps[0]) && s[i] == Quote
         && s[i + 1..j] == q.phrases[0] && NoQuote(q.phrases[0]) && s[j] == Quote
         && Decomposes(s, j + 1, Tail(q))
  }

  lemma {:induction false} DecomposesCons(s: string, from: nat, i: nat, j: nat, r: QuoteSplit)
    requires from <= i < j < |s| && s[i] == Quote && s[j] == Quote
    requires NoQuote(s[from..i]) && NoQuote(s[i + 1..j])
    requires Decomposes(s, j + 1, r)
    ensures Decomposes(s, from, QuoteSplit([s[from..i]] + r.gaps, [s[i + 1..j]] + r.phrases))
  {
    var q := QuoteSplit([s[from..i]] + r.gaps, [s[i + 1..j]] + r.phrases);
    DropCons(s[from..i], r.gaps);
    DropCons(s[i + 1..j], r.phrases);
    assert Tail(q) == r;
    assert q.gaps[0] == s[from..i] && q.phrases[0] == s[i + 1..j];
    assert |q.gaps| == |q.phrases| + 1 && q.phrases != [];
    assert NoQuote(q.gaps[0]) && NoQuote(q.phrases[0]);
    assert from + |q.gaps[0]| == i && i + 1 + |q.phrases[0]| == j;
    assert Decomposes(s, j + 1, Tail(q));
  }

  lemma {:induction false} DropCons<T>(x: T, xs: seq<T>)
    ensures ([x] + xs)[1..] == xs
  {
  }

  lemma {:induction false} SplitFromDecomposes(s: string, from: nat)
    requires from <= |s|
    ensures Decomposes(s, from, SplitFrom(s, from))
    decreases |s| - from
  {
    var i := NextQuote(s, from);
    if i < |s| {
      var j := NextQuote(s, i + 1);
      if j < |s| {
        SplitFromDecomposes(s, j + 1);
        PairedDecomposes(s, from, i, j, SplitFrom(s, j + 1));
      } else {
        SplitUnpaired(s, from);
        LastGapBase(s, from, i);
      }
    } else {
      SplitNone(s, from);
      LastGapNone(s, from);
    }
  }

  /** A match at `i`..`j` in front of a decomposed rest. */
  lemma {:induction false} PairedDecomposes(s: string, from: nat, i: nat, j: nat, r: QuoteSplit)
    requires from <= |s| && i == NextQuote(s, from) && i < |s| && j == NextQuote(s, i + 1) && j < |s|
    requires r == SplitFrom(s, j + 1) && Decomposes(s, j + 1, r)
    ensures Decomposes(s, from, SplitFrom(s, from))
  {
    SplitStep(s, from, i, j);
    NextQuoteFirst(s, from);
    NextQuoteFirst(s, i + 1);
    DecomposesCons(s, from, i, j, r);
  }

  /** The matches cut the query exactly: its gaps and phrases, with a quote
      around each phrase, make up the query; the phrases and all gaps but
      the last are free of quotes, and the last gap holds at most one. */
  lemma {:induction false} SplitDecomposes(s: string)
    ensures Decomposes(s, 0, Split(s))
  {
    SplitFromDecomposes(s, 0);
  }

  /** Every element is free of quotes. */
  predicate AllNoQuote(xs: seq<string>)
  {
    forall k :: 0 <= k < |xs| ==> NoQuote(xs[k])
  }

  lemma {:induction false} ConsNoQuote(x: string, xs: seq<string>)
    requires NoQuote(x) && AllNoQuote(xs)
    ensures AllNoQuote([x] + xs)
  {
  }

  /** In a decomposition the phrases, and the gaps before each match, are
      free of quotes. */
  lemma {:induction false} DecomposesNoQuote(s: string, from: nat, q: QuoteSplit)
    requires from <= |s| && Decomposes(s, from, q)
    ensures AllNoQuote(q.phrases) && AllNoQuote(q.gaps[..|q.phrases|])
    decreases |q.phrases|
  {
    if q.phrases != [] {
      var i := from + |q.gaps[0]|;
      var j := i + 1 + |q.phrases[0]|;
      var t := Tail(q);
      DecomposesNoQuote(s, j + 1, t);
      Reconstruct(q);
      ConsNoQuote(q.phrases[0], t.phrases);
      assert q.gaps[..|q.phrases|] == [q.gaps[0]] + t.gaps[..|t.phrases|];
      ConsNoQuote(q.gaps[0], t.gaps[..|t.phrases|]);
    }
  }

  /** The phrases, and the gaps before each match, are free of quotes. */
  lemma {:induction false} SplitNoQuote(s: string)
    ensures AllNoQuote(Split(s).phrases)
    ensures AllNoQuote(Split(s).gaps[..|Split(s).phrases|])
  {
    SplitDecomposes(s);
    DecomposesNoQuote(s, 0, Split(s));
  }

  /** `s` holds at most one quote. */
  predicate AtMostOneQuote(s: string)
  {
    var i := NextQuote(s, 0);
    i < |s| ==> NoQuote(s[i + 1..])
  }

  /** With one quote left at `i`, the last gap is `s[from..]`, and nothing
      after its quote is a quote. */
  lemma {:induction false} LastGapBase(s: string, from: nat, i: nat)
    requires from <= i < |s| && i == NextQuote(s, from) && NextQuote(s, i + 1) == |s|
    ensures AtMostOneQuote(s[from..])
  {
    NextQuoteFirst(s, i + 1);
    assert s[i + 1..|s|] == s[i + 1..];
    NextQuoteShift(s, from, 0);
    var last := s[from..];
    var k := NextQuote(last, 0);
    assert k == i - from;
    assert last[k + 1..] == s[i + 1..];
  }

  /** No quote at all from `from` on. */
  lemma {:induction false} LastGapNone(s: string, from: nat)
    requires from <= |s| && NextQuote(s, from) == |s|
    ensures AtMostOneQuote(s[from..])
  {
    NextQuoteShift(s, from, 0);
  }

  /** A quote-free stretch is skipped by NextQuote. */
  lemma {:induction false} NextQuoteSkips(s: string, from: nat, to: nat)
    requires from <= to <= |s| && NoQuote(s[from..to])
    ensures NextQuote(s, from) == NextQuote(s, to)
    decreases (to as int) - (from as int)
  {
    if from < to {
      assert s[from] == s[from..to][0];
      assert s[from + 1..to] == s[from..to][1..];
      NextQuoteSkips(s, from + 1, to);
    }
  }

  /** No quote, or only one, from `from` on: the rest is one gap. */
  lemma {:induction false} SplitNone(s: string, from: nat)
    requires from <= |s| && NextQuote(s, from) == |s|
    ensures SplitFrom(s, from) == QuoteSplit([s[from..]], [])
  {
  }

  lemma {:induction false} SplitUnpaired(s: string, from: nat)
    requires from <= |s| && NextQuote(s, from) < |s| && NextQuote(s, NextQuote(s, from) + 1) == |s|
    ensures SplitFrom(s, from) == QuoteSplit([s[from..]], [])
  {
  }

  lemma {:induction false} LoneGapTail(s: string, from: nat, i: nat)
    requires from <= i < |s| && AtMostOneQuote(s[from..]) && NextQuote(s[from..], 0) == i - from
    ensures NextQuote(s, i + 1) == |s|
  {
    assert s[from..][i - from + 1..] == s[i + 1..];
    assert s[i + 1..|s|] == s[i + 1..];
    NextQuoteSkips(s, i + 1, |s|);
  }

  /** A last gap with at most one quote is not split further. */
  lemma {:induction false} LoneGap(s: string, from: nat)
    requires from <= |s| && AtMostOneQuote(s[from..])
    ensures SplitFrom(s, from) == QuoteSplit([s[from..]], [])
  {
    var i := NextQuote(s, from);
    NextQuoteShift(s, from, 0);
    if i < |s| {
      LoneGapTail(s, from, i);
      SplitUnpaired(s, from);
    } else {
      SplitNone(s, from);
    }
  }

  /** The first match of `q` decomposing `s[from..]` is the first one
      NextQuote finds, at `i`..`j`. */
  lemma {:induction false} DecomposesFirst(s: string, from: nat, q: QuoteSplit, i: nat, j: nat)
    requires from <= |s| && q.phrases != [] && Decomposes(s, from, q)
    requires i == from + |q.gaps[0]| && j == i + 1 + |q.phrases[0]|
    ensures j < |s| && NextQuote(s, from) == i && NextQuote(s, i + 1) == j
    ensures s[from..i] == q.gaps[0] && s[i + 1..j] == q.phrases[0] && Decomposes(s, j + 1, Tail(q))
  {
    NextQuoteSkips(s, from, i);
    NextQuoteSkips(s, i + 1, j);
  }

  lemma {:induction false} Reconstruct(q: QuoteSplit)
    requires q.phrases != [] && q.gaps != []
    ensures q == QuoteSplit([q.gaps[0]] + Tail(q).gaps, [q.phrases[0]] + Tail(q).phrases)
  {
  }

  /** The first match at `i`..`j` followed by the split of the rest. */
  lemma {:induction false} SplitFromFirst(s: string, from: nat, i: nat, j: nat, q: QuoteSplit)
    requires q.phrases != [] && q.gaps != []
    requires from <= i < j < |s| && NextQuote(s, from) == i && NextQuote(s, i + 1) == j
    requires s[from..i] == q.gaps[0] && s[i + 1..j] == q.phrases[0]
    requires SplitFrom(s, j + 1) == Tail(q)
    ensures SplitFrom(s, from) == q
  {
    SplitStep(s, from, i, j);
    Reconstruct(q);
  }

  /** A `q` with no match is one gap, which SplitFrom leaves whole. */
  lemma {:induction false} DecomposesBase(s: string, from: nat, q: QuoteSplit)
    requires from <= |s| && q.phrases == [] && Decomposes(s, from, q)
    ensures SplitFrom(s, from) == q
  {
    LoneGap(s, from);
    assert q.gaps == [q.gaps[0]];
  }

  /** Whatever decomposes `s[from..]` is what SplitFrom finds. */
  lemma {:induction false} SplitFromOfDecomposes(s: string, from: nat, q: QuoteSplit)
    requires from <= |s| && Decomposes(s, from, q)
    ensures SplitFrom(s, from) == q
    decreases |q.phrases|
  {
    if q.phrases == [] {
      DecomposesBase(s, from, q);
    } else {
      var i := from + |q.gaps[0]|;
      var j := i + 1 + |q.phrases[0]|;
      DecomposesFirst(s, from, q, i, j);
      SplitFromOfDecomposes(s, j + 1, Tail(q));
      SplitFromFirst(s, from, i, j, q);
    }
  }

  /** The split is the one decomposition of the query: `q` is the split of
      `s` exactly when `q` decomposes `s`. */
  lemma {:induction false} SplitCharacterized(s: string, q: QuoteSplit)
    ensures Split(s) == q <==> Decomposes(s, 0, q)
  {
    SplitDecomposes(s);
    if Decomposes(s, 0, q) {
      SplitFromOfDecomposes(s, 0, q);
    }
  }

  /** The kept phrases: each match trimmed, and dropped when blank. */
  function KeptPhrases(ms: seq<string>): seq<string>
  {
    if ms == [] then []
    else
      var last := TrimSpace(ms[|ms| - 1]);
      KeptPhrases(ms[..|ms| - 1]) + (if last != [] then [last] else [])
  }

  /** Every element is non-empty, already trimmed and free of quotes. */
  predicate AllKept(ps: seq<string>)
  {
    forall k :: 0 <= k < |ps| ==> ps[k] != [] && TrimSpace(ps[k]) == ps[k] && NoQuote(ps[k])
  }

  lemma {:induction false} TrimmedNoQuote(m: string)
    requires NoQuote(m)
    ensures NoQuote(TrimSpace(m))
  {
    TrimSpaceShape(m);
  }

  /** Every kept phrase is non-empty, already trimmed and free of quotes, and
      there are no more of them than matches. */
  lemma {:induction false} KeptPhrasesShape(ms: seq<string>)
    requires AllNoQuote(ms)
    ensures |KeptPhrases(ms)| <= |ms|
    ensures AllKept(KeptPhrases(ms))
  {
    if ms != [] {
      var init := ms[..|ms| - 1];
      var m := ms[|ms| - 1];
      KeptPhrasesShape(init);
      TrimSpaceIdempotent(m);
      TrimmedNoQuote(m);
    }
  }

  /** parseQuotedQuery: the trimmed non-blank contents of the matches, in
      order, and the query with each match replaced by a space, trimmed. */
  method ParseQuotedQuery(queryString: string) returns (quotedPhrases: seq<string>, remainingTerms: string)
    ensures quotedPhrases == KeptPhrases(Split(queryString).phrases)
    ensures remainingTerms == TrimSpace(ReplaceQuoted(queryString))
  {
    var matches := Split(queryString).phrases;
    quotedPhrases := [];
    var k := 0;
    while k < |matches|
      invariant 0 <= k <= |matches|
      invariant quotedPhrases == KeptPhrases(matches[..k])
    {
      var phrase := TrimSpace(matches[k]);
      if phrase != [] {
        quotedPhrases := quotedPhrases + [phrase];
      }
      assert matches[..k + 1][..k] == matches[..k];
      k := k + 1;
    }
    assert matches[..k] == matches;
    remainingTerms := TrimSpace(ReplaceQuoted(queryString));
  }

  /** What parseQuotedQuery returns is a list of non-empty, trimmed,
      quote-free phrases, no more than there are matches, and a trimmed
      remainder. */
  lemma {:induction false} ParsedShape(queryString: string)
    ensures var phrases := KeptPhrases(Split(queryString).phrases);
            |phrases| <= |Split(queryString).phrases| && AllKept(phrases)
    ensures TrimSpace(TrimSpace(ReplaceQuoted(queryString))) == TrimSpace(ReplaceQuoted(queryString))
  {
    SplitNoQuote(queryString);
    KeptPhrasesShape(Split(queryString).phrases);
    TrimSpaceIdempotent(ReplaceQuoted(queryString));
  }
}
