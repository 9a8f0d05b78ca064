/** services/index/tokenize.go: the text lower-cased, cut into the matches
    of `\b\w+\b` (maximal runs of ASCII word characters), short words and
    stop words dropped, and each kept word given its byte offset, line and
    column. */
module Tokenize {
  import opened Text
  import opened Seqs

  datatype Token = Token(text: string, position: nat, line: nat, column: nat)

  /** RE2's `\w`: an ASCII letter, digit or underscore. */
  predicate IsWordChar(c: char)
  {
    ('0' <= c <= '9') || ('a' <= c <= 'z') || ('A' <= c <= 'Z') || c == '_'
  }

  /** The stop-word table of isStopWord. */
  const StopWords: set<string> := {
    "the", "a", "an", "and", "or", "but", "in", "on", "at", "to",
    "for", "of", "with", "by", "is", "are", "was", "were", "be", "been",
    "have", "has", "had", "do", "does", "did", "will", "would", "could", "should"
  }

  predicate IsStopWord(word: string)
  {
    word in StopWords
  }

  /** A word is kept when it has two bytes or more and is no stop word. */
  predicate Kept(word: string)
  {
    |word| >= 2 && !IsStopWord(word)
  }

  /** Where the run of word characters starting at `i` ends. */
  function RunEnd(t: string, i: nat): (r: nat)
    requires i <= |t|
    ensures i <= r <= |t|
    ensures forall k :: i <= k < r ==> IsWordChar(t[k])
    ensures r == |t| || !IsWordChar(t[r])
    decreases |t| - i
  {
    if i < |t| && IsWordChar(t[i]) then RunEnd(t, i + 1) else i
  }

  /** A match of `\b\w+\b` starts at `p`: a word character with none right
      before it. */
  predicate RunStart(t: string, p: nat)
  {
    p < |t| && IsWordChar(t[p]) && (p == 0 || !IsWordChar(t[p - 1]))
  }

  /** The number of `c` in `s`. */
  function Count(s: string, c: char): nat
    decreases |s|
  {
    if s == [] then 0 else Count(s[..|s| - 1], c) + (if s[|s| - 1] == c then 1 else 0)
  }

  /** The text before `position`, clamped to the text. */
  function Before(t: string, position: int): string
  {
    if position <= 0 then [] else if position >= |t| then t else t[..position]
  }

  /** The line of `position`: one more than the newlines before it. */
  function LineOf(t: string, position: int): nat
  {
    1 + Count(Before(t, position), '\n')
  }

  /** The column of `position`: one more than the characters since the
      last newline before it. */
  function ColumnOf(t: string, position: int): nat
  {
    var b := Before(t, position);
    1 + |b| - AfterLast(b, '\n')
  }

  /** The tokens of the lower-cased text `t` from `i` on. */
  function TokensFrom(t: string, i: nat): seq<Token>
    requires i <= |t|
    decreases |t| - i
  {
    if i == |t| then []
    else if !IsWordChar(t[i]) then TokensFrom(t, i + 1)
    else
      var j := RunEnd(t, i);
      (if Kept(t[i..j]) then [Token(t[i..j], i, LineOf(t, i), ColumnOf(t, i))] else []) + TokensFrom(t, j)
  }

  /** tokenize on `text`. */
  function Tokens(text: string): seq<Token>
  {
    TokensFrom(ToLower(text), 0)
  }

  /** `tok` is the token of the match starting at its position. */
  predicate IsToken(t: string, tok: Token)
  {
    && RunStart(t, tok.position)
    && tok.text == t[tok.position..RunEnd(t, tok.position)]
    && Kept(tok.text)
    && tok.line == LineOf(t, tok.position)
    && tok.column == ColumnOf(t, tok.position)
  }

  /** Some token starts at `p`. */
  predicate HasTokenAt(tokens: seq<Token>, p: nat)
  {
    exists k :: 0 <= k < |tokens| && tokens[k].position == p
  }

  /** Strictly increasing positions. */
  predicate Increasing(tokens: seq<Token>)
  {
    forall a, b :: 0 <= a < b < |tokens| ==> tokens[a].position < tokens[b].position
  }

  /** Where a scan may stand: at the end, after a non-word character, or
      on one. A word character here starts a match. */
  predicate Scannable(t: string, i: nat)
  {
    i == |t| || i == 0 || (i <= |t| && !IsWordChar(t[i - 1])) || (i < |t| && !IsWordChar(t[i]))
  }

  /** The scan over one match at `i` ending at `j`. */
  lemma {:induction false} TokensFromStep(t: string, i: nat, j: nat)
    requires i < |t| && IsWordChar(t[i]) && j == RunEnd(t, i)
    ensures TokensFrom(t, i)
            == (if Kept(t[i..j]) then [Token(t[i..j], i, LineOf(t, i), ColumnOf(t, i))] else []) + TokensFrom(t, j)
  {
  }

  /** Every token from `i` on is the token of a match at or after `i`. */
  lemma {:induction false} TokensFromSound(t: string, i: nat)
    requires i <= |t| && Scannable(t, i)
    ensures forall k :: 0 <= k < |TokensFrom(t, i)| ==>
              IsToken(t, TokensFrom(t, i)[k]) && i <= TokensFrom(t, i)[k].position
    decreases |t| - i
  {
    if i < |t| {
      if !IsWordChar(t[i]) {
        TokensFromSound(t, i + 1);
      } else {
        var j := RunEnd(t, i);
        TokensFromSound(t, j);
        TokensFromStep(t, i, j);
        if Kept(t[i..j]) {
          var head := Token(t[i..j], i, LineOf(t, i), ColumnOf(t, i));
          assert RunStart(t, i);
          ConsTokens(t, i, head, TokensFrom(t, j));
        }
      }
    }
  }

  lemma {:induction false} ConsTokens(t: string, i: nat, head: Token, rest: seq<Token>)
    requires IsToken(t, head) && head.position == i
    requires forall k :: 0 <= k < |rest| ==> IsToken(t, rest[k]) && i <= rest[k].position
    ensures forall k :: 0 <= k < |[head] + rest| ==> IsToken(t, ([head] + rest)[k]) && i <= ([head] + rest)[k].position
  {
    forall k | 0 <= k < |[head] + rest|
      ensures IsToken(t, ([head] + rest)[k]) && i <= ([head] + rest)[k].position
    {
      if k > 0 {
        assert ([head] + rest)[k] == rest[k - 1];
      }
    }
  }

  /** The positions of the tokens strictly increase. */
  lemma {:induction false} TokensFromIncreasing(t: string, i: nat)
    requires i <= |t| && Scannable(t, i)
    ensures Increasing(TokensFrom(t, i))
    decreases |t| - i
  {
    if i < |t| {
      if !IsWordChar(t[i]) {
        TokensFromIncreasing(t, i + 1);
      } else {
        var j := RunEnd(t, i);
        TokensFromIncreasing(t, j);
        TokensFromSound(t, j);
        TokensFromStep(t, i, j);
        if Kept(t[i..j]) {
          PrependIncreasing(Token(t[i..j], i, LineOf(t, i), ColumnOf(t, i)), TokensFrom(t, j));
        }
      }
    }
  }

  /** A token before every token of an increasing list keeps it increasing. */
  lemma {:induction false} PrependIncreasing(head: Token, rest: seq<Token>)
    requires Increasing(rest)
    requires forall k :: 0 <= k < |rest| ==> head.position < rest[k].position
    ensures Increasing([head] + rest)
  {
    var all := [head] + rest;
    forall a, b | 0 <= a < b < |all|
      ensures all[a].position < all[b].position
    {
      assert all[b] == rest[b - 1];
      if a > 0 {
        assert all[a] == rest[a - 1];
      }
    }
  }

  /** Every match from `i` on whose word is kept yields a token. */
  lemma {:induction false} TokensFromComplete(t: string, i: nat)
    requires i <= |t| && Scannable(t, i)
    ensures forall p :: i <= p && RunStart(t, p) && Kept(t[p..RunEnd(t, p)]) ==> HasTokenAt(TokensFrom(t, i), p)
    decreases |t| - i
  {
    if i < |t| {
      if !IsWordChar(t[i]) {
        TokensFromComplete(t, i + 1);
      } else {
        var j := RunEnd(t, i);
        TokensFromComplete(t, j);
        var rest := TokensFrom(t, j);
        var head := if Kept(t[i..j]) then [Token(t[i..j], i, LineOf(t, i), ColumnOf(t, i))] else [];
        assert TokensFrom(t, i) == head + rest;
        forall p | i <= p && RunStart(t, p) && Kept(t[p..RunEnd(t, p)])
          ensures HasTokenAt(head + rest, p)
        {
          if p == i {
            assert (head + rest)[0].position == i;
          } else {
            assert j < p;
            var k :| 0 <= k < |rest| && rest[k].position == p;
            assert (head + rest)[|head| + k] == rest[k];
          }
        }
      }
    }
  }

  /** The tokens of tokenize: each is a kept, lower-case, maximal run of
      word characters of the lower-cased text at its own byte offset, with
      its line and column; every kept run yields one; and the offsets
      strictly increase. */
  lemma {:induction false} TokensShape(text: string)
    ensures var t := ToLower(text);
            && (forall k :: 0 <= k < |Tokens(text)| ==> IsToken(t, Tokens(text)[k]) && IsLowerCase(Tokens(text)[k].text))
            && (forall p: nat :: RunStart(t, p) && Kept(t[p..RunEnd(t, p)]) ==> HasTokenAt(Tokens(text), p))
            && Increasing(Tokens(text))
  {
    var t := ToLower(text);
    TokensFromSound(t, 0);
    TokensFromIncreasing(t, 0);
    TokensFromComplete(t, 0);
    ToLowerIsLowerCase(text);
    forall k | 0 <= k < |Tokens(text)|
      ensures IsLowerCase(Tokens(text)[k].text)
    {
      var tok := Tokens(text)[k];
      assert forall m :: 0 <= m < |tok.text| ==> tok.text[m] == t[tok.position + m];
    }
  }

  /** tokenize: the lower-cased text scanned match by match. */
  method Tokenize(text: string) returns (tokens: seq<Token>)
    ensures tokens == Tokens(text)
  {
    var t := ToLower(text);
    tokens := [];
    var i := 0;
    while i < |t|
      invariant i <= |t| && Scannable(t, i)
      invariant tokens + TokensFrom(t, i) == TokensFrom(t, 0)
    {
      if !IsWordChar(t[i]) {
        i := i + 1;
        continue;
      }
      var j := MatchEnd(t, i);
      var word := t[i..j];
      ghost var rest := TokensFrom(t, j);
      TokensFromStep(t, i, j);
      if |word| < 2 || IsStopWord(word) {
        assert [] + rest == rest;
        i := j;
        continue;
      }
      var line, column := GetLineColumn(t, i);
      var token := Token(word, i, line, column);
      SeqAssoc(tokens, [token], rest);
      tokens := tokens + [token];
      i := j;
    }
    assert tokens + [] == tokens;
  }

  /** The regular-expression engine's end of the match starting at `i`. */
  method MatchEnd(t: string, i: nat) returns (j: nat)
    requires i < |t| && IsWordChar(t[i])
    ensures j == RunEnd(t, i) && i < j
  {
    j := i + 1;
    while j < |t| && IsWordChar(t[j])
      invariant i < j <= |t|
      invariant RunEnd(t, i) == RunEnd(t, j)
    {
      j := j + 1;
    }
  }

  lemma {:induction false} BeforeStep(t: string, i: nat)
    requires i < |t|
    ensures Before(t, i + 1) == Before(t, i) + [t[i]]
  {
    assert t[..i + 1] == t[..i] + [t[i]];
    if i + 1 == |t| {
      assert t == t[..i + 1];
    }
  }

  lemma {:induction false} CountSnoc(s: string, c: char, x: char)
    ensures Count(s + [c], x) == Count(s, x) + (if c == x then 1 else 0)
  {
    assert (s + [c])[..|s|] == s;
  }

  lemma {:induction false} AfterLastSnoc(s: string, c: char, x: char)
    ensures AfterLast(s + [c], x) == if c == x then |s| + 1 else AfterLast(s, x)
  {
    assert (s + [c])[..|s|] == s;
  }

  /** getLineColumn: counts lines and columns over the characters before
      `position`. */
  method GetLineColumn(text: string, position: int) returns (line: int, column: int)
    ensures line == LineOf(text, position) && column == ColumnOf(text, position)
  {
    line := 1;
    column := 1;
    var i := 0;
    while i < |text| && i < position
      invariant i <= |text| && (i == 0 || i <= position)
      invariant line == 1 + Count(text[..i], '\n') && column == 1 + i - AfterLast(text[..i], '\n')
    {
      assert text[..i + 1] == text[..i] + [text[i]];
      CountSnoc(text[..i], text[i], '\n');
      AfterLastSnoc(text[..i], text[i], '\n');
      if text[i] == '\n' {
        line := line + 1;
        column := 1;
      } else {
        column := column + 1;
      }
      i := i + 1;
    }
    assert Before(text, position) == text[..i];
  }

  /** Line and column start at 1, and a newline moves to column 1 of the
      next line; any other character moves one column on. */
  lemma {:induction false} LineColumnSteps(t: string, p: nat)
    ensures LineOf(t, 0) == 1 && ColumnOf(t, 0) == 1
    ensures p < |t| && t[p] == '\n' ==> LineOf(t, p + 1) == LineOf(t, p) + 1 && ColumnOf(t, p + 1) == 1
    ensures p < |t| && t[p] != '\n' ==> LineOf(t, p + 1) == LineOf(t, p) && ColumnOf(t, p + 1) == ColumnOf(t, p) + 1
  {
    if p < |t| {
      BeforeStep(t, p);
      CountSnoc(Before(t, p), t[p], '\n');
      AfterLastSnoc(Before(t, p), t[p], '\n');
    }
  }
}
