/** The string helpers the Go code takes from `strings` and `path/filepath`,
    and the JavaScript `trim`, over strings in which every character stands
    for one byte.  Whitespace is the ASCII whitespace set and case folding is
    ASCII only. */
module Text {

  predicate IsSpace(c: char)
  {
    c == ' ' || c == '\t' || c == '\n' || c == '\U{000B}' || c == '\U{000C}' || c == '\r'
  }

  /** True iff every character of `s` is whitespace (so also for ""). */
  predicate IsBlank(s: string)
  {
    forall i :: 0 <= i < |s| ==> IsSpace(s[i])
  }

  /** Every character of `s[lo..hi]` is whitespace. */
  predicate SpacesBetween(s: string, lo: nat, hi: nat)
    requires lo <= hi <= |s|
  {
    forall i :: lo <= i < hi ==> IsSpace(s[i])
  }

  /** The first position at or after `from` that holds no whitespace, or `|s|`. */
  function SkipSpaces(s: string, from: nat): (k: nat)
    requires from <= |s|
    ensures from <= k <= |s| && (k < |s| ==> !IsSpace(s[k]))
    decreases |s| - from
  {
    if from == |s| || !IsSpace(s[from]) then from else SkipSpaces(s, from + 1)
  }

  /** SkipSpaces passes over whitespace only. */
  lemma {:induction false} SkipSpacesBlank(s: string, from: nat)
    requires from <= |s|
    ensures SpacesBetween(s, from, SkipSpaces(s, from))
    decreases |s| - from
  {
    if from < |s| && IsSpace(s[from]) {
      SkipSpacesBlank(s, from + 1);
    }
  }

  /** Where the whitespace that `s[lo..hi]` ends with begins. */
  function SkipSpacesBack(s: string, lo: nat, hi: nat): (k: nat)
    requires lo <= hi <= |s|
    ensures lo <= k <= hi && (k > lo ==> !IsSpace(s[k - 1]))
    decreases hi
  {
    if hi == lo || !IsSpace(s[hi - 1]) then hi else SkipSpacesBack(s, lo, hi - 1)
  }

  /** SkipSpacesBack passes over whitespace only. */
  lemma {:induction false} SkipSpacesBackBlank(s: string, lo: nat, hi: nat)
    requires lo <= hi <= |s|
    ensures SpacesBetween(s, SkipSpacesBack(s, lo, hi), hi)
    decreases hi
  {
    if hi > lo && IsSpace(s[hi - 1]) {
      SkipSpacesBackBlank(s, lo, hi - 1);
    }
  }

  /** Where TrimSpace cuts: after the leading whitespace and before the
      trailing whitespace. */
  function TrimStart(s: string): (a: nat)
    ensures a <= |s|
  {
    SkipSpaces(s, 0)
  }

  function TrimEnd(s: string): (b: nat)
    ensures TrimStart(s) <= b <= |s|
  {
    SkipSpacesBack(s, TrimStart(s), |s|)
  }

  /** Go's strings.TrimSpace and JavaScript's String.prototype.trim. */
  function TrimSpace(s: string): (r: string)
  {
    s[TrimStart(s)..TrimEnd(s)]
  }

  /** TrimSpace cuts a blank prefix and a blank suffix off `s` and keeps the
      middle, which neither starts nor ends with whitespace. */
  lemma {:induction false} TrimSpaceShape(s: string)
    ensures var a, b := TrimStart(s), TrimEnd(s);
            && TrimSpace(s) == s[a..b] && SpacesBetween(s, 0, a) && SpacesBetween(s, b, |s|)
            && (a < b ==> !IsSpace(s[a]) && !IsSpace(s[b - 1]))
  {
    SkipSpacesBlank(s, 0);
    SkipSpacesBackBlank(s, TrimStart(s), |s|);
  }

  /** Trimming yields "" exactly for blank strings. */
  lemma {:induction false} TrimSpaceEmptyIffBlank(s: string)
    ensures TrimSpace(s) == [] <==> IsBlank(s)
  {
    TrimSpaceShape(s);
    var a, b := TrimStart(s), TrimEnd(s);
    if a < b {
      assert !IsSpace(s[a]);
    } else {
      assert forall i :: 0 <= i < |s| ==> IsSpace(s[i]);
    }
  }

  /** A string that neither starts nor ends with whitespace is its own trim. */
  lemma {:induction false} TrimSpaceOfTrimmed(t: string)
    requires t == [] || (!IsSpace(t[0]) && !IsSpace(t[|t| - 1]))
    ensures TrimSpace(t) == t
  {
    if t != [] {
      assert TrimStart(t) == 0;
      assert TrimEnd(t) == |t|;
    }
  }

  /** A trimmed string stays the same when trimmed again. */
  lemma {:induction false} TrimSpaceIdempotent(s: string)
    ensures TrimSpace(TrimSpace(s)) == TrimSpace(s)
  {
    TrimSpaceShape(s);
    var t := TrimSpace(s);
    var a := TrimStart(s);
    if t != [] {
      assert t[0] == s[a] && t[|t| - 1] == s[a + |t| - 1];
    }
    TrimSpaceOfTrimmed(t);
  }

  function LowerChar(c: char): (r: char)
  {
    if 'A' <= c <= 'Z' then (c as int + 32) as char else c
  }

  /** Go's strings.ToLower, on ASCII letters. */
  function ToLower(s: string): (r: string)
    ensures |r| == |s|
    ensures forall i :: 0 <= i < |s| ==> r[i] == LowerChar(s[i])
  {
    seq(|s|, i requires 0 <= i < |s| => LowerChar(s[i]))
  }

  predicate IsLowerCase(s: string)
  {
    forall i :: 0 <= i < |s| ==> !('A' <= s[i] <= 'Z')
  }

  lemma {:induction false} ToLowerIsLowerCase(s: string)
    ensures IsLowerCase(ToLower(s))
  {
  }

  predicate HasPrefix(s: string, prefix: string)
  {
    |prefix| <= |s| && s[..|prefix|] == prefix
  }

  /** True iff `s` holds no whitespace character. */
  predicate NoSpace(s: string)
  {
    forall i :: 0 <= i < |s| ==> !IsSpace(s[i])
  }

  /** The first whitespace position at or after `from`, or `|s|`. */
  function WordEnd(s: string, from: nat): (k: nat)
    requires from <= |s|
    ensures from <= k <= |s| && (k < |s| ==> IsSpace(s[k]))
    ensures from < |s| && !IsSpace(s[from]) ==> from < k
    decreases |s| - from
  {
    if from == |s| || IsSpace(s[from]) then from else WordEnd(s, from + 1)
  }

  /** WordEnd passes over non-whitespace only. */
  lemma {:induction false} WordEndNoSpace(s: string, from: nat)
    requires from <= |s|
    ensures NoSpace(s[from..WordEnd(s, from)])
    decreases |s| - from
  {
    if from < |s| && !IsSpace(s[from]) {
      WordEndNoSpace(s, from + 1);
      assert s[from..WordEnd(s, from)] == [s[from]] + s[from + 1..WordEnd(s, from + 1)];
    }
  }

  /** The fields of `s[from..]`. */
  function FieldsFrom(s: string, from: nat): (fs: seq<string>)
    requires from <= |s|
    decreases |s| - from
  {
    var a := SkipSpaces(s, from);
    if a == |s| then [] else
      var b := WordEnd(s, a);
      [s[a..b]] + FieldsFrom(s, b)
  }

  /** Go's strings.Fields: the maximal runs of non-whitespace, in order. */
  function Fields(s: string): (fs: seq<string>)
  {
    FieldsFrom(s, 0)
  }

  /** Every element is a non-empty run of non-whitespace characters. */
  predicate AllWords(fs: seq<string>)
  {
    forall k :: 0 <= k < |fs| ==> fs[k] != [] && NoSpace(fs[k])
  }

  lemma {:induction false} ConsWords(w: string, fs: seq<string>)
    requires w != [] && NoSpace(w) && AllWords(fs)
    ensures AllWords([w] + fs)
  {
  }

  lemma {:induction false} FieldsFromAreWords(s: string, from: nat)
    requires from <= |s|
    ensures AllWords(FieldsFrom(s, from))
    decreases |s| - from
  {
    var a := SkipSpaces(s, from);
    if a < |s| {
      var b := WordEnd(s, a);
      FieldsFromAreWords(s, b);
      WordEndNoSpace(s, a);
      ConsWords(s[a..b], FieldsFrom(s, b));
    }
  }

  /** Every field is a non-empty run of non-whitespace characters. */
  lemma {:induction false} FieldsAreWords(s: string)
    ensures AllWords(Fields(s))
  {
    FieldsFromAreWords(s, 0);
  }

  /** A blank string has no fields, and a non-blank one has at least one. */
  lemma {:induction false} FieldsEmptyIffBlank(s: string)
    ensures Fields(s) == [] <==> IsBlank(s)
  {
    SkipSpacesBlank(s, 0);
    var a := SkipSpaces(s, 0);
    if a == |s| {
      assert forall i :: 0 <= i < |s| ==> IsSpace(s[i]) by {
        assert SpacesBetween(s, 0, a);
      }
    } else {
      assert !IsSpace(s[a]);
    }
  }

  /** A trimmed string with a single field is that field. */
  lemma {:induction false} SingleFieldIsWhole(s: string)
    requires TrimSpace(s) == s && |Fields(s)| == 1
    ensures Fields(s) == [s]
  {
    var a, e := TrimStart(s), TrimEnd(s);
    assert |s| == |TrimSpace(s)| == e - a;
    assert a == 0 && e == |s|;
    var b := WordEnd(s, 0);
    assert Fields(s) == [s[0..b]] + FieldsFrom(s, b);
    FieldsFromNone(s, b);
    assert b == |s|;
    assert s[0..|s|] == s;
  }

  /** No fields are left only where only whitespace is left. */
  lemma {:induction false} FieldsFromNone(s: string, from: nat)
    requires from <= |s| && FieldsFrom(s, from) == []
    ensures SpacesBetween(s, from, |s|)
  {
    SkipSpacesBlank(s, from);
  }

  /** A string with no whitespace and at least one character is its own single field. */
  lemma {:induction false} SingleWordFields(s: string)
    requires s != [] && NoSpace(s)
    ensures Fields(s) == [s]
  {
    assert SkipSpaces(s, 0) == 0;
    WordEndAll(s, 0);
    assert FieldsFrom(s, |s|) == [];
    assert s[0..|s|] == s;
  }

  lemma {:induction false} WordEndAll(s: string, from: nat)
    requires from <= |s| && NoSpace(s)
    ensures WordEnd(s, from) == |s|
    decreases |s| - from
  {
    if from < |s| {
      WordEndAll(s, from + 1);
    }
  }

  /** JavaScript's Array.prototype.join. */
  function Join(parts: seq<string>, sep: string): (r: string)
    ensures parts == [] ==> r == []
    ensures |parts| == 1 ==> r == parts[0]
  {
    if parts == [] then []
    else if |parts| == 1 then parts[0]
    else parts[0] + sep + Join(parts[1..], sep)
  }

  /** The position just after the last occurrence of `c` in `s`, or 0. */
  function AfterLast(s: string, c: char): (k: nat)
    ensures k <= |s|
    ensures k > 0 ==> s[k - 1] == c
    ensures forall i :: k <= i < |s| ==> s[i] != c
  {
    if s == [] then 0
    else if s[|s| - 1] == c then |s|
    else AfterLast(s[..|s| - 1], c)
  }

  /** Where Go's filepath.Ext starts on a '/'-separated path: at the final
      '.' of the last path element, or at the end when that element has no
      '.'. */
  function ExtStart(path: string): (k: nat)
    ensures k <= |path|
  {
    var base := AfterLast(path, '/');
    var dot := AfterLast(path[base..], '.');
    if dot == 0 then |path| else base + dot - 1
  }

  /** Go's filepath.Ext. */
  function Ext(path: string): (e: string)
    ensures |e| <= |path| && e == path[|path| - |e|..]
  {
    path[ExtStart(path)..]
  }

  /** An extension is empty or a '.' followed by neither '.' nor '/'. */
  lemma {:induction false} ExtShape(path: string)
    ensures var e := Ext(path);
            e == [] || (e[0] == '.' && forall i :: 1 <= i < |e| ==> e[i] != '.' && e[i] != '/')
  {
    var base := AfterLast(path, '/');
    var name := path[base..];
    var dot := AfterLast(name, '.');
    if dot != 0 {
      var e := Ext(path);
      assert e == name[dot - 1..];
      assert forall i :: base <= i < |path| ==> path[i] != '/';
      assert forall i :: 1 <= i < |e| ==> e[i] == name[dot - 1 + i];
    }
  }
  lemma {:induction false} ToLowerIdempotent(s: string)
    ensures ToLower(ToLower(s)) == ToLower(s)
  {
  }

  /** AfterLast is fixed by its contract. */
  lemma {:induction false} AfterLastUnique(s: string, c: char, k: nat)
    requires k <= |s| && (k > 0 ==> s[k - 1] == c) && (forall i :: k <= i < |s| ==> s[i] != c)
    ensures AfterLast(s, c) == k
  {
    var m := AfterLast(s, c);
    assert k > 0 ==> k - 1 < m;
    assert m > 0 ==> m - 1 < k;
  }

  /** Lower-casing keeps every character below 'A' where it was. */
  lemma {:induction false} AfterLastLower(s: string, c: char)
    requires c < 'A'
    ensures AfterLast(ToLower(s), c) == AfterLast(s, c)
  {
    var k := AfterLast(s, c);
    var t := ToLower(s);
    assert forall i :: 0 <= i < |s| ==> (t[i] == c <==> s[i] == c);
    AfterLastUnique(t, c, k);
  }

  lemma {:induction false} ToLowerSuffix(s: string, a: nat)
    requires a <= |s|
    ensures ToLower(s)[a..] == ToLower(s[a..])
  {
  }

  /** The extension of a lower-cased path is the lower-cased extension. */
  lemma {:induction false} ExtLower(path: string)
    ensures Ext(ToLower(path)) == ToLower(Ext(path))
  {
    AfterLastLower(path, '/');
    var base := AfterLast(path, '/');
    ToLowerSuffix(path, base);
    AfterLastLower(path[base..], '.');
    assert ExtStart(ToLower(path)) == ExtStart(path);
    ToLowerSuffix(path, ExtStart(path));
  }

  /** Looking up the lower-cased extension does not depend on the case of
      the path. */
  lemma {:induction false} LowerExtIgnoresCase(path: string)
    ensures ToLower(Ext(ToLower(path))) == ToLower(Ext(path))
  {
    ExtLower(path);
    ToLowerIdempotent(Ext(path));
  }
}
