/**
 Properties of the case converter that relate several of its operations:
 what each renderer's output is classified as, which renderers are
 idempotent or leave a word of their own convention alone, and that
 tokenizing a rendered token sequence gives the tokens back.
 */
module ChcProperties {
  import opened Strings
  import opened Chc

  // ------------------------------------------------ snake_case, UPPER_CASE, lisp-case

  /** toSnake's output is lower-case and has no hyphen, so it is classified snake_case. */
  lemma SnakeCaseIsSnake(word: string)
    ensures NoUpper(SnakeCase(word)) && '-' !in SnakeCase(word)
    ensures DetermineCase(SnakeCase(word)) == Snake
  {
    var ts := Tokens(word);
    JoinNoUpper(ts, '_');
    JoinChars(ts, '_', '-');
  }

  /** toSnake leaves a word that is already snake_case unchanged: it splits it on '_' and joins it again. */
  lemma SnakeCaseFixesSnakeWords(word: string)
    requires DetermineCase(word) == Snake
    ensures SnakeCase(word) == word
  {
    JoinSplit(word, '_');
  }

  lemma SnakeCaseIdempotent(word: string)
    ensures SnakeCase(SnakeCase(word)) == SnakeCase(word)
  {
    SnakeCaseIsSnake(word);
    SnakeCaseFixesSnakeWords(SnakeCase(word));
  }

  /** toUpper is toSnake upper-cased: it has no lower-case letter, and lower-casing it gives toSnake's output. */
  lemma UpperCaseIsUpperSnake(word: string)
    ensures NoLower(UpperCase(word))
    ensures ToLower(UpperCase(word)) == SnakeCase(word)
  {
    var s := SnakeCase(word);
    SnakeCaseIsSnake(word);
    LowerOfUpper(s);
    LowerFixedIff(s);
    assert forall i :: 0 <= i < |s| ==> !IsLower(ToUpper(s)[i]);
  }

  /** toUpper leaves a word that is already UPPER_CASE unchanged. */
  lemma UpperCaseFixesUpperWords(word: string)
    requires DetermineCase(word) == Upper
    ensures UpperCase(word) == word
  {
    JoinSplit(ToLower(word), '_');
    UpperOfLower(word);
    UpperFixedIff(word);
  }

  lemma UpperCaseIdempotent(word: string)
    ensures UpperCase(UpperCase(word)) == UpperCase(word)
  {
    var s := SnakeCase(word);
    var u := UpperCase(word);
    SnakeCaseIsSnake(word);
    UpperCaseIsUpperSnake(word);
    UpperKeepsNonLetter(s, '-');
    if NoUpper(u) {
      assert DetermineCase(u) == Snake;
      JoinSplit(u, '_');
      UpperFixedIff(u);
    } else {
      assert DetermineCase(u) == Upper;
      UpperCaseFixesUpperWords(u);
    }
  }

  /** toLisp of a word with a hyphen is the lower-cased word: it splits on '-' and joins on '-'. */
  lemma LispCaseOfHyphenated(word: string)
    requires '-' in word
    ensures LispCase(word) == ToLower(word)
  {
    JoinSplit(ToLower(word), '-');
  }

  /** toCamel and toPascal keep the letters of a camelCase or PascalCase word and change only their case. */
  lemma MixedCaseRenderKeepsLetters(word: string)
    requires DetermineCase(word) in {Camel, Pascal}
    ensures ToLower(CamelCase(word)) == ToLower(word)
    ensures ToLower(PascalCase(word)) == ToLower(word)
  {
    ScannedTokensRejoin(word);
    CamelJoinLetters(Tokens(word));
    PascalJoinLetters(Tokens(word));
    ToLowerIdempotent(word);
  }

  // --------------------------------------------------------------- round trips

  /** Tokens as the tokenizer produces them that also contain no underscore. */
  predicate PlainTokens(ts: seq<string>) {
    |ts| >= 1 && forall t :: t in ts ==> NoUpper(t) && '_' !in t && '-' !in t
  }

  /** Tokenizing the snake_case rendering of plain tokens gives them back. */
  lemma SnakeRoundTrip(ts: seq<string>)
    requires PlainTokens(ts)
    ensures Tokens(Join(ts, '_')) == ts
  {
    var j := Join(ts, '_');
    JoinNoUpper(ts, '_');
    JoinChars(ts, '_', '-');
    assert DetermineCase(j) == Snake;
    SplitJoin(ts, '_');
  }

  /** Tokenizing the lisp-case rendering of plain tokens gives them back. */
  lemma LispRoundTrip(ts: seq<string>)
    requires PlainTokens(ts)
    ensures Tokens(Join(ts, '-')) == ts
  {
    var j := Join(ts, '-');
    JoinNoUpper(ts, '-');
    if |ts| == 1 {
      assert ts[0] in ts;
      assert DetermineCase(j) == Snake;
      assert Join(ts, '_') == j;
      SplitJoin(ts, '_');
    } else {
      assert j[|ts[0]|] == '-';
      assert DetermineCase(j) == Lisp;
      LowerFixedIff(j);
      SplitJoin(ts, '-');
    }
  }

  /** Tokenizing the UPPER_CASE rendering of plain tokens gives them back. */
  lemma UpperRoundTrip(ts: seq<string>)
    requires PlainTokens(ts)
    ensures Tokens(ToUpper(Join(ts, '_'))) == ts
  {
    var j := Join(ts, '_');
    var u := ToUpper(j);
    JoinNoUpper(ts, '_');
    JoinChars(ts, '_', '-');
    UpperKeepsNonLetter(j, '-');
    SplitJoin(ts, '_');
    assert NoLower(u) by {
      assert forall i :: 0 <= i < |j| ==> !IsLower(u[i]);
    }
    if NoUpper(u) {
      assert DetermineCase(u) == Snake;
      assert NoLower(j) by {
        assert forall i :: 0 <= i < |j| ==> u[i] == UpperChar(j[i]) && !IsUpper(u[i]);
      }
      UpperFixedIff(j);
    } else {
      assert DetermineCase(u) == Upper;
      LowerOfUpper(j);
      LowerFixedIff(j);
    }
  }

  /** Re-tokenizing the snake_case, lisp-case or UPPER_CASE rendering of a word gives the
      word's own tokens, provided none of them holds an underscore. */
  lemma RenderedTokensRoundTrip(word: string)
    requires forall t :: t in Tokens(word) ==> '_' !in t
    ensures Tokens(SnakeCase(word)) == Tokens(word)
    ensures Tokens(LispCase(word)) == Tokens(word)
    ensures Tokens(UpperCase(word)) == Tokens(word)
  {
    var ts := Tokens(word);
    assert PlainTokens(ts);
    SnakeRoundTrip(ts);
    LispRoundTrip(ts);
    UpperRoundTrip(ts);
  }

  // --------------------------------------- round trips through the camelCase/PascalCase scan

  /** The scan's state after n runes depends only on those n runes. */
  lemma {:induction false} SegmentsPrefix(w: string, v: string, n: nat)
    requires 1 <= n <= |w| && n <= |v|
    requires w[..n] == v[..n]
    ensures Segments(w, n) == Segments(v, n)
    decreases n
  {
    assert forall k :: 0 <= k < n ==> w[k] == w[..n][k] == v[..n][k] == v[k];
    if n > 1 {
      assert w[..n - 1] == v[..n - 1];
      SegmentsPrefix(w, v, n - 1);
      assert IsBoundary(w, n - 1) == IsBoundary(v, n - 1);
    }
  }

  /** Without a boundary among the first n runes the scan holds one token: the lower-cased prefix. */
  lemma {:induction false} SegmentsFirstToken(w: string, n: nat)
    requires 1 <= n <= |w|
    requires forall k :: 0 < k < n ==> !IsBoundary(w, k)
    ensures Segments(w, n) == [ToLower(w[..n])]
    decreases n
  {
    LowerPrefixStep(w, n);
    if n > 1 {
      SegmentsFirstToken(w, n - 1);
    } else {
      assert Segments(w, 1) == [[LowerChar(w[0])]];
      assert ToLower(w[..1]) == [LowerChar(w[0])];
    }
  }

  /** A boundary at m followed by none up to n: the scan has opened a token at m holding the lower-cased runes m..n. */
  lemma {:induction false} SegmentsNewToken(w: string, m: nat, n: nat)
    requires 1 <= m < n <= |w|
    requires IsBoundary(w, m)
    requires forall k :: m < k < n ==> !IsBoundary(w, k)
    ensures Segments(w, n) == Segments(w, m) + [ToLower(w[m..n])]
    decreases n
  {
    if n == m + 1 {
      SegmentsOpen(w, m);
    } else {
      SegmentsNewToken(w, m, n - 1);
      SegmentsGrow(w, m, n);
    }
  }

  /** A boundary at m opens a token holding rune m alone. */
  lemma SegmentsOpen(w: string, m: nat)
    requires 1 <= m < |w|
    requires IsBoundary(w, m)
    ensures Segments(w, m + 1) == Segments(w, m) + [ToLower(w[m..m + 1])]
  {
    assert ToLower(w[m..m + 1]) == [LowerChar(w[m])];
  }

  /** A rune that is not a boundary extends the token opened at m. */
  lemma SegmentsGrow(w: string, m: nat, n: nat)
    requires 1 <= m < n - 1 && n <= |w|
    requires !IsBoundary(w, n - 1)
    requires Segments(w, n - 1) == Segments(w, m) + [ToLower(w[m..n - 1])]
    ensures Segments(w, n) == Segments(w, m) + [ToLower(w[m..n])]
  {
    var p := Segments(w, n - 1);
    var c := LowerChar(w[n - 1]);
    assert p[..|p| - 1] == Segments(w, m);
    assert p[|p| - 1] == ToLower(w[m..n - 1]);
    assert Segments(w, n) == Segments(w, m) + [ToLower(w[m..n - 1]) + [c]];
    assert w[m..n] == w[m..n - 1] + [w[n - 1]];
    ToLowerAppend(w[m..n - 1], [w[n - 1]]);
    assert ToLower([w[n - 1]]) == [c];
  }

  /** Each segment lower-cased. */
  function Lowered(segs: seq<string>): (r: seq<string>)
    ensures |r| == |segs|
  {
    seq(|segs|, j requires 0 <= j < |segs| => ToLower(segs[j]))
  }

  /** Segments that the scan recovers from their concatenation: each is non-empty; every one
      after the first starts with an upper-case letter; no other character of any segment is
      upper-case, except possibly the first one of the first segment; and no segment but the last
      ends with an upper-case letter. */
  predicate ScannableSegments(segs: seq<string>) {
    && |segs| >= 1
    && (forall j :: 0 <= j < |segs| ==> segs[j] != [])
    && (forall j :: 1 <= j < |segs| ==> segs[j] != [] && IsUpper(segs[j][0]))
    && (forall j, k :: 0 <= j < |segs| && 1 <= k < |segs[j]| ==> !IsUpper(segs[j][k]))
    && (forall j :: 0 <= j < |segs| - 1 ==> segs[j] != [] && !IsUpper(segs[j][|segs[j]| - 1]))
  }

  /** Where a segment without inner capitals is appended after a text that does not end with
      a capital, the scan sees a boundary at the junction and none inside the segment. */
  lemma Junction(c: string, s: string)
    requires c != [] && s != []
    requires !IsUpper(c[|c| - 1]) && IsUpper(s[0])
    requires forall k :: 1 <= k < |s| ==> !IsUpper(s[k])
    ensures IsBoundary(c + s, |c|)
    ensures forall k :: |c| < k < |c + s| ==> !IsBoundary(c + s, k)
  {
    var w := c + s;
    forall k | |c| < k < |w| ensures !IsBoundary(w, k) {
      assert w[k] == s[k - |c|];
    }
  }

  /** The last character of a concatenation is the last character of its last piece. */
  lemma ConcatLastChar(ts: seq<string>)
    requires |ts| >= 1 && ts[|ts| - 1] != []
    ensures |Concat(ts)| >= 1
    ensures Concat(ts)[|Concat(ts)| - 1] == ts[|ts| - 1][|ts[|ts| - 1]| - 1]
  {
    var last := ts[|ts| - 1];
    assert Concat(ts) == Concat(ts[..|ts| - 1]) + last;
  }

  /** A lone segment without inner capitals is scanned as one token. */
  lemma ScanOneSegment(s: string)
    requires s != []
    requires forall k :: 1 <= k < |s| ==> !IsUpper(s[k])
    ensures Segments(s, |s|) == [ToLower(s)]
  {
    SegmentsFirstToken(s, |s|);
    assert s[..|s|] == s;
  }

  /** Appending a segment that starts with a capital and has no other, after a text that does
      not end with a capital, adds exactly that segment, lower-cased, as one more token. */
  lemma ScanAppendSegment(c: string, s: string)
    requires c != [] && s != []
    requires !IsUpper(c[|c| - 1]) && IsUpper(s[0])
    requires forall k :: 1 <= k < |s| ==> !IsUpper(s[k])
    ensures Segments(c + s, |c + s|) == Segments(c, |c|) + [ToLower(s)]
  {
    var w := c + s;
    Junction(c, s);
    SegmentsNewToken(w, |c|, |w|);
    assert w[..|c|] == c[..|c|];
    SegmentsPrefix(w, c, |c|);
    assert w[|c|..|w|] == s;
  }

  /** Dropping the last of several scannable segments leaves scannable segments, the last
      of which does not end with a capital; the dropped one has no inner capital. */
  lemma {:induction false} ScannableInit(segs: seq<string>)
    requires ScannableSegments(segs) && |segs| >= 2
    ensures ScannableSegments(segs[..|segs| - 1])
    ensures var init := segs[..|segs| - 1]; !IsUpper(init[|init| - 1][|init[|init| - 1]| - 1])
  {
    var init := segs[..|segs| - 1];
    assert forall j :: 0 <= j < |init| ==> init[j] == segs[j];
  }

  /** The last scannable segment is non-empty and has no capital after its first character. */
  lemma {:induction false} ScannableLast(segs: seq<string>, s: string)
    requires ScannableSegments(segs) && s == segs[|segs| - 1]
    ensures s != []
    ensures forall k :: 1 <= k < |s| ==> !IsUpper(s[k])
    ensures |segs| >= 2 ==> IsUpper(s[0])
  {
  }

  lemma {:induction false} LoweredSnoc(segs: seq<string>)
    requires |segs| >= 1
    ensures Lowered(segs) == Lowered(segs[..|segs| - 1]) + [ToLower(segs[|segs| - 1])]
  {
  }

  /** The scan cuts a concatenation of scannable segments exactly between the segments. */
  lemma {:induction false} SegmentsOfConcat(segs: seq<string>)
    requires ScannableSegments(segs)
    ensures |Concat(segs)| >= 1
    ensures Segments(Concat(segs), |Concat(segs)|) == Lowered(segs)
    decreases |segs|
  {
    var init, s := segs[..|segs| - 1], segs[|segs| - 1];
    var c := Concat(init);
    assert Concat(segs) == c + s;
    ScannableLast(segs, s);
    LoweredSnoc(segs);
    if |segs| == 1 {
      assert c == [] && c + s == s;
      assert init == [];
      ScanOneSegment(s);
    } else {
      assert Segments(c, |c|) == Lowered(init) && |c| >= 1 && !IsUpper(c[|c| - 1]) by {
        ScannableInit(segs);
        SegmentsOfConcat(init);
        ConcatLastChar(init);
      }
      ScanAppendSegment(c, s);
    }
  }

  /** A token made only of lower-case letters. */
  predicate LetterToken(t: string) {
    forall i :: 0 <= i < |t| ==> IsLower(t[i])
  }

  lemma {:induction false} ConcatLetterTokens(ts: seq<string>)
    requires forall t :: t in ts ==> LetterToken(t)
    ensures LetterToken(Concat(ts))
    decreases |ts|
  {
    if ts != [] {
      var init, last := ts[..|ts| - 1], ts[|ts| - 1];
      assert forall t :: t in init ==> t in ts;
      ConcatLetterTokens(init);
      assert last in ts;
    }
  }

  /** A word whose lower-cased form consists of lower-case letters has no hyphen. */
  lemma LettersHaveNoHyphen(w: string, ts: seq<string>)
    requires ToLower(w) == Concat(ts)
    requires forall t :: t in ts ==> LetterToken(t)
    ensures '-' !in w
  {
    ConcatLetterTokens(ts);
    LowerKeepsNonLetter(w, '-');
  }

  /** Each token title-cased. */
  function Titled(ts: seq<string>): (r: seq<string>)
    ensures |r| == |ts|
  {
    seq(|ts|, j requires 0 <= j < |ts| => Title(ts[j]))
  }

  /** toPascal's builder writes the title-cased tokens one after the other. */
  lemma {:induction false} PascalJoinIsConcat(ts: seq<string>)
    ensures PascalJoin(ts) == Concat(Titled(ts))
    decreases |ts|
  {
    if ts != [] {
      var init := ts[..|ts| - 1];
      PascalJoinIsConcat(init);
      assert Titled(ts)[..|ts| - 1] == Titled(init);
    }
  }

  /** Title-cased tokens of at least two lower-case letters are scannable segments, and
      lower-casing them gives the tokens back. */
  lemma {:induction false} TitledSegments(ts: seq<string>)
    requires forall t :: t in ts ==> |t| >= 2 && LetterToken(t)
    ensures forall j :: 0 <= j < |ts| ==> |Titled(ts)[j]| >= 2 && IsUpper(Titled(ts)[j][0])
    ensures forall j, k :: 0 <= j < |ts| && 1 <= k < |Titled(ts)[j]| ==> Titled(ts)[j][k] == ts[j][k] && IsLower(ts[j][k])
    ensures Lowered(Titled(ts)) == ts
  {
    forall j | 0 <= j < |ts| ensures ToLower(Titled(ts)[j]) == ts[j] {
      assert ts[j] in ts;
      LowerFixedIff(ts[j]);
    }
  }

  /** For a camelCase or PascalCase word the tokens are what the scan produces. */
  lemma {:induction false} ScannedWordTokens(w: string)
    requires DetermineCase(w) in {Camel, Pascal}
    ensures Tokens(w) == Segments(w, |w|)
  {
    MixedCaseWordIsLong(w);
  }

  /** A word whose lower-cased form is a concatenation of letter tokens, and which has an
      upper-case letter at i and a lower-case one at j, is classified by its first character. */
  lemma {:induction false} MixedLetterWordCase(w: string, ts: seq<string>, i: nat, j: nat)
    requires ToLower(w) == Concat(ts)
    requires forall t :: t in ts ==> LetterToken(t)
    requires i < |w| && j < |w| && IsUpper(w[i]) && IsLower(w[j])
    ensures DetermineCase(w) == if IsLower(w[0]) then Camel else Pascal
  {
    LettersHaveNoHyphen(w, ts);
  }

  /** Title-cased tokens of at least two lower-case letters are scannable segments. */
  lemma {:induction false} TitledScannable(ts: seq<string>)
    requires |ts| >= 1
    requires forall t :: t in ts ==> |t| >= 2 && LetterToken(t)
    ensures ScannableSegments(Titled(ts))
  {
    var segs := Titled(ts);
    TitledSegments(ts);
    forall j | 0 <= j < |segs| - 1 ensures !IsUpper(segs[j][|segs[j]| - 1]) {
      assert segs[j][|segs[j]| - 1] == ts[j][|segs[j]| - 1];
    }
  }

  lemma {:induction false} PascalSegments(ts: seq<string>)
    requires |ts| >= 1
    requires forall t :: t in ts ==> |t| >= 2 && LetterToken(t)
    ensures Segments(PascalJoin(ts), |PascalJoin(ts)|) == ts
    ensures |PascalJoin(ts)| >= 2 && IsUpper(PascalJoin(ts)[0]) && IsLower(PascalJoin(ts)[1])
  {
    var segs := Titled(ts);
    PascalJoinIsConcat(ts);
    TitledScannable(ts);
    SegmentsOfConcat(segs);
    assert Lowered(segs) == ts by { TitledSegments(ts); }
    ConcatCons(segs);
    assert |segs[0]| >= 2 && IsUpper(segs[0][0]) && IsLower(segs[0][1]) by {
      TitledSegments(ts);
    }
  }

  /** Tokenizing the PascalCase rendering of tokens made of at least two lower-case letters
      gives them back. (A one-letter token is not capitalised by title, so it would merge with
      its predecessor.) */
  lemma {:induction false} PascalRoundTrip(ts: seq<string>)
    requires |ts| >= 1
    requires forall t :: t in ts ==> |t| >= 2 && LetterToken(t)
    ensures Tokens(PascalJoin(ts)) == ts
  {
    var w := PascalJoin(ts);
    PascalSegments(ts);
    PascalJoinLetters(ts);
    ConcatLetterTokens(ts);
    LowerFixedIff(Concat(ts));
    MixedLetterWordCase(w, ts, 0, 1);
    ScannedWordTokens(w);
  }

  /** A segment without inner capitals that does not end with one can be put in front of
      scannable segments that start with a capital. */
  lemma {:induction false} ScannableCons(s: string, segs: seq<string>)
    requires s != [] && !IsUpper(s[|s| - 1])
    requires forall k :: 1 <= k < |s| ==> !IsUpper(s[k])
    requires ScannableSegments(segs) && IsUpper(segs[0][0])
    ensures ScannableSegments([s] + segs)
    ensures Lowered([s] + segs) == [ToLower(s)] + Lowered(segs)
  {
    var r := [s] + segs;
    assert forall j :: 1 <= j < |r| ==> r[j] == segs[j - 1];
  }

  /** toCamel's builder writes the first token, then the later ones title-cased. */
  lemma {:induction false} CamelJoinIsConcat(first: string, rest: seq<string>)
    requires |rest| >= 1
    ensures CamelJoin([first] + rest) == Concat([first] + Titled(rest))
  {
    var ts := [first] + rest;
    var segs := [first] + Titled(rest);
    assert ts[0] == first && ts[1..] == rest;
    PascalJoinIsConcat(rest);
    assert segs[0] == first && segs[1..] == Titled(rest);
    ConcatCons(segs);
  }

  lemma {:induction false} CamelSegments(first: string, rest: seq<string>)
    requires first != [] && LetterToken(first)
    requires |rest| >= 1
    requires forall t :: t in rest ==> |t| >= 2 && LetterToken(t)
    ensures Segments(Concat([first] + Titled(rest)), |Concat([first] + Titled(rest))|) == [first] + rest
  {
    var tl := Titled(rest);
    var segs := [first] + tl;
    assert IsUpper(tl[0][0]) && Lowered(tl) == rest by {
      TitledScannable(rest);
      TitledSegments(rest);
    }
    TitledScannable(rest);
    LowerFixedIff(first);
    ScannableCons(first, tl);
    SegmentsOfConcat(segs);
  }

  /** The camelCase rendering starts with the first token, lower-case, and has a capital
      right after it. */
  lemma {:induction false} CamelJunction(first: string, rest: seq<string>)
    requires first != [] && LetterToken(first)
    requires |rest| >= 1
    requires forall t :: t in rest ==> |t| >= 2 && LetterToken(t)
    ensures |Concat([first] + Titled(rest))| > |first|
    ensures IsLower(Concat([first] + Titled(rest))[0])
    ensures IsUpper(Concat([first] + Titled(rest))[|first|])
  {
    var tl := Titled(rest);
    var segs := [first] + tl;
    assert segs[0] == first && segs[1..] == tl;
    ConcatCons(segs);
    ConcatCons(tl);
    assert IsUpper(tl[0][0]) by { TitledSegments(rest); }
  }

  /** A single non-empty token of lower-case letters is its own camelCase rendering and is
      tokenized as itself. */
  lemma {:induction false} SingleTokenRoundTrip(t: string)
    requires t != [] && LetterToken(t)
    ensures Tokens(CamelJoin([t])) == [t]
  {
    LowerFixedIff(t);
    assert DetermineCase(t) == Snake;
    SplitJoin([t], '_');
  }

  /** The camelCase rendering of several tokens is classified camelCase and scanned back. */
  lemma {:induction false} ManyTokenCamelRoundTrip(first: string, rest: seq<string>)
    requires first != [] && LetterToken(first)
    requires |rest| >= 1
    requires forall t :: t in rest ==> |t| >= 2 && LetterToken(t)
    ensures Tokens(CamelJoin([first] + rest)) == [first] + rest
  {
    var ts := [first] + rest;
    var w := CamelJoin(ts);
    CamelJoinIsConcat(first, rest);
    CamelSegments(first, rest);
    CamelJunction(first, rest);
    assert ToLower(w) == Concat(ts) by {
      CamelJoinLetters(ts);
      assert forall t :: t in ts ==> LetterToken(t);
      ConcatLetterTokens(ts);
      LowerFixedIff(Concat(ts));
    }
    assert DetermineCase(w) == Camel by {
      assert forall t :: t in ts ==> LetterToken(t);
      MixedLetterWordCase(w, ts, |first|, 0);
    }
    ScannedWordTokens(w);
  }

  /** Tokenizing the camelCase rendering of tokens gives them back, when the first is made of
      lower-case letters and every later one of at least two. */
  lemma {:induction false} CamelRoundTrip(ts: seq<string>)
    requires |ts| >= 1 && ts[0] != [] && LetterToken(ts[0])
    requires forall j :: 1 <= j < |ts| ==> |ts[j]| >= 2 && LetterToken(ts[j])
    ensures Tokens(CamelJoin(ts)) == ts
  {
    if |ts| == 1 {
      assert ts == [ts[0]];
      SingleTokenRoundTrip(ts[0]);
    } else {
      assert ts == [ts[0]] + ts[1..];
      assert forall t :: t in ts[1..] ==> |t| >= 2 && LetterToken(t);
      ManyTokenCamelRoundTrip(ts[0], ts[1..]);
    }
  }

  // ------------------------------------------------------------------ ChangeCase

  /** The option is matched without regard to its case. */
  lemma {:induction false} ChangeCaseIgnoresOptionCase(opt: string, word: string)
    ensures ChangeCase(ToUpper(opt), word) == ChangeCase(opt, word)
    ensures ChangeCase(ToLower(opt), word) == ChangeCase(opt, word)
  {
    LowerOfUpper(opt);
    ToLowerIdempotent(opt);
  }

  /** What ChangeCase writes, by option, options being compared after lower-casing: for
      "u" or "upper", toUpper of the word, which has no lower-case letters; for "l" or "lisp",
      toLisp of the word, whose hyphen-separated pieces are the word's tokens; for "c" or
      "camel", toCamel of the word, and for "p" or "pascal", toPascal of the word, whose letters,
      lower-cased, are the tokens written one after the other; and, for "s", "snake" and every
      option it does not recognise, toSnake of the word, which is classified snake_case.
      The snake_case and UPPER_CASE outputs are left unchanged by converting them again with
      the same option. */
  lemma {:induction false} ChangeCaseOutput(opt: string, word: string)
    ensures var o, r := ToLower(opt), ChangeCase(opt, word);
      (o == "u" || o == "upper") ==>
        r == UpperCase(word) && NoLower(r) && ToLower(r) == SnakeCase(word) && ChangeCase(opt, r) == r
    ensures var o, r := ToLower(opt), ChangeCase(opt, word);
      (o == "l" || o == "lisp") ==> r == LispCase(word) && NoUpper(r) && Split(r, '-') == Tokens(word)
    ensures var o, r := ToLower(opt), ChangeCase(opt, word);
      (o == "c" || o == "camel") ==> r == CamelCase(word) && ToLower(r) == Concat(Tokens(word))
    ensures var o, r := ToLower(opt), ChangeCase(opt, word);
      (o == "p" || o == "pascal") ==> r == PascalCase(word) && ToLower(r) == Concat(Tokens(word))
    ensures var o, r := ToLower(opt), ChangeCase(opt, word);
      !(o in ["u", "upper", "l", "lisp", "c", "camel", "p", "pascal"]) ==>
        r == SnakeCase(word) && DetermineCase(r) == Snake && ChangeCase(opt, r) == r
  {
    match OptionCase(ToLower(opt))
    case Upper =>
      UpperCaseIdempotent(word);
    case Snake =>
      SnakeCaseIsSnake(word);
      SnakeCaseIdempotent(word);
    case _ =>
  }
}
