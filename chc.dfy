/**
 chc, the identifier case converter: it classifies a word as snake_case,
 UPPER_CASE, camelCase, PascalCase or lisp-case, splits it into lower-case
 tokens according to that classification, and joins the tokens again in the
 convention the user asked for. Case rules are ASCII.
 */
module Chc {
  import opened Strings

  /** The five conventions; main.go names them with the string constants SNAKE, UPPER, CAMEL, PASCAL and LISP. */
  datatype Case = Snake | Upper | Camel | Pascal | Lisp

  // ---------------------------------------------------------------- classifier

  /** determineCase: a hyphen makes a word lisp-case; otherwise a word that is its own
      lower-case form is snake_case, one that is its own upper-case form is UPPER_CASE,
      and the first character decides between camelCase and PascalCase.
      The contract characterises each convention by the word's characters: a hyphen, the
      absence of upper-case or of lower-case letters, and the case of the first character. */
  function DetermineCase(word: string): (c: Case)
    ensures c == Lisp <==> '-' in word
    ensures c == Snake <==> '-' !in word && NoUpper(word)
    ensures c == Upper <==> '-' !in word && !NoUpper(word) && NoLower(word)
    ensures c == Camel <==> '-' !in word && !NoUpper(word) && !NoLower(word) && |word| > 0 && IsLower(word[0])
    ensures c == Pascal <==> '-' !in word && !NoUpper(word) && !NoLower(word) && |word| > 0 && !IsLower(word[0])
  {
    LowerFixedIff(word);
    UpperFixedIff(word);
    if '-' in word then Lisp
    else if word == ToLower(word) then Snake
    else if word == ToUpper(word) then Upper
    else if IsLower(word[0]) then Camel
    else Pascal
  }

  /** A word classified camelCase or PascalCase has an upper-case and a lower-case letter,
      so it has at least two characters: the scan's one-rune shortcut is never taken for it,
      and the first-character test of the classifier only ever looks at a non-empty word. */
  lemma MixedCaseWordIsLong(word: string)
    requires DetermineCase(word) == Camel || DetermineCase(word) == Pascal
    ensures |word| >= 2
  {
    var i :| 0 <= i < |word| && IsUpper(word[i]);
    var j :| 0 <= j < |word| && IsLower(word[j]);
    assert i != j;
  }

  // ------------------------------------------------ the camelCase/PascalCase scan

  /** Where the scan starts a new token: at an upper-case rune whose predecessor is not upper-case.
      Inside a run of capitals there is no boundary. */
  predicate IsBoundary(w: string, i: int) {
    1 <= i < |w| && IsUpper(w[i]) && !IsUpper(w[i - 1])
  }

  /** The boundaries among the first n runes of w. */
  function Boundaries(w: string, n: int): set<int> {
    set k | 0 < k < n && IsBoundary(w, k)
  }

  /** The offsets in Concat(ts) at which the second, third, ... token starts. */
  function Cuts(ts: seq<string>): set<int>
  {
    if |ts| <= 1 then {} else Cuts(ts[..|ts| - 1]) + {|Concat(ts[..|ts| - 1])|}
  }

  /** The tokens the scan holds after reading the first n runes of w: the ones it has
      already emitted, followed by the one it is still extending, all lower-cased. */
  function Segments(w: string, n: nat): (ts: seq<string>)
    requires 1 <= n <= |w|
    ensures 1 <= |ts| <= n
    decreases n
  {
    if n == 1 then [[LowerChar(w[0])]]
    else
      var ts := Segments(w, n - 1);
      if IsBoundary(w, n - 1) then ts + [[LowerChar(w[n - 1])]]
      else ts[..|ts| - 1] + [ts[|ts| - 1] + [LowerChar(w[n - 1])]]
  }

  /** Lower-casing one more rune of a prefix appends its lower-case form. */
  lemma {:induction false} LowerPrefixStep(w: string, n: nat)
    requires 1 <= n <= |w|
    ensures ToLower(w[..n]) == ToLower(w[..n - 1]) + [LowerChar(w[n - 1])]
  {
    assert w[..n] == w[..n - 1] + [w[n - 1]];
    ToLowerAppend(w[..n - 1], [w[n - 1]]);
  }

  /** Extending the last token by one character extends the concatenation by that character. */
  lemma {:induction false} ConcatExtendLast(p: seq<string>, c: char)
    requires |p| >= 1
    ensures Concat(p[..|p| - 1] + [p[|p| - 1] + [c]]) == Concat(p) + [c]
  {
    var q, l := p[..|p| - 1], p[|p| - 1];
    assert p == q + [l];
    ConcatAppend(q, l + [c]);
    ConcatAppend(q, l);
  }

  /** The camelCase/PascalCase branch of tokenize: a word shorter than two runes is its
      own single token (unchanged); otherwise the word is cut at its boundaries. */
  function CamelSplit(w: string): (ts: seq<string>)
    ensures |ts| >= 1
    ensures |w| >= 1 ==> |ts| <= |w|
    ensures |w| >= 2 ==> Concat(ts) == ToLower(w)
  {
    if |w| < 2 then [w]
    else
      SegmentsConcat(w, |w|);
      assert w[..|w|] == w;
      Segments(w, |w|)
  }

  /** The scan's tokens concatenate to the lower-cased prefix it has read. */
  lemma {:induction false} SegmentsConcat(w: string, n: nat)
    requires 1 <= n <= |w|
    ensures Concat(Segments(w, n)) == ToLower(w[..n])
    decreases n
  {
    LowerPrefixStep(w, n);
    if n == 1 {
      ConcatAppend([], [LowerChar(w[0])]);
    } else {
      var p := Segments(w, n - 1);
      SegmentsConcat(w, n - 1);
      var c := LowerChar(w[n - 1]);
      if IsBoundary(w, n - 1) {
        ConcatAppend(p, [c]);
      } else {
        ConcatExtendLast(p, c);
      }
    }
  }

  /** A token of the scan starts at offset k >= 1 exactly when k is a boundary. */
  lemma {:induction false} SegmentsCuts(w: string, n: nat)
    requires 1 <= n <= |w|
    ensures Cuts(Segments(w, n)) == Boundaries(w, n)
    decreases n
  {
    if n == 1 {
      assert Boundaries(w, 1) == {};
    } else {
      var p := Segments(w, n - 1);
      SegmentsCuts(w, n - 1);
      SegmentsConcat(w, n - 1);
      var c := LowerChar(w[n - 1]);
      BoundariesStep(w, n);
      assert |Concat(p)| == n - 1;
      if IsBoundary(w, n - 1) {
        assert Segments(w, n) == p + [[c]];
        CutsAppend(p, [c]);
        assert Boundaries(w, n) == Boundaries(w, n - 1) + {n - 1};
      } else {
        assert Segments(w, n) == p[..|p| - 1] + [p[|p| - 1] + [c]];
        CutsExtendLast(p, c);
        assert Boundaries(w, n) == Boundaries(w, n - 1);
      }
    }
  }

  lemma {:induction false} BoundariesStep(w: string, n: nat)
    requires 1 <= n <= |w|
    ensures Boundaries(w, n) == Boundaries(w, n - 1) + (if IsBoundary(w, n - 1) then {n - 1} else {})
  {
  }

  lemma {:induction false} CutsAppend(p: seq<string>, t: string)
    requires |p| >= 1
    ensures Cuts(p + [t]) == Cuts(p) + {|Concat(p)|}
  {
    assert (p + [t])[..|p|] == p;
  }

  lemma {:induction false} CutsExtendLast(p: seq<string>, c: char)
    requires |p| >= 1
    ensures Cuts(p[..|p| - 1] + [p[|p| - 1] + [c]]) == Cuts(p)
  {
    var q, l := p[..|p| - 1], p[|p| - 1];
    assert p == q + [l];
    var ts := q + [l + [c]];
    assert ts[..|ts| - 1] == q;
    assert p[..|p| - 1] == q;
  }

  /** A token of the scan's result for a word with lower-cased form lw. */
  predicate ScannedToken(t: string, lw: string) {
    t != [] && NoUpper(t) && forall ch :: ch in t ==> ch in lw
  }

  /** A scanned token extended by a character of the lower-cased word that is not upper-case
      is still a scanned token. */
  lemma {:induction false} ScannedTokenExtend(l: string, c: char, lw: string)
    requires ScannedToken(l, lw) && !IsUpper(c) && c in lw
    ensures ScannedToken(l + [c], lw)
  {
    assert forall i :: 0 <= i < |l| ==> (l + [c])[i] == l[i];
  }

  /** Every token of the scan is non-empty and lower-case, and holds only characters of the lower-cased word. */
  lemma {:induction false} SegmentsTokens(w: string, n: nat)
    requires 1 <= n <= |w|
    ensures forall t :: t in Segments(w, n) ==> ScannedToken(t, ToLower(w))
    decreases n
  {
    var lw := ToLower(w);
    var c := LowerChar(w[n - 1]);
    assert c == lw[n - 1];
    assert ScannedToken([c], lw);
    if n > 1 {
      var p := Segments(w, n - 1);
      SegmentsTokens(w, n - 1);
      if !IsBoundary(w, n - 1) {
        var q, l := p[..|p| - 1], p[|p| - 1];
        assert Segments(w, n) == q + [l + [c]];
        assert l in p;
        ScannedTokenExtend(l, c, lw);
        assert forall t :: t in q ==> t in p;
      }
    }
  }

  /** The camelCase/PascalCase branch of tokenize on a word of at least two runes: non-empty
      lower-case tokens that concatenate to the lower-cased word, cut exactly at the boundaries. */
  lemma CamelSplitCorrect(w: string)
    requires |w| >= 2
    ensures forall t :: t in CamelSplit(w) ==> ScannedToken(t, ToLower(w))
    ensures Concat(CamelSplit(w)) == ToLower(w)
    ensures Cuts(CamelSplit(w)) == Boundaries(w, |w|)
  {
    SegmentsConcat(w, |w|);
    SegmentsCuts(w, |w|);
    SegmentsTokens(w, |w|);
    assert w[..|w|] == w;
  }

  /** One iteration of the scan keeps the emitted tokens plus the open run equal to Segments. */
  lemma {:induction false} ScanStep(w: string, result: seq<string>, start: nat, i: nat)
    requires start < i < |w|
    requires result + [ToLower(w[start..i])] == Segments(w, i)
    ensures IsBoundary(w, i) ==> result + [ToLower(w[start..i])] + [ToLower(w[i..i + 1])] == Segments(w, i + 1)
    ensures !IsBoundary(w, i) ==> result + [ToLower(w[start..i + 1])] == Segments(w, i + 1)
  {
    var ts := result + [ToLower(w[start..i])];
    var c := LowerChar(w[i]);
    if IsBoundary(w, i) {
      assert ToLower(w[i..i + 1]) == [c];
    } else {
      assert ts[..|ts| - 1] == result;
      assert w[start..i + 1] == w[start..i] + [w[i]];
      ToLowerAppend(w[start..i], [w[i]]);
      assert ToLower([w[i]]) == [c];
    }
  }

  /** The scan loop of tokenize: walk the runes from the second one on, and before each
      boundary emit the lower-cased run read so far; finally emit the last run. */
  method ScanCamel(word: string) returns (result: seq<string>)
    ensures result == CamelSplit(word)
  {
    if |word| < 2 {
      return [word];
    }
    result := [];
    var start := 0;
    assert ToLower(word[0..1]) == [LowerChar(word[0])];
    for i := 1 to |word|
      invariant 0 <= start < i
      invariant result + [ToLower(word[start..i])] == Segments(word, i)
    {
      ScanStep(word, result, start, i);
      if IsUpper(word[i]) && !IsUpper(word[i - 1]) {
        result := result + [ToLower(word[start..i])];
        start := i;
      }
    }
    assert word[start..] == word[start..|word|];
    result := result + [ToLower(word[start..])];
  }

  // ------------------------------------------------------------------ tokenizer

  /** tokenize: snake_case words are split on '_', UPPER_CASE words are lower-cased and
      split on '_', lisp-case words are lower-cased and split on '-', and the other two
      conventions go through the scan. There is always at least one token; every token is
      lower-case and free of hyphens. */
  function Tokens(word: string): (ts: seq<string>)
    ensures |ts| >= 1
    ensures forall t :: t in ts ==> NoUpper(t) && '-' !in t
  {
    match DetermineCase(word)
    case Snake =>
      SplitNoUpper(word, '_');
      SplitChars(word, '_');
      Split(word, '_')
    case Upper =>
      LowerFixedIff(ToLower(word));
      LowerKeepsNonLetter(word, '-');
      SplitNoUpper(ToLower(word), '_');
      SplitChars(ToLower(word), '_');
      Split(ToLower(word), '_')
    case Lisp =>
      LowerFixedIff(ToLower(word));
      SplitNoUpper(ToLower(word), '-');
      Split(ToLower(word), '-')
    case _ =>
      MixedCaseWordIsLong(word);
      CamelSplitCorrect(word);
      LowerKeepsNonLetter(word, '-');
      CamelSplit(word)
  }

  /** tokenize as the program runs it, with the scan loop for camelCase and PascalCase words. */
  method Tokenize(word: string) returns (tokens: seq<string>)
    ensures tokens == Tokens(word)
  {
    match DetermineCase(word)
    case Snake =>
      tokens := Split(word, '_');
    case Upper =>
      tokens := Split(ToLower(word), '_');
    case Lisp =>
      tokens := Split(ToLower(word), '-');
    case _ =>
      tokens := ScanCamel(word);
  }

  /** The separator the tokenizer splits on for a convention that is split rather than scanned. */
  function Delimiter(c: Case): char {
    if c == Lisp then '-' else '_'
  }

  /** For snake_case, UPPER_CASE and lisp-case words, joining the tokens again with the
      separator they were split on gives back the lower-cased word. */
  lemma SplitTokensRejoin(word: string)
    requires DetermineCase(word) in {Snake, Upper, Lisp}
    ensures Join(Tokens(word), Delimiter(DetermineCase(word))) == ToLower(word)
  {
    match DetermineCase(word)
    case Snake =>
      LowerFixedIff(word);
      JoinSplit(word, '_');
    case Upper =>
      JoinSplit(ToLower(word), '_');
    case Lisp =>
      JoinSplit(ToLower(word), '-');
  }

  /** For camelCase and PascalCase words the tokens are non-empty, concatenate to the
      lower-cased word, and a token starts at offset k >= 1 exactly when the rune at k is
      upper-case and the rune before it is not. */
  lemma ScannedTokensRejoin(word: string)
    requires DetermineCase(word) in {Camel, Pascal}
    ensures forall t :: t in Tokens(word) ==> t != []
    ensures Concat(Tokens(word)) == ToLower(word)
    ensures Cuts(Tokens(word)) == Boundaries(word, |word|)
  {
    MixedCaseWordIsLong(word);
    CamelSplitCorrect(word);
  }

  // ------------------------------------------------------------------ renderers

  /** toSnake: the tokens joined with '_'. The result has no upper-case letter and no hyphen. */
  function SnakeCase(word: string): (r: string)
    ensures NoUpper(r) && '-' !in r
  {
    JoinNoUpper(Tokens(word), '_');
    JoinChars(Tokens(word), '_', '-');
    Join(Tokens(word), '_')
  }

  /** toUpper: the tokens joined with '_', then upper-cased. The result has no lower-case
      letter, and lower-casing it gives toSnake's result. */
  function UpperCase(word: string): (r: string)
    ensures NoLower(r) && ToLower(r) == SnakeCase(word)
  {
    var s := SnakeCase(word);
    LowerOfUpper(s);
    LowerFixedIff(s);
    assert forall i :: 0 <= i < |s| ==> !IsLower(ToUpper(s)[i]);
    ToUpper(Join(Tokens(word), '_'))
  }

  /** toLisp: the tokens joined with '-'. The result has no upper-case letter, and splitting
      it on '-' gives the tokens back. */
  function LispCase(word: string): (r: string)
    ensures NoUpper(r) && Split(r, '-') == Tokens(word)
  {
    JoinNoUpper(Tokens(word), '-');
    SplitJoin(Tokens(word), '-');
    Join(Tokens(word), '-')
  }

  /** title: strings shorter than two characters are returned unchanged (so a one-letter
      token is not capitalised); otherwise only the first character is upper-cased.
      Either way the letters are those of s, up to case. */
  function Title(s: string): (r: string)
    ensures |r| == |s|
    ensures |s| < 2 ==> r == s
    ensures |s| >= 2 ==> r[0] == UpperChar(s[0]) && r[1..] == s[1..]
    ensures ToLower(r) == ToLower(s)
  {
    if |s| < 2 then s
    else
      ToLowerAppend([UpperChar(s[0])], s[1..]);
      ToLowerAppend([s[0]], s[1..]);
      assert s == [s[0]] + s[1..];
      assert ToLower([UpperChar(s[0])]) == ToLower([s[0]]);
      [UpperChar(s[0])] + s[1..]
  }

  /** What toPascal writes for a token sequence: every token title-cased, no separator. */
  function PascalJoin(ts: seq<string>): (r: string)
    ensures |r| == |Concat(ts)|
  {
    if ts == [] then [] else PascalJoin(ts[..|ts| - 1]) + Title(ts[|ts| - 1])
  }

  lemma {:induction false} PascalJoinAppend(ts: seq<string>, t: string)
    ensures PascalJoin(ts + [t]) == PascalJoin(ts) + Title(t)
  {
    assert (ts + [t])[..|ts|] == ts;
  }

  /** One more token of the loop appends that token, title-cased. */
  lemma PascalJoinPrefix(ts: seq<string>, i: nat)
    requires i < |ts|
    ensures PascalJoin(ts[..i + 1]) == PascalJoin(ts[..i]) + Title(ts[i])
  {
    assert ts[..i + 1] == ts[..i] + [ts[i]];
    PascalJoinAppend(ts[..i], ts[i]);
  }

  /** toPascal's output has the letters of the concatenated tokens, up to case. */
  lemma {:induction false} PascalJoinLetters(ts: seq<string>)
    ensures ToLower(PascalJoin(ts)) == ToLower(Concat(ts))
    decreases |ts|
  {
    if ts != [] {
      var init, last := ts[..|ts| - 1], ts[|ts| - 1];
      PascalJoinLetters(init);
      ToLowerAppend(PascalJoin(init), Title(last));
      ToLowerAppend(Concat(init), last);
    }
  }

  /** What toCamel writes for a token sequence: no tokens give the empty string, the first
      token is written as it is, and every later one title-cased, no separator. */
  function CamelJoin(ts: seq<string>): (r: string)
    ensures |r| == |Concat(ts)|
  {
    if |ts| == 0 then []
    else if |ts| == 1 then
      ConcatCons(ts);
      ts[0]
    else
      ConcatCons(ts);
      ts[0] + PascalJoin(ts[1..])
  }

  /** toCamel's output starts with the first token unchanged and has the letters of the
      concatenated tokens, up to case. */
  lemma CamelJoinLetters(ts: seq<string>)
    ensures |ts| >= 1 ==> |ts[0]| <= |CamelJoin(ts)| && CamelJoin(ts)[..|ts[0]|] == ts[0]
    ensures ToLower(CamelJoin(ts)) == ToLower(Concat(ts))
  {
    if |ts| == 1 {
      ConcatCons(ts);
      assert Concat(ts[1..]) == [];
      assert ts[0] + [] == ts[0];
    } else if |ts| > 1 {
      ConcatCons(ts);
      PascalJoinLetters(ts[1..]);
      ToLowerAppend(ts[0], PascalJoin(ts[1..]));
      ToLowerAppend(ts[0], Concat(ts[1..]));
    }
  }

  /** toCamel as a function of the word: its letters, lower-cased, are the tokens written one
      after the other. */
  function CamelCase(word: string): (r: string)
    ensures ToLower(r) == Concat(Tokens(word))
  {
    var ts := Tokens(word);
    CamelJoinLetters(ts);
    ConcatNoUpper(ts);
    LowerFixedIff(Concat(ts));
    CamelJoin(ts)
  }

  /** toPascal as a function of the word: its letters, lower-cased, are the tokens written one
      after the other. */
  function PascalCase(word: string): (r: string)
    ensures ToLower(r) == Concat(Tokens(word))
  {
    var ts := Tokens(word);
    PascalJoinLetters(ts);
    ConcatNoUpper(ts);
    LowerFixedIff(Concat(ts));
    PascalJoin(ts)
  }

  /** The builder part of toCamel: no tokens give the empty string and one token is returned
      as it is; otherwise the first token is written unchanged and every later one title-cased. */
  method WriteCamel(tokens: seq<string>) returns (s: string)
    ensures s == CamelJoin(tokens)
  {
    if |tokens| == 0 {
      return "";
    }
    if |tokens| == 1 {
      return tokens[0];
    }
    var rest := tokens[1..];
    s := tokens[0];
    for i := 0 to |rest|
      invariant s == tokens[0] + PascalJoin(rest[..i])
    {
      PascalJoinPrefix(rest, i);
      AppendAssoc(tokens[0], PascalJoin(rest[..i]), Title(rest[i]));
      s := s + Title(rest[i]);
    }
    assert rest[..|rest|] == rest;
  }

  /** String concatenation is associative. */
  lemma AppendAssoc(a: string, b: string, c: string)
    ensures a + b + c == a + (b + c)
  {
  }

  /** The builder part of toPascal: every token title-cased, written one after the other. */
  method WritePascal(tokens: seq<string>) returns (s: string)
    ensures s == PascalJoin(tokens)
  {
    s := [];
    for i := 0 to |tokens|
      invariant s == PascalJoin(tokens[..i])
    {
      PascalJoinPrefix(tokens, i);
      s := s + Title(tokens[i]);
    }
    assert tokens[..|tokens|] == tokens;
  }

  /** toCamel as the program runs it: tokenize, then the builder loop. */
  method ToCamel(word: string) returns (s: string)
    ensures s == CamelCase(word)
  {
    var tokens := Tokenize(word);
    s := WriteCamel(tokens);
  }

  /** toPascal as the program runs it: tokenize, then the builder loop. */
  method ToPascal(word: string) returns (s: string)
    ensures s == PascalCase(word)
  {
    var tokens := Tokenize(word);
    s := WritePascal(tokens);
  }

  // ----------------------------------------------------------------- dispatcher

  /** The convention a lower-cased option names: the one-letter abbreviation or the full
      name of a convention; anything else names snake_case. */
  function OptionCase(o: string): (c: Case)
    ensures c == Upper <==> o == "u" || o == "upper"
    ensures c == Lisp <==> o == "l" || o == "lisp"
    ensures c == Camel <==> o == "c" || o == "camel"
    ensures c == Pascal <==> o == "p" || o == "pascal"
    ensures c == Snake <==> !(o in ["u", "upper", "l", "lisp", "c", "camel", "p", "pascal"])
  {
    if o == "s" || o == "snake" then Snake
    else if o == "u" || o == "upper" then Upper
    else if o == "c" || o == "camel" then Camel
    else if o == "p" || o == "pascal" then Pascal
    else if o == "l" || o == "lisp" then Lisp
    else Snake
  }

  /** The renderer for each convention, and what it writes: snake_case and lisp-case without
      upper-case letters, lisp-case splitting on '-' into the tokens, UPPER_CASE without
      lower-case letters, and camelCase and PascalCase whose letters, lower-cased, are the
      tokens written one after the other. */
  function Render(c: Case, word: string): (r: string)
    ensures c == Snake ==> NoUpper(r) && '-' !in r
    ensures c == Upper ==> NoLower(r) && ToLower(r) == SnakeCase(word)
    ensures c == Lisp ==> NoUpper(r) && Split(r, '-') == Tokens(word)
    ensures c in {Camel, Pascal} ==> ToLower(r) == Concat(Tokens(word))
  {
    match c
    case Snake => SnakeCase(word)
    case Upper => UpperCase(word)
    case Camel => CamelCase(word)
    case Pascal => PascalCase(word)
    case Lisp => LispCase(word)
  }

  /** ChangeCase: the option, lower-cased, selects the renderer; an option it does not
      recognise selects snake_case. */
  function ChangeCase(opt: string, word: string): (r: string)
    ensures var o := ToLower(opt); (o == "s" || o == "snake") ==> r == SnakeCase(word)
    ensures var o := ToLower(opt); (o == "u" || o == "upper") ==> r == UpperCase(word)
    ensures var o := ToLower(opt); (o == "c" || o == "camel") ==> r == CamelCase(word)
    ensures var o := ToLower(opt); (o == "p" || o == "pascal") ==> r == PascalCase(word)
    ensures var o := ToLower(opt); (o == "l" || o == "lisp") ==> r == LispCase(word)
    ensures var o := ToLower(opt);
      !(o in ["s", "snake", "u", "upper", "c", "camel", "p", "pascal", "l", "lisp"]) ==> r == SnakeCase(word)
  {
    Render(OptionCase(ToLower(opt)), word)
  }
}
